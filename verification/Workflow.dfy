/** The storage network, committee selection and the event-driven handoff-and-compute loop.
    Node ids and digests are numbers: byte arrays in the order the implementation compares them. */
module Workflow {
  import opened Wrappers
  import opened Sequences
  import opened Bytes
  import opened Text

  type NodeId = nat
  type DataId = nat

  datatype WorkflowError =
    | InvalidInput
    | InvalidEncoding
    | DataAlreadyExists
    | DataNotFound
    | InconsistentFragments
    | InvalidHandoff
    | InsufficientEligibleNodes
    | LocationMismatch
    | Overflow

  datatype Representation = SecretSharing | Homomorphic

  datatype StoredObject = StoredObject(representation: Representation, version: nat, payload: seq<Byte>)

  const U64: int := 0x1_0000_0000_0000_0000
  const U128: int := 0x1_0000_0000_0000_0000_0000_0000_0000_0000

  // The per-node tables: the nodes that have one, in order, and what each holds under an id.
  datatype Network = Network(nodes: seq<NodeId>, objects: map<(NodeId, DataId), StoredObject>)

  ghost predicate Ascending(s: seq<nat>) { forall i, j :: 0 <= i < j < |s| ==> s[i] < s[j] }

  // ---- the plaintext crypto backend ----

  function Prefix(r: Representation): (p: seq<Byte>) {
    if r == SecretSharing then Utf8("PPSC_DEV_SS_V1") else Utf8("PPSC_DEV_FHE_V1")
  }

  // A share carries its position after the value; a ciphertext does not.
  function Payload(r: Representation, value: nat, index: nat): (b: seq<Byte>) {
    Prefix(r) + BigEndian(value, 16) + if r == SecretSharing then BigEndian(index, 8) else []
  }

  function PayloadValue(r: Representation, b: seq<Byte>): (v: Result<nat, WorkflowError>) {
    var p := Prefix(r);
    if |b| < |p| + 16 || !(p <= b) then Err(InvalidEncoding) else Ok(FromBigEndian(b[|p|..|p| + 16]))
  }

  // All payloads must carry the value of the first.
  function DecodeFrom(r: Representation, payloads: seq<seq<Byte>>, value: nat, k: nat): (v: Result<nat, WorkflowError>)
    requires k <= |payloads|
    decreases |payloads| - k
  {
    if k == |payloads| then Ok(value)
    else
      var other :- PayloadValue(r, payloads[k]);
      if other != value then Err(InconsistentFragments) else DecodeFrom(r, payloads, value, k + 1)
  }

  function Decode(r: Representation, payloads: seq<seq<Byte>>): (v: Result<nat, WorkflowError>) {
    if payloads == [] then Err(DataNotFound)
    else
      var first :- PayloadValue(r, payloads[0]);
      DecodeFrom(r, payloads, first, 1)
  }

  function Reshared(r: Representation, value: nat, count: nat): (p: seq<seq<Byte>>)
    ensures |p| == count
  {
    seq(count, i requires 0 <= i < count => Payload(r, value, i))
  }

  function CryptoHandoff(r: Representation, sources: seq<seq<Byte>>,
      count: nat): (p: Result<seq<seq<Byte>>, WorkflowError>)
    ensures p.Ok? ==> |p.value| == count
  {
    var value :- Decode(r, sources);
    Ok(Reshared(r, value, count))
  }

  // ---- storage ----

  function AddNode(nodes: seq<NodeId>, n: NodeId): (after: seq<NodeId>) {
    if nodes == [] || n < nodes[0] then [n] + nodes
    else if n == nodes[0] then nodes
    else [nodes[0]] + AddNode(nodes[1..], n)
  }

  lemma {:induction false} AddKeeps(nodes: seq<NodeId>, n: NodeId)
    requires Ascending(nodes)
    ensures Ascending(AddNode(nodes, n)) && forall m :: m in AddNode(nodes, n) <==> m in nodes || m == n
  {
    if nodes != [] && n > nodes[0] {
      AddKeeps(nodes[1..], n);
      var t := AddNode(nodes[1..], n);
      forall i | 0 <= i < |t| ensures nodes[0] < t[i] {
        assert t[i] in t;
        if t[i] != n {
          var j :| 0 <= j < |nodes[1..]| && nodes[1..][j] == t[i];
        }
      }
    }
  }

  // Every object lies at a node that has a table; tables are in node order.
  ghost predicate Tabled(net: Network)
  {
    Ascending(net.nodes) && forall key :: key in net.objects ==> key.0 in net.nodes
  }

  function Put(net: Network, n: NodeId, d: DataId, o: StoredObject): (after: Network) {
    Network(AddNode(net.nodes, n), net.objects[(n, d) := o])
  }

  function FilterNodes(nodes: seq<NodeId>, objects: map<(NodeId, DataId), StoredObject>, d: DataId): (r: seq<NodeId>) {
    if nodes == [] then []
    else (if (nodes[0], d) in objects then [nodes[0]] else []) + FilterNodes(nodes[1..], objects, d)
  }

  function Locations(net: Network, d: DataId): (r: seq<NodeId>) { FilterNodes(net.nodes, net.objects, d) }

  // Objects go to the nodes one after another; the first node that already has the id stops the
  // upload and keeps what was stored before it.
  function UploadFrom(net: Network, d: DataId, nodes: seq<NodeId>, objects: seq<StoredObject>,
      k: nat): (r: (Result<(), WorkflowError>, Network))
    requires k <= |nodes| == |objects|
    decreases |nodes| - k
  {
    if k == |nodes| then (Ok(()), net)
    else if (nodes[k], d) in net.objects then (Err(DataAlreadyExists), net.(nodes := AddNode(net.nodes, nodes[k])))
    else UploadFrom(Put(net, nodes[k], d, objects[k]), d, nodes, objects, k + 1)
  }

  function Objects(r: Representation, version: nat, payloads: seq<seq<Byte>>): (o: seq<StoredObject>)
    ensures |o| == |payloads|
  {
    seq(|payloads|, i requires 0 <= i < |payloads| => StoredObject(r, version, payloads[i]))
  }

  // Secret shares: a fragment for every node listed.
  function UploadShares(net: Network, d: DataId, version: nat, nodes: seq<NodeId>, payloads: seq<seq<Byte>>)
    : (u: (Result<(), WorkflowError>, Network))
    requires |nodes| == |payloads|
  {
    if nodes == [] || version == 0 then (Err(InvalidInput), net)
    else UploadFrom(net, d, nodes, Objects(SecretSharing, version, payloads), 0)
  }

  function Copies(ciphertext: seq<Byte>, count: nat): (p: seq<seq<Byte>>)
    ensures |p| == count
  {
    seq(count, _ => ciphertext)
  }

  // A ciphertext: the same bytes, which must not be empty, for every node listed.
  function UploadCiphertext(net: Network, d: DataId, version: nat, ciphertext: seq<Byte>, nodes: seq<NodeId>)
    : (u: (Result<(), WorkflowError>, Network))
  {
    if nodes == [] || version == 0 || ciphertext == [] then (Err(InvalidInput), net)
    else UploadFrom(net, d, nodes, Objects(Homomorphic, version, Copies(ciphertext, |nodes|)), 0)
  }

  function PutAll(net: Network, d: DataId, nodes: seq<NodeId>, objects: seq<StoredObject>, k: nat): (after: Network)
    requires k <= |nodes| == |objects|
  {
    if k == 0 then net else Put(PutAll(net, d, nodes, objects, k - 1), nodes[k - 1], d, objects[k - 1])
  }

  // Only the target nodes keep the id.
  function RemoveOthers(net: Network, d: DataId, targets: seq<NodeId>): (after: Network) {
    net.(objects := map key | key in net.objects && (key.1 != d || key.0 in targets) :: net.objects[key])
  }

  lemma {:induction false} FilteredNodes(nodes: seq<NodeId>, objects: map<(NodeId, DataId), StoredObject>, d: DataId)
    ensures forall n :: n in FilterNodes(nodes, objects, d) <==> n in nodes && (n, d) in objects
  {
    if nodes != [] {
      FilteredNodes(nodes[1..], objects, d);
    }
  }

  // The stored fragments of an id in node order.
  function Fragments(net: Network, d: DataId): (f: seq<StoredObject>)
    ensures |f| == |Locations(net, d)|
  {
    FilteredNodes(net.nodes, net.objects, d);
    var at := Locations(net, d);
    seq(|at|, i requires 0 <= i < |at| => assert at[i] in at; net.objects[(at[i], d)])
  }

  function PayloadsIn(f: seq<StoredObject>): (p: seq<seq<Byte>>)
    ensures |p| == |f|
  {
    seq(|f|, i requires 0 <= i < |f| => f[i].payload)
  }

  predicate Alike(f: seq<StoredObject>)
    requires f != []
  {
    forall i :: 0 <= i < |f| ==> f[i].representation == f[0].representation && f[i].version == f[0].version
  }

  function Handoff(net: Network, d: DataId, targets: seq<NodeId>): (r: (Result<nat, WorkflowError>, Network)) {
    var sources := Fragments(net, d);
    if targets == [] then (Err(InvalidInput), net)
    else if sources == [] then (Err(DataNotFound), net)
    else if !Alike(sources) then (Err(InconsistentFragments), net)
    else
      match CryptoHandoff(sources[0].representation, PayloadsIn(sources), |targets|)
      case Err(e) => (Err(e), net)
      case Ok(payloads) =>
        if sources[0].version + 1 >= U64 then (Err(Overflow), net)
        else (Ok(sources[0].version + 1), Moved(net, d, targets, sources[0].representation, sources[0].version + 1,
            payloads))
  }

  // The targets get new fragments and everybody else drops theirs.
  function Moved(net: Network, d: DataId, targets: seq<NodeId>, r: Representation, version: nat,
      payloads: seq<seq<Byte>>): (after: Network)
    requires |targets| == |payloads|
  {
    RemoveOthers(PutAll(net, d, targets, Objects(r, version, payloads), |targets|), d, targets)
  }

  // The fragments at the first k chosen nodes, which must have one representation.
  function Gathered(net: Network, d: DataId, selected: seq<NodeId>,
      k: nat): (r: Result<(Option<Representation>, seq<seq<Byte>>), WorkflowError>)
    requires k <= |selected|
  {
    if k == 0 then Ok((None, []))
    else
      var init :- Gathered(net, d, selected, k - 1);
      var key := (selected[k - 1], d);
      if key !in net.objects then Err(DataNotFound)
      else if init.0.Some? && init.0.value != net.objects[key].representation then Err(InconsistentFragments)
      else Ok((Some(net.objects[key].representation), init.1 + [net.objects[key].payload]))
  }

  function PayloadsAt(net: Network, d: DataId,
      selected: seq<NodeId>): (r: Result<(Representation, seq<seq<Byte>>), WorkflowError>)
  {
    var all :- Gathered(net, d, selected, |selected|);
    match all.0
    case Some(representation) => Ok((representation, all.1))
    case None => Err(DataNotFound)
  }

  // ---- committee selection ----

  type Ranking = (nat, NodeId) -> nat

  // Inserts by rank after everything of the same rank.
  function InsertRanked(rank: NodeId -> nat, s: seq<NodeId>, n: NodeId): (r: seq<NodeId>)
    ensures |r| == |s| + 1
  {
    if s == [] || rank(n) < rank(s[0]) then [n] + s else [s[0]] + InsertRanked(rank, s[1..], n)
  }

  function SortRanked(rank: NodeId -> nat, s: seq<NodeId>): (r: seq<NodeId>)
    ensures |r| == |s|
  {
    if s == [] then [] else InsertRanked(rank, SortRanked(rank, s[..|s| - 1]), s[|s| - 1])
  }

  function Select(rank: Ranking, seed: nat, eligible: seq<NodeId>, size: nat): (r: Result<seq<NodeId>, WorkflowError>) {
    if size == 0 || |eligible| < size then Err(InsufficientEligibleNodes)
    else if !Distinct(eligible) then Err(InvalidInput)
    else
      var ranked := SortRanked(n => rank(seed, n), eligible);
      Ok(SortRanked(n => n, ranked[..size]))
  }

  ghost predicate Ranked(rank: NodeId -> nat, s: seq<NodeId>)
  {
    forall i, j :: 0 <= i < j < |s| ==> rank(s[i]) <= rank(s[j])
  }

  lemma {:induction false} InsertMembers(rank: NodeId -> nat, s: seq<NodeId>, n: NodeId)
    ensures multiset(InsertRanked(rank, s, n)) == multiset(s) + multiset{n}
    ensures forall x :: x in InsertRanked(rank, s, n) <==> x in s || x == n
  {
    if s != [] && rank(n) >= rank(s[0]) {
      InsertMembers(rank, s[1..], n);
      assert s == [s[0]] + s[1..];
    }
  }

  lemma {:induction false} InsertKeeps(rank: NodeId -> nat, s: seq<NodeId>, n: NodeId)
    requires Ranked(rank, s)
    ensures Ranked(rank, InsertRanked(rank, s, n)) && multiset(InsertRanked(rank, s, n)) == multiset(s) + multiset{n}
  {
    hide Ranked;
    InsertMembers(rank, s, n);
    if s == [] || rank(n) < rank(s[0]) {
      HeadLowest(rank, s);
      ConsRanked(rank, n, s);
    } else {
      HeadLowest(rank, s);
      TailRanked(rank, s);
      InsertKeeps(rank, s[1..], n);
      InsertMembers(rank, s[1..], n);
      ConsRanked(rank, s[0], InsertRanked(rank, s[1..], n));
    }
  }

  lemma HeadLowest(rank: NodeId -> nat, s: seq<NodeId>)
    requires Ranked(rank, s)
    ensures s != [] ==> forall y :: y in s ==> rank(s[0]) <= rank(y)
  {
    forall y | y in s ensures rank(s[0]) <= rank(y) {
      var i :| 0 <= i < |s| && s[i] == y;
    }
  }

  lemma TailRanked(rank: NodeId -> nat, s: seq<NodeId>)
    requires Ranked(rank, s) && s != []
    ensures Ranked(rank, s[1..])
  {
  }

  lemma ConsRanked(rank: NodeId -> nat, x: NodeId, t: seq<NodeId>)
    requires Ranked(rank, t) && forall y :: y in t ==> rank(x) <= rank(y)
    ensures Ranked(rank, [x] + t)
  {
    var r := [x] + t;
    forall i, j | 0 <= i < j < |r| ensures rank(r[i]) <= rank(r[j]) {
      assert r[j] == t[j - 1] && t[j - 1] in t;
      if i > 0 { assert r[i] == t[i - 1]; }
    }
  }

  lemma {:induction false} SortKeeps(rank: NodeId -> nat, s: seq<NodeId>)
    ensures var r := SortRanked(rank, s); Ranked(rank, r) && multiset(r) == multiset(s)
    decreases |s|
  {
    if s != [] {
      var init := s[..|s| - 1];
      SortUnfold(rank, s);
      MultisetSnoc(s);
      hide *;
      SortKeeps(rank, init);
      InsertKeeps(rank, SortRanked(rank, init), s[|s| - 1]);
    }
  }

  lemma SortUnfold(rank: NodeId -> nat, s: seq<NodeId>)
    requires s != []
    ensures SortRanked(rank, s) == InsertRanked(rank, SortRanked(rank, s[..|s| - 1]), s[|s| - 1])
  {
    hide InsertRanked;
  }

  lemma MultisetSnoc(s: seq<NodeId>)
    requires s != []
    ensures multiset(s) == multiset(s[..|s| - 1]) + multiset{s[|s| - 1]}
  {
    assert s == s[..|s| - 1] + [s[|s| - 1]];
  }

  lemma MultisetRepeats(a: seq<NodeId>, b: seq<NodeId>)
    requires multiset(a) == multiset(b) && Distinct(a)
    ensures Distinct(b)
  {
    forall i, j | 0 <= i < j < |b| ensures b[i] != b[j] {
      if b[i] == b[j] {
        var x := b[i];
        assert b == b[..i] + [x] + b[i + 1..j] + [x] + b[j + 1..];
        assert multiset(b)[x] >= 2;
        CountOne(a, x);
      }
    }
  }

  lemma {:induction false} CountOne(a: seq<NodeId>, x: NodeId)
    requires Distinct(a)
    ensures multiset(a)[x] <= 1
    decreases |a|
  {
    if a != [] {
      var init, last := a[..|a| - 1], a[|a| - 1];
      assert a == init + [last];
      CountOne(init, x);
      if last == x {
        assert x !in init;
        assert x !in multiset(init);
      }
    }
  }

  // x comes before y: by rank, and among equals by position.
  ghost predicate Before(rank: NodeId -> nat, s: seq<NodeId>, x: NodeId, y: NodeId) {
    rank(x) < rank(y) || (rank(x) == rank(y) && Earlier(s, x, y))
  }

  ghost predicate Earlier(s: seq<NodeId>, x: NodeId, y: NodeId) {
    exists i, j :: 0 <= i < j < |s| && s[i] == x && s[j] == y
  }

  // Insertion puts a node after everything of its rank.
  lemma {:induction false} InsertPlace(rank: NodeId -> nat, s: seq<NodeId>, n: NodeId) returns (k: nat)
    requires Ranked(rank, s)
    ensures k <= |s| && InsertRanked(rank, s, n) == s[..k] + [n] + s[k..]
    ensures forall i :: 0 <= i < k ==> rank(s[i]) <= rank(n)
    ensures forall i :: k <= i < |s| ==> rank(n) < rank(s[i])
  {
    if s == [] || rank(n) < rank(s[0]) {
      k := 0;
    } else {
      TailRanked(rank, s);
      k := InsertPlace(rank, s[1..], n);
      k := k + 1;
      assert s == [s[0]] + s[1..];
      assert s[..k] == [s[0]] + s[1..][..k - 1] && s[k..] == s[1..][k - 1..];
    }
  }

  lemma EarlierKept(s: seq<NodeId>, x: NodeId, y: NodeId)
    requires s != [] && Earlier(s[..|s| - 1], x, y)
    ensures Earlier(s, x, y)
  {
    var i, j :| 0 <= i < j < |s| - 1 && s[..|s| - 1][i] == x && s[..|s| - 1][j] == y;
    assert s[i] == x && s[j] == y;
  }

  lemma EarlierLast(s: seq<NodeId>, x: NodeId)
    requires s != [] && x in s[..|s| - 1]
    ensures Earlier(s, x, s[|s| - 1])
  {
    var i :| 0 <= i < |s| - 1 && s[..|s| - 1][i] == x;
    assert s[i] == x;
  }

  // Two places of a stable order after the last node was put in at place k.
  lemma StableAt(rank: NodeId -> nat, s: seq<NodeId>, t: seq<NodeId>, k: nat, i: nat, j: nat)
    requires s != [] && k <= |t| && i < j <= |t| && multiset(t) == multiset(s[..|s| - 1])
    requires forall a, b :: 0 <= a < b < |t| ==> Before(rank, s[..|s| - 1], t[a], t[b])
    requires forall a :: 0 <= a < k ==> rank(t[a]) <= rank(s[|s| - 1])
    requires forall a :: k <= a < |t| ==> rank(s[|s| - 1]) < rank(t[a])
    ensures var r := t[..k] + [s[|s| - 1]] + t[k..]; Before(rank, s, r[i], r[j])
  {
    hide Earlier;
    var r := t[..k] + [s[|s| - 1]] + t[k..];
    if i != k && j != k {
      var a, b := if i < k then i else i - 1, if j < k then j else j - 1;
      assert r[i] == t[a] && r[j] == t[b];
      if rank(t[a]) == rank(t[b]) { EarlierKept(s, t[a], t[b]); }
    } else if j == k {
      InBoth(s[..|s| - 1], t, r[i]);
      EarlierLast(s, r[i]);
    }
  }

  // The sort is stable.
  lemma {:induction false} SortStable(rank: NodeId -> nat, s: seq<NodeId>)
    ensures var r := SortRanked(rank, s); forall i, j :: 0 <= i < j < |r| ==> Before(rank, s, r[i], r[j])
    decreases |s|
  {
    if s != [] {
      SortUnfold(rank, s);
      SortKeeps(rank, s[..|s| - 1]);
      SortStable(rank, s[..|s| - 1]);
      var t := SortRanked(rank, s[..|s| - 1]);
      var k := InsertPlace(rank, t, s[|s| - 1]);
      hide *;
      var r := t[..k] + [s[|s| - 1]] + t[k..];
      forall i, j | 0 <= i < j < |r| ensures Before(rank, s, r[i], r[j]) {
        StableAt(rank, s, t, k, i, j);
      }
    }
  }

  // The committee: as many different eligible nodes as asked for, in order, and every node left out
  // comes after every chosen one, by rank and then by its place in the list.
  lemma CommitteeIs(rank: Ranking, seed: nat, eligible: seq<NodeId>, size: nat)
    requires Select(rank, seed, eligible, size).Ok?
    ensures var r := Select(rank, seed, eligible, size).value;
      && |r| == size && Ascending(r) && (forall i :: 0 <= i < |r| ==> r[i] in eligible)
      && (forall x, y :: x in r && y in eligible && y !in r ==> Before(n => rank(seed, n), eligible, x, y))
  {
    var order := (n: NodeId) => rank(seed, n);
    var ranked := SortRanked(order, eligible);
    SortKeeps(order, eligible);
    SortStable(order, eligible);
    MultisetRepeats(eligible, ranked);
    var first := ranked[..size];
    var r := SortRanked((n: NodeId) => n, first);
    SortKeeps((n: NodeId) => n, first);
    MultisetRepeats(first, r);
    assert forall i, j :: 0 <= i < j < |r| ==> r[i] < r[j];
    forall i | 0 <= i < |r| ensures r[i] in eligible {
      InBoth(first, r, r[i]);
      InBoth(eligible, ranked, r[i]);
    }
    forall x, y | x in r && y in eligible && y !in r ensures Before(order, eligible, x, y) {
      InBoth(first, r, x);
      InBoth(first, r, y);
      InBoth(eligible, ranked, y);
      var i :| 0 <= i < |first| && first[i] == x;
      var j :| 0 <= j < |ranked| && ranked[j] == y;
      assert forall m :: 0 <= m < size ==> first[m] in first && first[m] == ranked[m];
      assert ranked[i] == x && i < j;
      assert Before(order, eligible, ranked[i], ranked[j]);
    }
  }

  lemma InBoth(a: seq<NodeId>, b: seq<NodeId>, x: NodeId)
    requires multiset(a) == multiset(b)
    ensures x in a <==> x in b
  {
    assert x in a <==> x in multiset(a);
    assert x in b <==> x in multiset(b);
  }
}
