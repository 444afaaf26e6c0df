/** Consistency of the storage network: when all fragments of an id agree, and exactly which uploads
    and handoffs keep it so. */
module StorageLaws {
  import opened Wrappers
  import opened Sequences
  import opened Bytes
  import opened Text
  import opened Workflow

  // ---- consistency ----

  datatype Entry = Entry(representation: Representation, version: nat, value: nat)

  // Every fragment of the id says the same.
  ghost predicate Holds(net: Network, d: DataId, e: Entry) {
    && e.value < U128 && 1 <= e.version < U64
    && forall n {:trigger net.objects[(n, d)]} {:trigger (n, d) in net.objects} :: (n, d) in net.objects ==>
      var o := net.objects[(n, d)];
      o.representation == e.representation && o.version == e.version
          && PayloadValue(e.representation, o.payload) == Ok(e.value)
  }

  ghost predicate Stored(net: Network, d: DataId) { exists n :: (n, d) in net.objects }

  // All fragments of an id agree on representation, version and decoded value, for every id.
  ghost predicate Consistent(net: Network) { Tabled(net) && forall d :: Agreed(net, d) }

  ghost predicate Agreed(net: Network, d: DataId) { exists e :: Holds(net, d, e) }

  lemma PayloadRead(r: Representation, value: nat, index: nat)
    requires value < U128
    ensures PayloadValue(r, Payload(r, value, index)) == Ok(value)
  {
    hide Prefix;
    Width16();
    ReadBack(value, 16);
    var p := Prefix(r);
    assert Payload(r, value, index)[|p|..|p| + 16] == BigEndian(value, 16);
  }

  // Shares and ciphertexts begin with different texts.
  lemma PrefixesApart()
    ensures Prefix(SecretSharing) == Utf8("PPSC_DEV_SS_V1") && |Prefix(SecretSharing)| == 14
    ensures Prefix(Homomorphic) == Utf8("PPSC_DEV_FHE_V1") && |Prefix(Homomorphic)| == 15
    ensures Prefix(SecretSharing)[9] == 'S' as int && Prefix(Homomorphic)[9] == 'F' as int
  {
    hide Utf8;
    AsciiCodes("PPSC_DEV_SS_V1");
    AsciiCodes("PPSC_DEV_FHE_V1");
  }

  // A share is the value and its position, so shares are told apart; a ciphertext is the value
  // alone; and no bytes are both.
  lemma PayloadsApart(v: nat, w: nat, i: nat, j: nat, b: seq<Byte>)
    requires v < U128 && w < U128 && i < U64 && j < U64
    ensures Payload(SecretSharing, v, i) == Payload(SecretSharing, w, j) <==> v == w && i == j
    ensures Payload(Homomorphic, v, i) == Payload(Homomorphic, w, j) <==> v == w
    ensures PayloadValue(SecretSharing, b).Err? || PayloadValue(Homomorphic, b).Err?
  {
    hide BigEndian, FromBigEndian, Prefix, PayloadValue;
    SharePosition(v, i);
    SharePosition(w, j);
    PayloadRead(SecretSharing, v, i);
    PayloadRead(SecretSharing, w, j);
    PayloadRead(Homomorphic, v, i);
    PayloadRead(Homomorphic, w, j);
    KindsApart(b);
  }

  lemma KindsApart(b: seq<Byte>)
    ensures PayloadValue(SecretSharing, b).Err? || PayloadValue(Homomorphic, b).Err?
  {
    hide Prefix, FromBigEndian;
    PrefixesApart();
    if Prefix(SecretSharing) <= b { assert b[9] == 'S' as int; }
  }

  lemma SharePosition(v: nat, i: nat)
    requires v < U128 && i < U64
    ensures var b := Payload(SecretSharing, v, i); |b| == 38 && FromBigEndian(b[30..]) == i
  {
    hide BigEndian, FromBigEndian, Prefix;
    PrefixesApart();
    Width8();
    ReadBack(i, 8);
    assert Payload(SecretSharing, v, i)[30..] == BigEndian(i, 8);
  }

  lemma {:induction false} DecodeSame(r: Representation, payloads: seq<seq<Byte>>, value: nat, k: nat)
    requires k <= |payloads| && forall i :: 0 <= i < |payloads| ==> PayloadValue(r, payloads[i]) == Ok(value)
    ensures DecodeFrom(r, payloads, value, k) == Ok(value)
    decreases |payloads| - k
  {
    hide PayloadValue;
    if k < |payloads| { DecodeSame(r, payloads, value, k + 1); }
  }

  lemma DecodeAgreed(r: Representation, payloads: seq<seq<Byte>>, value: nat)
    requires payloads != [] && forall i :: 0 <= i < |payloads| ==> PayloadValue(r, payloads[i]) == Ok(value)
    ensures Decode(r, payloads) == Ok(value)
  {
    hide PayloadValue;
    DecodeSame(r, payloads, value, 1);
  }

  // ---- node lists ----

  lemma {:induction false} FilterAscends(nodes: seq<NodeId>, objects: map<(NodeId, DataId), StoredObject>, d: DataId)
    requires Ascending(nodes)
    ensures Ascending(FilterNodes(nodes, objects, d))
  {
    if nodes != [] {
      FilterAscends(nodes[1..], objects, d);
      FilteredNodes(nodes[1..], objects, d);
      var t := FilterNodes(nodes[1..], objects, d);
      forall i | 0 <= i < |t| ensures nodes[0] < t[i] {
        assert t[i] in t;
        var j :| 0 <= j < |nodes[1..]| && nodes[1..][j] == t[i];
      }
    }
  }

  lemma {:induction false} AscendingUnique(a: seq<nat>, b: seq<nat>)
    requires Ascending(a) && Ascending(b) && forall x :: x in a <==> x in b
    ensures a == b
    decreases |a|
  {
    assert (b != [] ==> b[0] in b) && (a != [] ==> a[0] in a);
    if a != [] {
      assert b != [];
      FirstSmallest(a, b[0]);
      FirstSmallest(b, a[0]);
      forall x ensures x in a[1..] <==> x in b[1..] {
        TailMember(a, x);
        TailMember(b, x);
      }
      AscendingUnique(a[1..], b[1..]);
      assert a == [a[0]] + a[1..] && b == [b[0]] + b[1..];
    }
  }

  lemma FirstSmallest(a: seq<nat>, x: nat)
    requires Ascending(a) && x in a
    ensures a[0] <= x
  {
    var i :| 0 <= i < |a| && a[i] == x;
  }

  lemma TailMember(a: seq<nat>, x: nat)
    requires Ascending(a) && a != []
    ensures x in a[1..] <==> x in a && x != a[0]
  {
    if x in a && x != a[0] {
      var i :| 0 <= i < |a| && a[i] == x;
      assert a[1..][i - 1] == x;
    }
  }

  // ---- storing and moving ----

  ghost predicate OthersKept(a: Network, b: Network, d: DataId) {
    forall n: NodeId, x: DataId {:trigger (n, x) in b.objects} :: x != d ==>
      ((n, x) in b.objects <==> (n, x) in a.objects) && ((n, x) in a.objects ==> b.objects[(n, x)] == a.objects[(n, x)])
  }

  // The fragments of d after writing `objects` at `nodes`.
  ghost predicate WrittenAt(a: Network, b: Network, d: DataId, nodes: seq<NodeId>, objects: seq<StoredObject>) {
    forall n: NodeId {:trigger (n, d) in b.objects} ::
      && ((n, d) in b.objects <==> (n, d) in a.objects || n in nodes)
      && (n in nodes ==> b.objects[(n, d)] in objects)
  }

  lemma {:induction false} PutAllEffect(net: Network, d: DataId, nodes: seq<NodeId>, objects: seq<StoredObject>, k: nat)
    requires Tabled(net) && k <= |nodes| == |objects|
    ensures var t := PutAll(net, d, nodes, objects, k);
        Tabled(t) && OthersKept(net, t, d) && WrittenAt(net, t, d, nodes[..k], objects)
  {
    hide Tabled, AddNode;
    if k > 0 {
      PutAllEffect(net, d, nodes, objects, k - 1);
      PutTabled(PutAll(net, d, nodes, objects, k - 1), nodes[k - 1], d, objects[k - 1]);
      assert nodes[..k] == nodes[..k - 1] + [nodes[k - 1]];
    }
  }

  lemma PutTabled(net: Network, n: NodeId, d: DataId, o: StoredObject)
    requires Tabled(net)
    ensures Tabled(Put(net, n, d, o))
  {
    AddKeeps(net.nodes, n);
  }

  // The id is stored at exactly the nodes of the list, in any order, and says the entry; a list in
  // ascending order is what the network reports as its locations.
  ghost predicate At(net: Network, d: DataId, nodes: seq<NodeId>, e: Entry) {
    && Holds(net, d, e) && (forall n :: (n, d) in net.objects <==> n in nodes)
    && (Ascending(nodes) ==> Locations(net, d) == nodes)
  }

  // The recorded locations of an id stored at exactly these nodes: the nodes in order, each once.
  lemma LocationsAre(net: Network, d: DataId, nodes: seq<NodeId>)
    requires Tabled(net) && forall n :: (n, d) in net.objects <==> n in nodes
    ensures Ascending(Locations(net, d)) && (forall n :: n in Locations(net, d) <==> n in nodes)
    ensures Ascending(nodes) ==> Locations(net, d) == nodes
  {
    FilterAscends(net.nodes, net.objects, d);
    FilteredNodes(net.nodes, net.objects, d);
    forall n ensures n in Locations(net, d) <==> n in nodes {
      assert (n, d) in net.objects ==> (n, d).0 in net.nodes;
    }
    if Ascending(nodes) { AscendingUnique(Locations(net, d), nodes); }
  }

  // The objects written at the nodes carry the entry.
  ghost predicate Carries(objects: seq<StoredObject>, e: Entry) {
    forall i :: 0 <= i < |objects| ==>
      objects[i].representation == e.representation && objects[i].version == e.version
          && PayloadValue(e.representation, objects[i].payload) == Ok(e.value)
  }

  lemma CarriedHolds(net: Network, d: DataId, nodes: seq<NodeId>, objects: seq<StoredObject>, e: Entry)
    requires Tabled(net) && Carries(objects, e) && e.value < U128 && 1 <= e.version < U64
    requires forall n {:trigger (n, d) in net.objects} ::
        ((n, d) in net.objects <==> n in nodes) && (n in nodes ==> net.objects[(n, d)] in objects)
    ensures At(net, d, nodes, e)
  {
    hide PayloadValue, Tabled, Locations;
    LocationsAre(net, d, nodes);
    forall n | (n, d) in net.objects
      ensures net.objects[(n, d)].representation == e.representation && net.objects[(n, d)].version == e.version
      ensures PayloadValue(e.representation, net.objects[(n, d)].payload) == Ok(e.value)
    {
      var i :| 0 <= i < |objects| && objects[i] == net.objects[(n, d)];
    }
  }

  lemma MovedEffect(net: Network, d: DataId, nodes: seq<NodeId>, objects: seq<StoredObject>, e: Entry)
    requires Tabled(net) && |nodes| == |objects| && Carries(objects, e) && e.value < U128 && 1 <= e.version < U64
    ensures var t := RemoveOthers(PutAll(net, d, nodes, objects, |nodes|), d, nodes);
      Tabled(t) && At(t, d, nodes, e) && OthersKept(net, t, d)
  {
    hide PayloadValue, Carries, At, PutAll;
    PutAllEffect(net, d, nodes, objects, |nodes|);
    assert nodes[..|nodes|] == nodes;
    CarriedHolds(RemoveOthers(PutAll(net, d, nodes, objects, |nodes|), d, nodes), d, nodes, objects, e);
  }

  lemma ConsistentAfter(a: Network, b: Network, d: DataId, e: Entry)
    requires Consistent(a) && Tabled(b) && Holds(b, d, e) && OthersKept(a, b, d)
    ensures Consistent(b)
  {
    hide PayloadValue;
    forall x ensures Agreed(b, x) {
      if x == d {
        assert Holds(b, x, e);
      } else {
        assert Agreed(a, x);
        var y :| Holds(a, x, y);
        OtherHolds(a, b, d, x, y);
      }
    }
  }

  lemma OtherHolds(a: Network, b: Network, d: DataId, x: DataId, y: Entry)
    requires OthersKept(a, b, d) && x != d && Holds(a, x, y)
    ensures Holds(b, x, y)
  {
    hide PayloadValue;
    forall n | (n, x) in b.objects ensures (n, x) in a.objects && b.objects[(n, x)] == a.objects[(n, x)] {
    }
  }

  // The fragments of the id, whatever they are, agree on the entry.
  ghost predicate AllSay(net: Network, d: DataId, e: Entry) {
    forall n {:trigger net.objects[(n, d)]} {:trigger (n, d) in net.objects} :: (n, d) in net.objects ==>
      var o := net.objects[(n, d)];
      o.representation == e.representation && o.version == e.version
          && PayloadValue(e.representation, o.payload) == Ok(e.value)
  }

  lemma FragmentsAgree(net: Network, d: DataId, e: Entry)
    requires Tabled(net) && AllSay(net, d, e)
    ensures var f := Fragments(net, d); Carries(f, e) && (f != [] <==> Stored(net, d))
  {
    hide PayloadValue;
    FilteredNodes(net.nodes, net.objects, d);
    var at := Locations(net, d);
    forall i | 0 <= i < |at| ensures at[i] in at && (at[i], d) in net.objects {
      assert at[i] in at;
    }
    if at != [] { assert (at[0], d) in net.objects; }
    if Stored(net, d) {
      var n :| (n, d) in net.objects;
      assert (n, d).0 in net.nodes;
      assert n in at;
    }
  }

  // A handoff of a stored id to any list of targets leaves it at exactly the targets, one version
  // up, with its value; any other outcome leaves the network as it was.
  lemma HandoffEffect(net: Network, d: DataId, targets: seq<NodeId>, e: Entry)
    requires Consistent(net) && Holds(net, d, e)
    ensures var h := Handoff(net, d, targets);
      if targets == [] then h == (Err(InvalidInput), net)
      else if !Stored(net, d) then h == (Err(DataNotFound), net)
      else if e.version + 1 >= U64 then h == (Err(Overflow), net)
      else
        h.0 == Ok(e.version + 1) && At(h.1, d, targets, e.(version := e.version + 1)) && OthersKept(net, h.1, d)
        && Consistent(h.1)
  {
    hide PayloadValue, Payload, At, OthersKept, RemoveOthers, PutAll, Reshared, CryptoHandoff;
    hide Locations, Stored, Carries, Alike, AllSay, Holds;
    HeldSay(net, d, e);
    FragmentsAgree(net, d, e);
    var f := Fragments(net, d);
    if targets != [] && f != [] {
      FragmentsDecode(f, e, |targets|);
      VersionBounded(net, d, e);
      if e.version + 1 < U64 {
        var next := e.(version := e.version + 1);
        ResharedCarries(e.representation, e.value, |targets|, next);
        MovedEffect(net, d, targets, Objects(e.representation, e.version + 1,
            Reshared(e.representation, e.value, |targets|)), next);
        AtHolds(Handoff(net, d, targets).1, d, targets, next);
        ConsistentAfter(net, Handoff(net, d, targets).1, d, next);
      }
    }
  }

  lemma HeldSay(net: Network, d: DataId, e: Entry)
    requires Holds(net, d, e)
    ensures AllSay(net, d, e)
  {
    hide PayloadValue;
  }

  lemma VersionBounded(net: Network, d: DataId, e: Entry)
    requires Holds(net, d, e)
    ensures e.value < U128 && 1 <= e.version < U64
  {
    hide PayloadValue;
  }

  lemma FragmentsDecode(f: seq<StoredObject>, e: Entry, count: nat)
    requires f != [] && Carries(f, e)
    ensures Alike(f) && f[0].representation == e.representation && f[0].version == e.version
    ensures CryptoHandoff(e.representation, PayloadsIn(f), count) == Ok(Reshared(e.representation, e.value, count))
  {
    hide PayloadValue, Decode;
    DecodeAgreed(e.representation, PayloadsIn(f), e.value);
  }

  lemma ResharedCarries(r: Representation, value: nat, count: nat, e: Entry)
    requires value < U128 && e.representation == r && e.value == value
    ensures Carries(Objects(r, e.version, Reshared(r, value, count)), e)
  {
    hide PayloadValue, Payload;
    forall i | 0 <= i < count ensures PayloadValue(r, Reshared(r, value, count)[i]) == Ok(value) {
      PayloadRead(r, value, i);
    }
  }

  // ---- handoffs on any network ----

  lemma ValueBounded(r: Representation, b: seq<Byte>)
    ensures PayloadValue(r, b).Ok? ==> PayloadValue(r, b).value < U128
  {
    hide Prefix;
    Width16();
    if PayloadValue(r, b).Ok? { WriteBack(b[|Prefix(r)|..|Prefix(r)| + 16]); }
  }

  lemma {:induction false} DecodeFromAgreed(r: Representation, payloads: seq<seq<Byte>>, value: nat, k: nat)
    requires k <= |payloads|
    ensures DecodeFrom(r, payloads, value, k).Ok? <==>
      forall i :: k <= i < |payloads| ==> PayloadValue(r, payloads[i]) == Ok(value)
    ensures DecodeFrom(r, payloads, value, k).Ok? ==> DecodeFrom(r, payloads, value, k).value == value
    decreases |payloads| - k
  {
    hide PayloadValue;
    if k < |payloads| { DecodeFromAgreed(r, payloads, value, k + 1); }
  }

  // Fragments that go through the checks of a handoff carry one entry.
  lemma DecodedCarries(f: seq<StoredObject>)
    requires f != [] && Alike(f) && Decode(f[0].representation, PayloadsIn(f)).Ok?
    ensures Carries(f, Entry(f[0].representation, f[0].version, Decode(f[0].representation, PayloadsIn(f)).value))
  {
    hide PayloadValue;
    var r, p := f[0].representation, PayloadsIn(f);
    var value := PayloadValue(r, p[0]).value;
    DecodeFromAgreed(r, p, value, 1);
    assert Decode(r, p) == Ok(value);
    forall i | 0 <= i < |f| ensures PayloadValue(r, f[i].payload) == Ok(value) {
      assert p[i] == f[i].payload;
    }
  }

  lemma CarriedSay(net: Network, d: DataId, e: Entry)
    requires Tabled(net) && Carries(Fragments(net, d), e)
    ensures AllSay(net, d, e)
  {
    hide PayloadValue;
    FilteredNodes(net.nodes, net.objects, d);
    var at, f := Locations(net, d), Fragments(net, d);
    forall n | (n, d) in net.objects ensures net.objects[(n, d)] in f {
      assert (n, d).0 in net.nodes;
      var i :| 0 <= i < |at| && at[i] == n;
      assert f[i] == net.objects[(n, d)];
    }
  }

  lemma NoFragments(net: Network, d: DataId)
    requires Tabled(net)
    ensures Fragments(net, d) != [] <==> Stored(net, d)
  {
    FilteredNodes(net.nodes, net.objects, d);
    var at := Locations(net, d);
    forall i | 0 <= i < |at| ensures (at[i], d) in net.objects {
      assert at[i] in at;
    }
    if at != [] { assert (at[0], d) in net.objects; }
    if Stored(net, d) {
      var n :| (n, d) in net.objects;
      assert (n, d).0 in net.nodes;
      assert n in at;
    }
  }

  lemma SayOnce(net: Network, d: DataId, e: Entry, f: Entry)
    requires Stored(net, d) && AllSay(net, d, e) && AllSay(net, d, f)
    ensures e == f
  {
    hide PayloadValue;
    var n :| (n, d) in net.objects;
    assert PayloadValue(e.representation, net.objects[(n, d)].payload) == Ok(e.value);
  }

  // On any network: a handoff goes through exactly when there is a target, the id is stored, and
  // its fragments agree on an entry whose version has a successor. Then exactly the targets hold
  // the id, one version up; otherwise nothing changes.
  lemma HandoffExactly(net: Network, d: DataId, targets: seq<NodeId>, e: Entry)
    requires Tabled(net)
    ensures var h := Handoff(net, d, targets);
      && (h.0 == Err(InvalidInput) <==> targets == [])
      && (h.0 == Err(DataNotFound) <==> targets != [] && !Stored(net, d))
      && (h.0.Err? ==> h.1 == net)
      && (h.0.Ok? ==> exists x :: AllSay(net, d, x) && x.version + 1 < U64)
      && (targets != [] && Stored(net, d) && AllSay(net, d, e) ==>
          if e.version + 1 < U64 then
            && h.0 == Ok(e.version + 1) && At(h.1, d, targets, e.(version := e.version + 1))
            && OthersKept(net, h.1, d)
          else h.0 == Err(Overflow))
  {
    hide PayloadValue, Payload, Holds, At, OthersKept, RemoveOthers, PutAll, Reshared, Decode;
    hide Locations, Stored, Carries, Alike, AllSay;
    var f := Fragments(net, d);
    NoFragments(net, d);
    if targets != [] && f != [] {
      DecodeErrors(f[0].representation, PayloadsIn(f));
      if Alike(f) && Decode(f[0].representation, PayloadsIn(f)).Ok? {
        var x := Entry(f[0].representation, f[0].version, Decode(f[0].representation, PayloadsIn(f)).value);
        DecodedCarries(f);
        CarriedSay(net, d, x);
        if AllSay(net, d, e) { SayOnce(net, d, e, x); }
        if x.version + 1 < U64 {
          var next := x.(version := x.version + 1);
          CarriedBounded(f, x);
          ResharedCarries(x.representation, x.value, |targets|, next);
          MovedEffect(net, d, targets, Objects(x.representation, x.version + 1,
              Reshared(x.representation, x.value, |targets|)), next);
        }
      } else if AllSay(net, d, e) {
        FragmentsAgree(net, d, e);
        FragmentsDecode(f, e, 0);
      }
    }
  }

  lemma CarriedBounded(f: seq<StoredObject>, e: Entry)
    requires f != [] && Carries(f, e)
    ensures e.value < U128
  {
    hide PayloadValue;
    ValueBounded(e.representation, f[0].payload);
  }

  lemma PayloadError(r: Representation, b: seq<Byte>)
    ensures PayloadValue(r, b).Err? ==> PayloadValue(r, b).error == InvalidEncoding
  {
    hide Prefix, FromBigEndian;
  }

  lemma {:induction false} DecodeFromErrors(r: Representation, payloads: seq<seq<Byte>>, value: nat, k: nat)
    requires k <= |payloads|
    ensures var v := DecodeFrom(r, payloads, value, k);
      v.Err? ==> v.error == InvalidEncoding || v.error == InconsistentFragments
    decreases |payloads| - k
  {
    hide PayloadValue;
    if k < |payloads| {
      PayloadError(r, payloads[k]);
      DecodeFromErrors(r, payloads, value, k + 1);
    }
  }

  lemma DecodeErrors(r: Representation, payloads: seq<seq<Byte>>)
    requires payloads != []
    ensures var v := Decode(r, payloads); v.Err? ==> v.error == InvalidEncoding || v.error == InconsistentFragments
  {
    hide PayloadValue;
    PayloadError(r, payloads[0]);
    if PayloadValue(r, payloads[0]).Ok? { DecodeFromErrors(r, payloads, PayloadValue(r, payloads[0]).value, 1); }
  }

  lemma {:induction false} GatheredAt(net: Network, d: DataId, nodes: seq<NodeId>, e: Entry, k: nat)
    requires At(net, d, nodes, e) && k <= |nodes|
    ensures var g := Gathered(net, d, nodes, k);
      && g.Ok? && |g.value.1| == k && (k > 0 ==> g.value.0 == Some(e.representation)) && (k == 0 ==> g.value.0 == None)
      && forall i :: 0 <= i < k ==> PayloadValue(e.representation, g.value.1[i]) == Ok(e.value)
  {
    hide PayloadValue, Locations;
    if k > 0 {
      GatheredAt(net, d, nodes, e, k - 1);
      assert nodes[k - 1] in nodes;
      assert (nodes[k - 1], d) in net.objects;
    }
  }

  lemma ReadAt(net: Network, d: DataId, nodes: seq<NodeId>, e: Entry)
    requires At(net, d, nodes, e) && nodes != []
    ensures var p := PayloadsAt(net, d, nodes);
        p.Ok? && p.value.0 == e.representation && Decode(p.value.0, p.value.1) == Ok(e.value)
  {
    hide PayloadValue, Decode, At;
    GatheredAt(net, d, nodes, e, |nodes|);
    DecodeAgreed(e.representation, PayloadsAt(net, d, nodes).value.1, e.value);
  }

  lemma StoredAt(net: Network, d: DataId, nodes: seq<NodeId>, e: Entry)
    requires At(net, d, nodes, e) && nodes != []
    ensures Stored(net, d)
  {
    hide Locations, Holds;
    assert nodes[0] in nodes;
    assert (nodes[0], d) in net.objects;
  }

  lemma StoredKept(a: Network, b: Network, d: DataId, x: DataId)
    requires OthersKept(a, b, d) && x != d
    ensures Stored(b, x) <==> Stored(a, x)
  {
    if Stored(a, x) {
      var n :| (n, x) in a.objects;
      assert (n, x) in b.objects;
    }
    if Stored(b, x) {
      var n :| (n, x) in b.objects;
      assert (n, x) in a.objects;
    }
  }

  // A stored id has one entry.
  lemma HoldsUnique(net: Network, d: DataId, e: Entry, f: Entry)
    requires Stored(net, d) && Holds(net, d, e) && Holds(net, d, f)
    ensures e == f
  {
    hide PayloadValue;
    var n :| (n, d) in net.objects;
    assert net.objects[(n, d)].version == e.version;
  }

  lemma AtHolds(net: Network, d: DataId, nodes: seq<NodeId>, e: Entry)
    requires At(net, d, nodes, e)
    ensures Holds(net, d, e)
  {
  }

  // Handing other ids on leaves an id where it is.
  lemma AtKept(a: Network, b: Network, d: DataId, x: DataId, nodes: seq<NodeId>, e: Entry)
    requires Tabled(b) && At(a, x, nodes, e) && OthersKept(a, b, d) && x != d
    ensures At(b, x, nodes, e)
  {
    hide Locations, Holds;
    OtherHolds(a, b, d, x, e);
    forall n ensures (n, x) in b.objects <==> n in nodes {
    }
    LocationsAre(b, x, nodes);
  }

  lemma ConsistentTables(net: Network)
    requires Consistent(net)
    ensures Tabled(net)
  {
  }

  lemma EntryOf(net: Network, d: DataId) returns (e: Entry)
    requires Consistent(net)
    ensures Holds(net, d, e)
  {
    hide Holds;
    assert Agreed(net, d);
    e :| Holds(net, d, e);
  }

  lemma EmptyConsistent()
    ensures Consistent(Network([], map[]))
  {
    hide PayloadValue;
    forall d ensures Agreed(Network([], map[]), d) {
      assert Holds(Network([], map[]), d, Entry(SecretSharing, 1, 0));
    }
  }

  // ---- uploads ----

  // The encoding of a value, uploaded as shares or as one ciphertext.
  function UploadValue(net: Network, d: DataId, version: nat, r: Representation, value: nat, nodes: seq<NodeId>)
    : (u: (Result<(), WorkflowError>, Network))
  {
    match r
    case SecretSharing => UploadShares(net, d, version, nodes, Reshared(r, value, |nodes|))
    case Homomorphic => UploadCiphertext(net, d, version, Payload(r, value, 0), nodes)
  }

  // Fragments of d that were there stay as they are; the others are at listed nodes and among the
  // uploaded ones.
  ghost predicate Added(a: Network, b: Network, d: DataId, nodes: seq<NodeId>, objects: seq<StoredObject>) {
    && (forall n {:trigger (n, d) in a.objects} ::
         (n, d) in a.objects ==> (n, d) in b.objects && b.objects[(n, d)] == a.objects[(n, d)])
    && (forall n {:trigger (n, d) in b.objects} ::
         (n, d) in b.objects && (n, d) !in a.objects ==> n in nodes && b.objects[(n, d)] in objects)
  }

  // What an upload leaves behind, however far it gets.
  lemma {:induction false} UploadStores(net: Network, d: DataId, nodes: seq<NodeId>, objects: seq<StoredObject>, k: nat)
    requires Tabled(net) && k <= |nodes| == |objects|
    ensures var t := UploadFrom(net, d, nodes, objects, k).1;
      && Tabled(t) && OthersKept(net, t, d) && Added(net, t, d, nodes, objects)
      && (k < |nodes| ==> (nodes[k], d) in t.objects)
    decreases |nodes| - k
  {
    hide AddNode, Tabled;
    if k < |nodes| {
      if (nodes[k], d) in net.objects {
        TableAdded(net, nodes[k]);
      } else {
        PutTabled(net, nodes[k], d, objects[k]);
        var next := Put(net, nodes[k], d, objects[k]);
        UploadStores(next, d, nodes, objects, k + 1);
        assert nodes[k] in nodes && objects[k] in objects && next.objects[(nodes[k], d)] == objects[k];
        AddedThrough(net, next, UploadFrom(next, d, nodes, objects, k + 1).1, d, nodes, objects);
      }
    }
  }

  lemma AddedThrough(a: Network, b: Network, c: Network, d: DataId, nodes: seq<NodeId>, objects: seq<StoredObject>)
    requires Added(a, b, d, nodes, objects) && OthersKept(a, b, d) && Added(b, c, d, nodes, objects)
        && OthersKept(b, c, d)
    ensures Added(a, c, d, nodes, objects) && OthersKept(a, c, d)
  {
    forall n | (n, d) in c.objects && (n, d) !in a.objects ensures n in nodes && c.objects[(n, d)] in objects {
      assert (n, d) in b.objects ==> c.objects[(n, d)] == b.objects[(n, d)];
    }
    forall n: NodeId, x: DataId | x != d
      ensures (n, x) in c.objects <==> (n, x) in a.objects
      ensures (n, x) in a.objects ==> c.objects[(n, x)] == a.objects[(n, x)]
    {
      assert (n, x) in c.objects <==> (n, x) in b.objects;
    }
  }

  lemma TableAdded(net: Network, n: NodeId)
    requires Tabled(net)
    ensures Tabled(net.(nodes := AddNode(net.nodes, n)))
  {
    AddKeeps(net.nodes, n);
  }

  // An upload goes through exactly when no node is listed twice and none holds the id.
  lemma {:induction false} UploadSucceeds(net: Network, d: DataId, nodes: seq<NodeId>, objects: seq<StoredObject>,
      k: nat)
    requires k <= |nodes| == |objects|
    ensures var u := UploadFrom(net, d, nodes, objects, k);
      && (u.0.Ok? <==> Distinct(nodes[k..]) && forall n :: n in nodes[k..] ==> (n, d) !in net.objects)
      && (u.0.Ok? ==> forall n :: (n, d) in u.1.objects <==> (n, d) in net.objects || n in nodes[k..])
    decreases |nodes| - k
  {
    hide AddNode;
    if k < |nodes| {
      var n, rest := nodes[k], nodes[k + 1..];
      assert nodes[k..] == [n] + rest;
      DistinctCons(n, rest);
      if (n, d) !in net.objects {
        UploadSucceeds(Put(net, n, d, objects[k]), d, nodes, objects, k + 1);
      }
    }
  }

  lemma DistinctCons(n: NodeId, rest: seq<NodeId>)
    ensures Distinct([n] + rest) <==> n !in rest && Distinct(rest)
  {
    var s := [n] + rest;
    assert forall i :: 0 <= i < |rest| ==> s[i + 1] == rest[i];
    if n !in rest && Distinct(rest) {
      forall i, j | 0 <= i < j < |s| ensures s[i] != s[j] {
        assert s[j] == rest[j - 1];
        if i > 0 { assert s[i] == rest[i - 1]; }
      }
    }
    if Distinct(s) {
      forall j | 0 <= j < |rest| ensures rest[j] != n {
        assert s[0] != s[j + 1];
      }
      forall i, j | 0 <= i < j < |rest| ensures rest[i] != rest[j] {
        assert s[i + 1] != s[j + 1];
      }
    }
  }

  // An upload is whole or without effect on the objects exactly when it is refused at once, meets
  // the id at its first node, or goes through.
  ghost predicate WholeUpload(net: Network, d: DataId, nodes: seq<NodeId>)
    requires nodes != []
  {
    (nodes[0], d) in net.objects || (Distinct(nodes) && forall n :: n in nodes ==> (n, d) !in net.objects)
  }

  lemma StartedWhole(net: Network, d: DataId, nodes: seq<NodeId>, objects: seq<StoredObject>)
    requires Tabled(net) && 0 < |nodes| == |objects|
    ensures var u := UploadFrom(net, d, nodes, objects, 0);
      u.0.Ok? || u.1.objects == net.objects <==> WholeUpload(net, d, nodes)
  {
    hide AddNode, Tabled;
    UploadSucceeds(net, d, nodes, objects, 0);
    UploadStores(net, d, nodes, objects, 0);
    assert nodes[0..] == nodes;
  }

  // For both kinds of upload, over every node list and every payload.
  lemma UploadWhole(net: Network, d: DataId, version: nat, nodes: seq<NodeId>, payloads: seq<seq<Byte>>,
      ciphertext: seq<Byte>)
    requires Tabled(net) && |payloads| == |nodes|
    ensures var u := UploadShares(net, d, version, nodes, payloads);
      u.0.Ok? || u.1.objects == net.objects <==> nodes == [] || version == 0 || WholeUpload(net, d, nodes)
    ensures var u := UploadCiphertext(net, d, version, ciphertext, nodes);
      u.0.Ok? || u.1.objects == net.objects
      <==> nodes == [] || version == 0 || ciphertext == [] || WholeUpload(net, d, nodes)
  {
    hide UploadFrom, WholeUpload, Tabled;
    if nodes != [] {
      StartedWhole(net, d, nodes, Objects(SecretSharing, version, payloads));
      StartedWhole(net, d, nodes, Objects(Homomorphic, version, Copies(ciphertext, |nodes|)));
    }
  }

  // When an upload of this value cannot leave fragments that disagree.
  ghost predicate Uploadable(net: Network, d: DataId, version: nat, r: Representation, value: nat, nodes: seq<NodeId>) {
    || nodes == [] || version == 0 || !Stored(net, d) || (nodes[0], d) in net.objects
    || Holds(net, d, Entry(r, version, value))
  }

  // The objects of an upload of a value.
  function ValueObjects(r: Representation, version: nat, value: nat, count: nat): (o: seq<StoredObject>)
    ensures |o| == count
  {
    Objects(r, version, if r == SecretSharing then Reshared(r, value, count) else Copies(Payload(r, value, 0), count))
  }

  lemma ValueCarries(r: Representation, version: nat, value: nat, count: nat)
    requires value < U128
    ensures Carries(ValueObjects(r, version, value, count), Entry(r, version, value))
  {
    hide PayloadValue, Payload;
    forall i: nat ensures PayloadValue(r, Payload(r, value, i)) == Ok(value) {
      PayloadRead(r, value, i);
    }
  }

  lemma UploadUnfold(net: Network, d: DataId, version: nat, r: Representation, value: nat, nodes: seq<NodeId>)
    ensures UploadValue(net, d, version, r, value, nodes)
            == if nodes == [] || version == 0 then (Err(InvalidInput), net)
               else UploadFrom(net, d, nodes, ValueObjects(r, version, value, |nodes|), 0)
  {
    hide UploadFrom, Prefix;
    assert |Payload(r, value, 0)| >= 16;
  }

  // What an upload of a value leaves behind when the id is free or already says the same.
  lemma UploadHolds(net: Network, d: DataId, version: nat, r: Representation, value: nat, nodes: seq<NodeId>)
    requires Tabled(net) && 1 <= version < U64 && value < U128
    requires !Stored(net, d) || Holds(net, d, Entry(r, version, value))
    ensures var t := UploadValue(net, d, version, r, value, nodes).1;
      Tabled(t) && OthersKept(net, t, d) && Holds(t, d, Entry(r, version, value))
  {
    hide PayloadValue, Payload, UploadFrom, UploadValue, Tabled, OthersKept, ValueObjects;
    UploadUnfold(net, d, version, r, value, nodes);
    var e, objects := Entry(r, version, value), ValueObjects(r, version, value, |nodes|);
    ValueCarries(r, version, value, |nodes|);
    OthersSame(net, d);
    if nodes != [] {
      UploadStores(net, d, nodes, objects, 0);
      var t := UploadFrom(net, d, nodes, objects, 0).1;
      forall n | (n, d) in t.objects
        ensures t.objects[(n, d)].representation == r && t.objects[(n, d)].version == version
        ensures PayloadValue(r, t.objects[(n, d)].payload) == Ok(value)
      {
        if (n, d) !in net.objects {
          var i :| 0 <= i < |objects| && objects[i] == t.objects[(n, d)];
        }
      }
    }
  }

  lemma OthersSame(net: Network, d: DataId)
    ensures OthersKept(net, net, d)
  {
  }

  // Exactly the uploadable values keep all fragments in agreement, for every list of nodes, however
  // the upload ends.
  lemma UploadConsistent(net: Network, d: DataId, version: nat, r: Representation, value: nat, nodes: seq<NodeId>)
    requires Consistent(net) && version < U64 && value < U128
    ensures Consistent(UploadValue(net, d, version, r, value, nodes).1)
        <==> Uploadable(net, d, version, r, value, nodes)
  {
    hide PayloadValue, Payload, UploadFrom, UploadValue, Tabled, OthersKept, Holds, Stored, ValueObjects;
    var t, e := UploadValue(net, d, version, r, value, nodes).1, Entry(r, version, value);
    UploadUnfold(net, d, version, r, value, nodes);
    if nodes == [] || version == 0 {
    } else if (nodes[0], d) in net.objects {
      RefusedAtOnce(net, d, nodes, ValueObjects(r, version, value, |nodes|));
    } else if !Stored(net, d) || Holds(net, d, e) {
      UploadHolds(net, d, version, r, value, nodes);
      ConsistentAfter(net, t, d, e);
    } else if Consistent(t) {
      UploadClash(net, d, version, r, value, nodes);
    }
  }

  lemma RefusedAtOnce(net: Network, d: DataId, nodes: seq<NodeId>, objects: seq<StoredObject>)
    requires Consistent(net) && 0 < |nodes| == |objects| && (nodes[0], d) in net.objects
    ensures Consistent(UploadFrom(net, d, nodes, objects, 0).1)
  {
    hide Tabled, AddNode, PayloadValue;
    TableAdded(net, nodes[0]);
    var t := UploadFrom(net, d, nodes, objects, 0).1;
    forall x ensures Agreed(t, x) {
      var e := EntryOf(net, x);
      assert Holds(t, x, e);
    }
  }

  // A first node without the id gets a fragment that a different entry elsewhere contradicts.
  lemma UploadClash(net: Network, d: DataId, version: nat, r: Representation, value: nat, nodes: seq<NodeId>)
    requires Tabled(net) && version < U64 && value < U128 && nodes != [] && version > 0
    requires Stored(net, d) && (nodes[0], d) !in net.objects
    requires Agreed(UploadValue(net, d, version, r, value, nodes).1, d)
    ensures Holds(net, d, Entry(r, version, value))
  {
    hide PayloadValue, Payload, UploadFrom, UploadValue, Tabled, OthersKept, ValueObjects;
    var objects := ValueObjects(r, version, value, |nodes|);
    var t := UploadValue(net, d, version, r, value, nodes).1;
    UploadUnfold(net, d, version, r, value, nodes);
    ValueCarries(r, version, value, |nodes|);
    UploadStores(net, d, nodes, objects, 0);
    var f :| Holds(t, d, f);
    var i :| 0 <= i < |objects| && objects[i] == t.objects[(nodes[0], d)];
    assert f == Entry(r, version, value);
    forall n | (n, d) in net.objects
      ensures net.objects[(n, d)].representation == r && net.objects[(n, d)].version == version
      ensures PayloadValue(r, net.objects[(n, d)].payload) == Ok(value)
    {
      assert (n, d) in t.objects && t.objects[(n, d)] == net.objects[(n, d)];
    }
  }

  // Two instances. When a later node holds the id with another value, the earlier nodes keep the new
  // fragments and the id is inconsistent. A repeated node stops the upload of a fresh id part-way.
  lemma PartialUploadExample()
    ensures var first := StoredObject(SecretSharing, 1, Payload(SecretSharing, 7, 0));
      var u := UploadValue(Network([2], map[(2, 9) := first]), 9, 1, SecretSharing, 8, [1, 2]);
      u.0 == Err(DataAlreadyExists) && !Consistent(u.1)
    ensures var u := UploadValue(Network([], map[]), 9, 1, SecretSharing, 8, [1, 1]);
      u.0 == Err(DataAlreadyExists) && (1, 9) in u.1.objects && Consistent(u.1)
  {
    hide PayloadValue, Payload, UploadFrom, ValueObjects;
    var first := StoredObject(SecretSharing, 1, Payload(SecretSharing, 7, 0));
    var net, objects := Network([2], map[(2, 9) := first]), ValueObjects(SecretSharing, 1, 8, 2);
    PayloadRead(SecretSharing, 7, 0);
    UploadUnfold(net, 9, 1, SecretSharing, 8, [1, 2]);
    PartWay(net, 9, 1, 2, objects);
    SingleConsistent(2, 9, first, 7);
    UploadConsistent(net, 9, 1, SecretSharing, 8, [1, 2]);
    assert (2, 9) in net.objects;
    UploadUnfold(Network([], map[]), 9, 1, SecretSharing, 8, [1, 1]);
    PartWay(Network([], map[]), 9, 1, 1, objects);
    EmptyConsistent();
    UploadConsistent(Network([], map[]), 9, 1, SecretSharing, 8, [1, 1]);
  }

  lemma PartWay(net: Network, d: DataId, m: NodeId, n: NodeId, objects: seq<StoredObject>)
    requires Tabled(net) && |objects| == 2 && (m, d) !in net.objects && ((n, d) in net.objects || m == n)
    ensures var u := UploadFrom(net, d, [m, n], objects, 0); u.0 == Err(DataAlreadyExists) && (m, d) in u.1.objects
  {
    hide AddNode, Tabled;
    UploadStores(net, d, [m, n], objects, 0);
    var half := Put(net, m, d, objects[0]);
    assert UploadFrom(half, d, [m, n], objects, 1).0 == Err(DataAlreadyExists);
  }

  lemma SingleConsistent(n: NodeId, d: DataId, o: StoredObject, value: nat)
    requires 1 <= o.version < U64 && value < U128 && PayloadValue(o.representation, o.payload) == Ok(value)
    ensures var net := Network([n], map[(n, d) := o]);
      Consistent(net) && Holds(net, d, Entry(o.representation, o.version, value))
  {
    hide PayloadValue;
    var net := Network([n], map[(n, d) := o]);
    assert Holds(net, d, Entry(o.representation, o.version, value));
    forall x ensures Agreed(net, x) {
      if x != d { assert Holds(net, x, Entry(SecretSharing, 1, 0)); }
    }
  }
}
