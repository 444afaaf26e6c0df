/** Event handling over the storage network: consistency of fragments over every history, handoffs
    that keep values, and computed outputs. */
module WorkflowRuns {
  import opened Wrappers
  import opened Workflow
  import opened StorageNetwork
  import opened StorageLaws

  datatype Event =
    | DataPublished(data: DataId, representation: Representation, storageNodes: seq<NodeId>, version: nat)
    | ComputeRequested(execution: nat, inputs: seq<DataId>, eligible: seq<NodeId>, size: nat, seed: nat,
        output: Representation)

  datatype HandoffUpdate = HandoffUpdate(execution: nat, data: DataId, oldNodes: seq<NodeId>, newNodes: seq<NodeId>,
      newVersion: nat)

  datatype ComputationUpdate = ComputationUpdate(execution: nat, output: DataId, nodes: seq<NodeId>,
      representation: Representation)

  // The network and what was recorded on the chain.
  datatype Sys = Sys(net: Network, handoffs: seq<HandoffUpdate>, computations: seq<ComputationUpdate>)

  // The digests: how nodes rank for a seed, and the id of an output.
  datatype Digests = Digests(rank: Ranking, outputId: (nat, nat, Representation) -> DataId)

  type Outcome<T> = (Result<T, WorkflowError>, Sys)

  // One input: handed to the committee, recorded, then read back and decoded.
  function HandleInput(s: Sys, execution: nat, committee: seq<NodeId>, d: DataId): (r: Outcome<nat>) {
    var oldNodes := Locations(s.net, d);
    var h := Handoff(s.net, d, committee);
    match h.0
    case Err(e) => (Err(e), s.(net := h.1))
    case Ok(version) =>
      var t := Sys(h.1, s.handoffs + [HandoffUpdate(execution, d, oldNodes, committee, version)], s.computations);
      match PayloadsAt(t.net, d, committee)
      case Err(e) => (Err(e), t)
      case Ok(p) => (Decode(p.0, p.1), t)
  }

  // The first k inputs; what was done before a failure stays done.
  function HandleInputs(s: Sys, execution: nat, committee: seq<NodeId>, inputs: seq<DataId>,
      k: nat): (r: Outcome<seq<nat>>)
    requires k <= |inputs|
  {
    if k == 0 then (Ok([]), s)
    else
      var before := HandleInputs(s, execution, committee, inputs, k - 1);
      match before.0
      case Err(e) => before
      case Ok(values) =>
        var r := HandleInput(before.1, execution, committee, inputs[k - 1]);
        match r.0
        case Err(e) => (Err(e), r.1)
        case Ok(v) => (Ok(values + [v]), r.1)
  }

  function CheckedSum(values: seq<nat>): (r: Result<nat, WorkflowError>)
    ensures r.Err? ==> r.error == Overflow
  {
    if values == [] then Ok(0)
    else
      var init :- CheckedSum(values[..|values| - 1]);
      if init + values[|values| - 1] < U128 then Ok(init + values[|values| - 1]) else Err(Overflow)
  }

  function StoreOutput(g: Digests, s: Sys, execution: nat, committee: seq<NodeId>, value: nat, r: Representation)
    : (o: Outcome<bool>)
  {
    var id := g.outputId(execution, value, r);
    var u := UploadValue(s.net, id, 1, r, value, committee);
    match u.0
    case Err(e) => (Err(e), s.(net := u.1))
    case Ok(_) => (Ok(true), Sys(u.1, s.handoffs, s.computations + [ComputationUpdate(execution, id, committee, r)]))
  }

  function Compute(g: Digests, s: Sys, e: Event): (r: Outcome<bool>)
    requires e.ComputeRequested?
  {
    if e.inputs == [] then (Err(InvalidInput), s)
    else
      match Select(g.rank, e.seed, e.eligible, e.size)
      case Err(x) => (Err(x), s)
      case Ok(committee) =>
        var handled := HandleInputs(s, e.execution, committee, e.inputs, |e.inputs|);
        match handled.0
        case Err(x) => (Err(x), handled.1)
        case Ok(values) =>
          match CheckedSum(values)
          case Err(x) => (Err(x), handled.1)
          case Ok(total) => StoreOutput(g, handled.1, e.execution, committee, total, e.output)
  }

  function CheckPublished(s: Sys, e: Event): (r: Result<bool, WorkflowError>)
    requires e.DataPublished?
  {
    if Locations(s.net, e.data) != e.storageNodes || e.version == 0 then Err(LocationMismatch)
    else
      var p :- PayloadsAt(s.net, e.data, e.storageNodes);
      if p.0 != e.representation then Err(LocationMismatch) else Ok(true)
  }

  function HandleEvent(g: Digests, s: Sys, e: Event): (r: Outcome<bool>) {
    match e
    case DataPublished(_, _, _, _) => (CheckPublished(s, e), s)
    case ComputeRequested(_, _, _, _, _, _) => Compute(g, s, e)
  }

  method SumLoop(values: seq<nat>) returns (r: Result<nat, WorkflowError>)
    ensures r == CheckedSum(values)
  {
    var total := 0;
    for k := 0 to |values|
      invariant CheckedSum(values[..k]) == Ok(total)
    {
      assert values[..k + 1][..k] == values[..k];
      if total + values[k] >= U128 {
        SumStops(values, k + 1);
        return Err(Overflow);
      }
      total := total + values[k];
    }
    assert values[..|values|] == values;
    return Ok(total);
  }

  // The loop: events are taken from the front of the queue, a failing one stops the poll.
  class WorkflowRuntime {
    const digests: Digests
    const storage: InMemoryStorageNetwork
    var events: seq<Event>
    var handoffs: seq<HandoffUpdate>
    var computations: seq<ComputationUpdate>

    function Contents(): (s: Sys)
      reads this, storage
    {
      Sys(storage.Contents(), handoffs, computations)
    }

    constructor (digests: Digests, storage: InMemoryStorageNetwork)
      ensures this.digests == digests && this.storage == storage
      ensures events == [] && Contents() == Sys(storage.Contents(), [], [])
    {
      this.digests, this.storage, events, handoffs, computations := digests, storage, [], [], [];
    }

    method PushEvent(e: Event)
      modifies this`events
      ensures events == old(events) + [e]
    {
      events := events + [e];
    }

    // One input: hand it off, record the handoff, read the fragments back and decode them.
    method CollectInput(execution: nat, committee: seq<NodeId>, d: DataId) returns (r: Result<nat, WorkflowError>)
      requires storage.Valid()
      modifies storage, this`handoffs
      ensures storage.Valid() && (r, Contents()) == HandleInput(old(Contents()), execution, committee, d)
    {
      hide Handoff, PayloadsAt, Decode;
      var oldNodes := Locations(storage.Contents(), d);
      var version := storage.HandoffData(d, committee);
      if version.Err? { return Err(version.error); }
      handoffs := handoffs + [HandoffUpdate(execution, d, oldNodes, committee, version.value)];
      var payloads := PayloadsAt(storage.Contents(), d, committee);
      if payloads.Err? { return Err(payloads.error); }
      return Decode(payloads.value.0, payloads.value.1);
    }

    // The handoff loop: every input in turn, until one fails.
    method CollectInputs(execution: nat, committee: seq<NodeId>, inputs: seq<DataId>)
      returns (r: Result<seq<nat>, WorkflowError>)
      requires storage.Valid()
      modifies storage, this`handoffs
      ensures storage.Valid() && (r, Contents()) == HandleInputs(old(Contents()), execution, committee, inputs,
          |inputs|)
    {
      hide HandleInput;
      var values := [];
      for k := 0 to |inputs|
        invariant storage.Valid() && HandleInputs(old(Contents()), execution, committee, inputs, k) == (Ok(values),
            Contents())
      {
        var one := CollectInput(execution, committee, inputs[k]);
        if one.Err? {
          InputsStop(old(Contents()), execution, committee, inputs, k + 1, |inputs|);
          return Err(one.error);
        }
        values := values + [one.value];
      }
      return Ok(values);
    }

    method UploadOutput(execution: nat, committee: seq<NodeId>, value: nat, output: Representation)
      returns (r: Result<bool, WorkflowError>)
      requires storage.Valid()
      modifies storage, this`computations
      ensures storage.Valid() && (r, Contents()) == StoreOutput(digests, old(Contents()), execution, committee, value,
          output)
    {
      hide UploadShares, UploadCiphertext, Payload;
      var id := digests.outputId(execution, value, output);
      var stored: Result<(), WorkflowError>;
      match output {
        case SecretSharing =>
          stored := storage.UploadSecretShares(id, 1, committee, Reshared(output, value, |committee|));
        case Homomorphic =>
          stored := storage.UploadFheCiphertext(id, 1, Payload(output, value, 0), committee);
      }
      if stored.Err? { return Err(stored.error); }
      computations := computations + [ComputationUpdate(execution, id, committee, output)];
      return Ok(true);
    }

    method ComputeEvent(e: Event) returns (r: Result<bool, WorkflowError>)
      requires e.ComputeRequested? && storage.Valid()
      modifies storage, this`handoffs, this`computations
      ensures storage.Valid() && (r, Contents()) == Compute(digests, old(Contents()), e)
    {
      hide HandleInputs, Select, StoreOutput, CheckedSum;
      if e.inputs == [] { return Err(InvalidInput); }
      var chosen := Select(digests.rank, e.seed, e.eligible, e.size);
      if chosen.Err? { return Err(chosen.error); }
      var values := CollectInputs(e.execution, chosen.value, e.inputs);
      if values.Err? { return Err(values.error); }
      var total := SumLoop(values.value);
      if total.Err? { return Err(total.error); }
      r := UploadOutput(e.execution, chosen.value, total.value, e.output);
    }

    // False when there was no event.
    method PollOnce() returns (r: Result<bool, WorkflowError>)
      requires storage.Valid()
      modifies this, storage
      ensures storage.Valid()
      ensures old(events) == [] ==> r == Ok(false) && events == [] && Contents() == old(Contents())
      ensures old(events) != []
          ==> events == old(events)[1..] && (r, Contents()) == HandleEvent(digests, old(Contents()), old(events)[0])
    {
      hide Compute, CheckPublished;
      if events == [] { return Ok(false); }
      var e := events[0];
      events := events[1..];
      match e
      case DataPublished(_, _, _, _) => return CheckPublished(Contents(), e);
      case ComputeRequested(_, _, _, _, _, _) => r := ComputeEvent(e);
    }
  }

  lemma {:induction false} InputsStop(s: Sys, execution: nat, committee: seq<NodeId>, inputs: seq<DataId>, k: nat,
      m: nat)
    requires k <= m <= |inputs| && HandleInputs(s, execution, committee, inputs, k).0.Err?
    ensures HandleInputs(s, execution, committee, inputs, m) == HandleInputs(s, execution, committee, inputs, k)
    decreases m
  {
    hide HandleInput;
    if k < m { InputsStop(s, execution, committee, inputs, k, m - 1); }
  }

  lemma {:induction false} SumStops(values: seq<nat>, k: nat)
    requires k <= |values| && CheckedSum(values[..k]).Err?
    ensures CheckedSum(values) == Err(Overflow)
    decreases |values|
  {
    if k < |values| {
      assert values[..|values| - 1][..k] == values[..k];
      SumStops(values[..|values| - 1], k);
    } else {
      assert values[..k] == values;
    }
  }

  // One input of a computation.
  lemma InputEffect(s: Sys, execution: nat, committee: seq<NodeId>, d: DataId, e: Entry)
    requires Consistent(s.net) && Holds(s.net, d, e) && committee != []
    ensures var r := HandleInput(s, execution, committee, d);
      if !Stored(s.net, d) then r == (Err(DataNotFound), s)
      else if e.version + 1 >= U64 then r == (Err(Overflow), s)
      else
        && r.0 == Ok(e.value) && Consistent(r.1.net) && OthersKept(s.net, r.1.net, d)
        && At(r.1.net, d, committee, e.(version := e.version + 1))
        && r.1.handoffs == s.handoffs + [HandoffUpdate(execution, d, Locations(s.net, d), committee, e.version + 1)]
        && r.1.computations == s.computations
  {
    hide Handoff, PayloadsAt, Decode, Holds, At, Consistent, OthersKept, Stored, Locations;
    HandoffEffect(s.net, d, committee, e);
    if Stored(s.net, d) && e.version + 1 < U64 {
      ReadAt(Handoff(s.net, d, committee).1, d, committee, e.(version := e.version + 1));
    }
  }

  // ---- whole computations ----

  function Occurrences(inputs: seq<DataId>, d: DataId): (n: nat) {
    if inputs == [] then 0 else Occurrences(inputs[..|inputs| - 1], d) + if inputs[|inputs| - 1] == d then 1 else 0
  }

  // b follows a: the same ids are stored, each with its value, and with its version raised once
  // for every handoff of it; the ids handed off are at the committee, the others where they were.
  ghost predicate HandedOff(a: Network, b: Network, committee: seq<NodeId>, done: seq<DataId>) {
    && (forall d :: Stored(b, d) <==> Stored(a, d))
    && (forall n: NodeId, d: DataId {:trigger (n, d) in b.objects} ::
         (n, d) in b.objects <==> if d in done then n in committee else (n, d) in a.objects)
    && forall d, e :: Holds(a, d, e) && Stored(a, d) ==> Holds(b, d, e.(version := e.version + Occurrences(done, d)))
  }

  lemma HandedSame(a: Network, committee: seq<NodeId>)
    ensures HandedOff(a, a, committee, [])
  {
    hide Holds, Stored;
    forall e: Entry ensures e.(version := e.version + 0) == e {
    }
  }

  lemma HandedMore(a: Network, b: Network, c: Network, done: seq<DataId>, d: DataId, committee: seq<NodeId>, e: Entry)
    requires HandedOff(a, b, committee, done) && Stored(b, d) && Holds(b, d, e) && committee != []
    requires At(c, d, committee, e.(version := e.version + 1)) && OthersKept(b, c, d)
    ensures HandedOff(a, c, committee, done + [d])
  {
    hide Holds, Stored, OthersKept, At;
    StoredAt(c, d, committee, e.(version := e.version + 1));
    PlacedNow(b, c, d, committee, e.(version := e.version + 1));
    forall x ensures Stored(c, x) <==> Stored(a, x) {
      if x != d { StoredKept(b, c, d, x); }
    }
    assert (done + [d])[..|done|] == done;
    forall x, y | Holds(a, x, y) && Stored(a, x) ensures Holds(c, x,
        y.(version := y.version + Occurrences(done + [d], x))) {
      var z := y.(version := y.version + Occurrences(done, x));
      assert Holds(b, x, z);
      if x == d {
        HoldsUnique(b, d, e, z);
        AtHolds(c, d, committee, e.(version := e.version + 1));
        assert y.(version := y.version + Occurrences(done + [d], x)) == e.(version := e.version + 1);
      } else {
        OtherHolds(b, c, d, x, z);
        assert y.(version := y.version + Occurrences(done + [d], x)) == z;
      }
    }
  }

  lemma PlacedNow(b: Network, c: Network, d: DataId, committee: seq<NodeId>, e: Entry)
    requires At(c, d, committee, e) && OthersKept(b, c, d)
    ensures forall n: NodeId, x: DataId {:trigger (n, x) in c.objects} ::
      (n, x) in c.objects <==> if x == d then n in committee else (n, x) in b.objects
  {
    hide Holds, Locations;
  }

  // The first k inputs succeeded: their values, where they are now, and what was recorded.
  ghost predicate InputsDone(s: Sys, t: Sys, execution: nat, committee: seq<NodeId>, inputs: seq<DataId>, k: nat,
      values: seq<nat>)
    requires k <= |inputs|
  {
    && |values| == k && HandedOff(s.net, t.net, committee, inputs[..k]) && t.computations == s.computations
    && (forall i :: 0 <= i < k ==> InputDone(s, t, committee, inputs[..k], inputs[i], values[i]))
    && AllRecorded(s, t, execution, committee, inputs, k)
  }

  // The recorded handoffs: one per input in order, from the nodes that held it (the committee, when
  // it was handed off before) to the committee, at its version raised by the handoffs of it so far.
  ghost predicate AllRecorded(s: Sys, t: Sys, execution: nat, committee: seq<NodeId>, inputs: seq<DataId>, k: nat)
    requires k <= |inputs|
  {
    && |t.handoffs| == |s.handoffs| + k && s.handoffs <= t.handoffs
    && (forall i ::
        0 <= i < k ==> Recorded(s, t.handoffs[|s.handoffs| + i], execution, committee, inputs[..i], inputs[i]))
  }

  ghost predicate Recorded(s: Sys, u: HandoffUpdate, execution: nat, committee: seq<NodeId>, before: seq<DataId>,
      d: DataId)
  {
    && u.execution == execution && u.data == d && u.newNodes == committee
    && Ascending(u.oldNodes)
    && (forall n :: n in u.oldNodes <==> if d in before then n in committee else (n, d) in s.net.objects)
    && exists e :: Holds(s.net, d, e) && u.newVersion == e.version + Occurrences(before, d) + 1
  }

  // An input was stored with the decoded value; it is now at exactly the committee with that value,
  // its version raised once for every handoff.
  ghost predicate InputDone(s: Sys, t: Sys, committee: seq<NodeId>, done: seq<DataId>, d: DataId, value: nat) {
    && Stored(s.net, d)
    && exists e :: Holds(s.net, d, e) && e.value == value
         && At(t.net, d, committee, e.(version := e.version + Occurrences(done, d)))
  }

  lemma InputsNext(s: Sys, t: Sys, u: Sys, execution: nat, committee: seq<NodeId>, inputs: seq<DataId>, k: nat,
      values: seq<nat>, e: Entry)
    requires k < |inputs| && committee != [] && Consistent(s.net) && Tabled(t.net) && Tabled(u.net)
    requires InputsDone(s, t, execution, committee, inputs, k, values)
    requires var d := inputs[k];
      && Stored(t.net, d) && Holds(t.net, d, e) && OthersKept(t.net, u.net, d)
      && At(u.net, d, committee, e.(version := e.version + 1))
      && u.handoffs == t.handoffs + [HandoffUpdate(execution, d, Locations(t.net, d), committee, e.version + 1)]
      && u.computations == t.computations
    ensures InputsDone(s, u, execution, committee, inputs, k + 1, values + [e.value])
    ensures HandedOff(s.net, u.net, committee, inputs[..k + 1]) && u.computations == s.computations
    ensures AllRecorded(s, u, execution, committee, inputs, k + 1)
  {
    hide Holds, Stored, OthersKept, At, Consistent, HandedOff, Locations, InputDone, AllRecorded;
    var d, done := inputs[k], inputs[..k];
    HandedMore(s.net, t.net, u.net, done, d, committee, e);
    assert inputs[..k + 1] == done + [d];
    var f := FirstEntry(s, t, committee, done, d, e);
    NowDone(s, t, u, committee, done, d, e, f);
    forall i | 0 <= i <= k ensures InputDone(s, u, committee, done + [d], inputs[i], (values + [e.value])[i]) {
      if inputs[i] == d {
        if i < k { SameInput(s, t, committee, done, d, values[i], e); }
      } else {
        InputStays(s, t, u, committee, done, inputs[i], values[i], d);
      }
    }
    RecordNext(s, t, u, execution, committee, inputs, k, e.version + 1, f);
  }

  // The locations of an id are the nodes that hold it, in order.
  lemma HoldersListed(net: Network, d: DataId)
    requires Tabled(net)
    ensures Ascending(Locations(net, d)) && forall n :: n in Locations(net, d) <==> (n, d) in net.objects
  {
    FilterAscends(net.nodes, net.objects, d);
    FilteredNodes(net.nodes, net.objects, d);
    forall n | (n, d) in net.objects ensures n in Locations(net, d) {
      assert (n, d).0 in net.nodes;
    }
  }

  lemma RecordNext(s: Sys, t: Sys, u: Sys, execution: nat, committee: seq<NodeId>, inputs: seq<DataId>, k: nat,
      version: nat, f: Entry)
    requires k < |inputs| && AllRecorded(s, t, execution, committee, inputs, k) && Holds(s.net, inputs[k], f)
    requires version == f.version + Occurrences(inputs[..k], inputs[k]) + 1
    requires Tabled(t.net) && HandedOff(s.net, t.net, committee, inputs[..k])
    requires u.handoffs == t.handoffs + [HandoffUpdate(execution, inputs[k], Locations(t.net, inputs[k]), committee,
        version)]
    ensures AllRecorded(s, u, execution, committee, inputs, k + 1)
  {
    hide Holds, Locations, Occurrences, Stored, Tabled;
    HoldersListed(t.net, inputs[k]);
    var start := |s.handoffs|;
    forall i | 0 <= i <= k ensures Recorded(s, u.handoffs[start + i], execution, committee, inputs[..i], inputs[i]) {
      if i < k { assert u.handoffs[start + i] == t.handoffs[start + i]; }
    }
  }

  // The entry seen through earlier handoffs is the first one, at a later version.
  lemma FirstEntry(s: Sys, t: Sys, committee: seq<NodeId>, done: seq<DataId>, d: DataId, e: Entry) returns (f: Entry)
    requires Consistent(s.net) && HandedOff(s.net, t.net, committee, done)
    requires Stored(t.net, d) && Holds(t.net, d, e)
    ensures Stored(s.net, d) && Holds(s.net, d, f) && e == f.(version := f.version + Occurrences(done, d))
  {
    hide Holds, Stored;
    f := EntryOf(s.net, d);
    assert Stored(s.net, d);
    HoldsUnique(t.net, d, e, f.(version := f.version + Occurrences(done, d)));
  }

  lemma NowDone(s: Sys, t: Sys, u: Sys, committee: seq<NodeId>, done: seq<DataId>, d: DataId, e: Entry, f: Entry)
    requires Stored(s.net, d) && Holds(s.net, d, f) && e == f.(version := f.version + Occurrences(done, d))
    requires At(u.net, d, committee, e.(version := e.version + 1))
    ensures InputDone(s, u, committee, done + [d], d, e.value)
  {
    hide Holds, Stored, At, Occurrences;
    OccursNext(done, d);
    assert e.(version := e.version + 1) == f.(version := f.version + Occurrences(done + [d], d));
  }

  lemma OccursNext(done: seq<DataId>, d: DataId)
    ensures Occurrences(done + [d], d) == Occurrences(done, d) + 1
  {
    assert (done + [d])[..|done|] == done;
  }

  lemma SameInput(s: Sys, t: Sys, committee: seq<NodeId>, done: seq<DataId>, d: DataId, value: nat, e: Entry)
    requires InputDone(s, t, committee, done, d, value) && Stored(t.net, d) && Holds(t.net, d, e)
    ensures value == e.value
  {
    hide Holds, Stored, At, Occurrences;
    var f :| Holds(s.net, d, f) && f.value == value
        && At(t.net, d, committee, f.(version := f.version + Occurrences(done, d)));
    AtHolds(t.net, d, committee, f.(version := f.version + Occurrences(done, d)));
    HoldsUnique(t.net, d, e, f.(version := f.version + Occurrences(done, d)));
  }

  lemma InputStays(s: Sys, t: Sys, u: Sys, committee: seq<NodeId>, done: seq<DataId>, x: DataId, value: nat, d: DataId)
    requires InputDone(s, t, committee, done, x, value) && OthersKept(t.net, u.net, d) && x != d && Tabled(u.net)
    ensures InputDone(s, u, committee, done + [d], x, value) && InputDone(s, u, committee, done, x, value)
  {
    hide Holds, Stored, At, OthersKept;
    assert (done + [d])[..|done|] == done;
    var f :| Holds(s.net, x, f) && f.value == value
        && At(t.net, x, committee, f.(version := f.version + Occurrences(done, x)));
    AtKept(t.net, u.net, d, x, committee, f.(version := f.version + Occurrences(done, x)));
  }

  lemma NoInputs(s: Sys, execution: nat, committee: seq<NodeId>, inputs: seq<DataId>)
    ensures InputsDone(s, s, execution, committee, inputs, 0, []) && HandedOff(s.net, s.net, committee, inputs[..0])
    ensures AllRecorded(s, s, execution, committee, inputs, 0)
  {
    hide HandedOff;
    HandedSame(s.net, committee);
    assert inputs[..0] == [];
  }

  // Inputs one after another, including a failure part-way: the network stays consistent, every id
  // keeps its value, and the handoffs made are recorded.
  lemma {:induction false} InputsEffect(s: Sys, execution: nat, committee: seq<NodeId>, inputs: seq<DataId>, k: nat)
    returns (done: nat)
    requires k <= |inputs| && Consistent(s.net) && committee != []
    ensures done <= k
    ensures var r := HandleInputs(s, execution, committee, inputs, k);
      && Consistent(r.1.net) && HandedOff(s.net, r.1.net, committee, inputs[..done])
      && r.1.computations == s.computations
      && AllRecorded(s, r.1, execution, committee, inputs, done)
      && (r.0.Ok? ==> done == k && InputsDone(s, r.1, execution, committee, inputs, k, r.0.value))
  {
    hide HandleInput, Holds, Stored, OthersKept, At, Consistent, HandedOff, Locations, InputsDone, Tabled;
    hide AllRecorded;
    if k == 0 {
      done := 0;
      NoInputs(s, execution, committee, inputs);
    } else {
      done := InputsEffect(s, execution, committee, inputs, k - 1);
      var before := HandleInputs(s, execution, committee, inputs, k - 1);
      if before.0.Ok? {
        var d := inputs[k - 1];
        var e := EntryOf(before.1.net, d);
        InputEffect(before.1, execution, committee, d, e);
        var r := HandleInput(before.1, execution, committee, d);
        if r.0.Ok? {
          done := k;
          ConsistentTables(before.1.net);
          ConsistentTables(r.1.net);
          InputsNext(s, before.1, r.1, execution, committee, inputs, k - 1, before.0.value, e);
        }
      }
    }
  }

  lemma {:induction false} SumIs(values: seq<nat>)
    ensures CheckedSum(values).Ok? ==> CheckedSum(values).value == Sum(values) && Sum(values) < U128
  {
    if values != [] { SumIs(values[..|values| - 1]); }
  }

  function Sum(values: seq<nat>): (t: nat)
  {
    if values == [] then 0 else Sum(values[..|values| - 1]) + values[|values| - 1]
  }

  // What one event does, whatever its outcome.
  ghost predicate EventKept(a: Network, b: Network) {
    && Consistent(b)
    && forall d, e :: Holds(a, d, e) && Stored(a, d) ==> Stored(b, d) && Later(b, d, e)
  }

  // The id holds what it held, at this version or a later one.
  ghost predicate Later(b: Network, d: DataId, e: Entry) { exists v :: v >= e.version && Holds(b, d, e.(version := v)) }

  // A computation that comes to its output can upload it without making fragments disagree.
  ghost predicate OutputAllowed(g: Digests, s: Sys, e: Event)
    requires e.ComputeRequested?
  {
    var chosen := Select(g.rank, e.seed, e.eligible, e.size);
    e.inputs != [] && chosen.Ok? ==>
      var handled := HandleInputs(s, e.execution, chosen.value, e.inputs, |e.inputs|);
      handled.0.Ok? && CheckedSum(handled.0.value).Ok? ==>
        var total := CheckedSum(handled.0.value).value;
        Uploadable(handled.1.net, g.outputId(e.execution, total, e.output), 1, e.output, total, chosen.value)
  }

  // A computation that succeeded: every input is at the selected committee, its handoff recorded
  // and its version raised, and the whole committee holds the sum of the inputs under the output id.
  ghost predicate ComputedSum(g: Digests, s: Sys, t: Sys, e: Event)
    requires e.ComputeRequested?
  {
    var chosen := Select(g.rank, e.seed, e.eligible, e.size);
    && chosen.Ok? && Ascending(chosen.value)
    && AllRecorded(s, t, e.execution, chosen.value, e.inputs, |e.inputs|)
    && exists values: seq<nat> ::
         && |values| == |e.inputs| && Sum(values) < U128
         && (forall i :: 0 <= i < |values| ==> InputDone(s, t, chosen.value, e.inputs, e.inputs[i], values[i]))
         && OutputStored(g, s, t, e, chosen.value, Sum(values))
  }

  ghost predicate OutputStored(g: Digests, s: Sys, t: Sys, e: Event, committee: seq<NodeId>, total: nat)
    requires e.ComputeRequested?
  {
    var id := g.outputId(e.execution, total, e.output);
    && t.computations == s.computations + [ComputationUpdate(e.execution, id, committee, e.output)]
    && Holds(t.net, id, Entry(e.output, 1, total)) && (forall n :: n in committee ==> (n, id) in t.net.objects)
    && (!Stored(s.net, id) ==> At(t.net, id, committee, Entry(e.output, 1, total)))
  }

  lemma HandedKept(a: Network, b: Network, committee: seq<NodeId>, done: seq<DataId>)
    requires Consistent(b) && HandedOff(a, b, committee, done)
    ensures EventKept(a, b)
  {
    hide Holds, Stored, Consistent;
    forall d, e | Holds(a, d, e) && Stored(a, d) ensures Stored(b, d) && Later(b, d, e) {
      assert Holds(b, d, e.(version := e.version + Occurrences(done, d)));
    }
  }

  // A change of one id keeps everything when what the id held, if anything, is still there.
  lemma KeptThrough(a: Network, b: Network, c: Network, d: DataId, e: Entry)
    requires EventKept(a, b) && Consistent(c) && OthersKept(b, c, d)
    requires Stored(b, d) ==> Stored(c, d) && Holds(b, d, e) && Holds(c, d, e)
    ensures EventKept(a, c)
  {
    hide Holds, Stored, Consistent, OthersKept;
    forall x, y | Holds(a, x, y) && Stored(a, x) ensures Stored(c, x) && Later(c, x, y) {
      assert Later(b, x, y);
      var v :| v >= y.version && Holds(b, x, y.(version := v));
      if x == d {
        HoldsUnique(b, d, e, y.(version := v));
      } else {
        StoredKept(b, c, d, x);
        OtherHolds(b, c, d, x, y.(version := v));
      }
    }
  }

  lemma StayKept(a: Network)
    requires Consistent(a)
    ensures EventKept(a, a)
  {
    hide Holds, Stored, Consistent;
    forall d, e | Holds(a, d, e) ensures Later(a, d, e) {
      assert e.(version := e.version) == e;
    }
  }

  // An upload of a value that may be uploaded keeps everything.
  lemma UploadKept(a: Network, b: Network, d: DataId, version: nat, r: Representation, value: nat, nodes: seq<NodeId>)
    requires EventKept(a, b) && version < U64 && value < U128 && Uploadable(b, d, version, r, value, nodes)
    ensures EventKept(a, UploadValue(b, d, version, r, value, nodes).1)
  {
    hide PayloadValue, UploadValue, Holds, Stored, EventKept, Later, OthersKept;
    KeptConsistent(a, b);
    var c := UploadValue(b, d, version, r, value, nodes).1;
    UploadConsistent(b, d, version, r, value, nodes);
    UploadUnfold(b, d, version, r, value, nodes);
    if nodes != [] && version > 0 {
      if (nodes[0], d) in b.objects {
        UploadRefused(a, b, d, version, r, value, nodes);
      } else {
        UploadHolds(b, d, version, r, value, nodes);
        UploadGrows(b, d, version, r, value, nodes);
        KeptThrough(a, b, c, d, Entry(r, version, value));
      }
    }
  }

  lemma KeptConsistent(a: Network, b: Network)
    requires EventKept(a, b)
    ensures Consistent(b) && Tabled(b)
  {
  }

  // An upload its first node refuses leaves every object as it was.
  lemma RefusedSame(b: Network, d: DataId, version: nat, r: Representation, value: nat, nodes: seq<NodeId>)
    requires nodes != [] && (nodes[0], d) in b.objects
    ensures UploadValue(b, d, version, r, value, nodes).1.objects == b.objects
  {
    hide UploadValue, ValueObjects, AddNode;
    UploadUnfold(b, d, version, r, value, nodes);
  }

  lemma SameObjects(b: Network, c: Network, d: DataId, e: Entry)
    requires b.objects == c.objects && Stored(b, d) && Holds(b, d, e)
    ensures Stored(c, d) && Holds(c, d, e)
  {
    hide PayloadValue;
  }

  lemma UploadRefused(a: Network, b: Network, d: DataId, version: nat, r: Representation, value: nat,
      nodes: seq<NodeId>)
    requires EventKept(a, b) && nodes != [] && (nodes[0], d) in b.objects
    requires Consistent(UploadValue(b, d, version, r, value, nodes).1)
    ensures EventKept(a, UploadValue(b, d, version, r, value, nodes).1)
  {
    hide UploadValue, Consistent, Holds, Stored;
    RefusedSame(b, d, version, r, value, nodes);
    var c := UploadValue(b, d, version, r, value, nodes).1;
    forall x, y | Holds(a, x, y) && Stored(a, x) ensures Stored(c, x) && Later(c, x, y) {
      assert Later(b, x, y);
      var v :| v >= y.version && Holds(b, x, y.(version := v));
      SameObjects(b, c, x, y.(version := v));
    }
  }

  lemma UploadGrows(b: Network, d: DataId, version: nat, r: Representation, value: nat, nodes: seq<NodeId>)
    requires Tabled(b) && nodes != [] && version > 0
    ensures Stored(UploadValue(b, d, version, r, value, nodes).1, d)
  {
    hide PayloadValue, UploadValue, UploadFrom, Tabled;
    UploadUnfold(b, d, version, r, value, nodes);
    UploadStores(b, d, nodes, ValueObjects(r, version, value, |nodes|), 0);
  }

  // Every event, even one that fails part-way, keeps all fragments consistent exactly when its
  // output may be uploaded, and then every value stays; a computation that succeeds leaves the sum
  // of its inputs at the selected committee.
  lemma EventEffect(g: Digests, s: Sys, e: Event)
    requires Consistent(s.net)
    ensures var r := HandleEvent(g, s, e); var allowed := e.ComputeRequested? ==> OutputAllowed(g, s, e);
      && (Consistent(r.1.net) <==> allowed)
      && (allowed ==> EventKept(s.net, r.1.net))
      && (allowed && e.ComputeRequested? && r.0.Ok? ==> ComputedSum(g, s, r.1, e))
  {
    hide Holds, Stored, Consistent, EventKept, ComputedSum, HandleInputs, Select, StoreOutput, CheckedSum;
    hide CheckPublished;
    hide HandedOff, InputsDone, Uploadable;
    StayKept(s.net);
    if e.ComputeRequested? {
      var chosen := Select(g.rank, e.seed, e.eligible, e.size);
      if e.inputs != [] && chosen.Ok? {
        CommitteeSize(g.rank, e.seed, e.eligible, e.size);
        var done := InputsEffect(s, e.execution, chosen.value, e.inputs, |e.inputs|);
        var handled := HandleInputs(s, e.execution, chosen.value, e.inputs, |e.inputs|);
        HandedKept(s.net, handled.1.net, chosen.value, e.inputs[..done]);
        if handled.0.Ok? && CheckedSum(handled.0.value).Ok? {
          FinishEvent(g, s, handled.1, e, handled.0.value);
        }
      }
    }
  }

  lemma CommitteeSize(rank: Ranking, seed: nat, eligible: seq<NodeId>, size: nat)
    requires Select(rank, seed, eligible, size).Ok?
    ensures Select(rank, seed, eligible, size).value != []
  {
  }

  // The upload of the output.
  lemma FinishEvent(g: Digests, s: Sys, t: Sys, e: Event, values: seq<nat>)
    requires e.ComputeRequested? && Consistent(t.net) && EventKept(s.net, t.net) && CheckedSum(values).Ok?
    requires Select(g.rank, e.seed, e.eligible, e.size).Ok? && Select(g.rank, e.seed, e.eligible, e.size).value != []
    requires InputsDone(s, t, e.execution, Select(g.rank, e.seed, e.eligible, e.size).value, e.inputs, |e.inputs|,
        values)
    ensures var committee := Select(g.rank, e.seed, e.eligible, e.size).value; var total := CheckedSum(values).value;
      var o := StoreOutput(g, t, e.execution, committee, total, e.output);
      var allowed := Uploadable(t.net, g.outputId(e.execution, total, e.output), 1, e.output, total, committee);
      && (Consistent(o.1.net) <==> allowed)
      && (allowed ==> EventKept(s.net, o.1.net))
      && (allowed && o.0.Ok? ==> ComputedSum(g, s, o.1, e))
  {
    hide Holds, Stored, Consistent, EventKept, CheckedSum, UploadValue, Uploadable, InputsDone, Select, ComputedSum;
    SumIs(values);
    var committee, total := Select(g.rank, e.seed, e.eligible, e.size).value, CheckedSum(values).value;
    var id := g.outputId(e.execution, total, e.output);
    UploadConsistent(t.net, id, 1, e.output, total, committee);
    if Uploadable(t.net, id, 1, e.output, total, committee) {
      UploadKept(s.net, t.net, id, 1, e.output, total, committee);
      if UploadValue(t.net, id, 1, e.output, total, committee).0.Ok? {
        SuccessfulOutput(g, s, t, e, values);
      }
    }
  }

  lemma SuccessfulOutput(g: Digests, s: Sys, t: Sys, e: Event, values: seq<nat>)
    requires e.ComputeRequested? && Consistent(t.net) && CheckedSum(values) == Ok(Sum(values)) && Sum(values) < U128
    requires Select(g.rank, e.seed, e.eligible, e.size).Ok? && Select(g.rank, e.seed, e.eligible, e.size).value != []
    requires InputsDone(s, t, e.execution, Select(g.rank, e.seed, e.eligible, e.size).value, e.inputs, |e.inputs|,
        values)
    requires var committee := Select(g.rank, e.seed, e.eligible, e.size).value;
      var id := g.outputId(e.execution, Sum(values), e.output);
      && Uploadable(t.net, id, 1, e.output, Sum(values), committee)
      && UploadValue(t.net, id, 1, e.output, Sum(values), committee).0.Ok?
    ensures ComputedSum(g, s,
      StoreOutput(g, t, e.execution, Select(g.rank, e.seed, e.eligible, e.size).value, Sum(values), e.output).1, e)
  {
    hide Holds, Stored, Consistent, HandedOff, UploadValue, Select, At, OthersKept, InputDone, AllRecorded;
    CommitteeIs(g.rank, e.seed, e.eligible, e.size);
    var committee := Select(g.rank, e.seed, e.eligible, e.size).value;
    var id := g.outputId(e.execution, Sum(values), e.output);
    var o := StoreOutput(g, t, e.execution, committee, Sum(values), e.output).1;
    OutputPlaced(t.net, id, e.output, Sum(values), committee);
    SameStored(s.net, t.net, committee, e.inputs, id);
    assert e.inputs[..|e.inputs|] == e.inputs;
    forall i | 0 <= i < |values| ensures InputDone(s, o, committee, e.inputs, e.inputs[i], values[i]) {
      InputElsewhere(s, t, committee, e.inputs, e.inputs[i], values[i], id);
      InputStays(s, t, o, committee, e.inputs, e.inputs[i], values[i], id);
    }
    RecordedSame(s, t, o, e.execution, committee, e.inputs);
  }

  lemma RecordedSame(s: Sys, t: Sys, o: Sys, execution: nat, committee: seq<NodeId>, inputs: seq<DataId>)
    requires AllRecorded(s, t, execution, committee, inputs, |inputs|) && o.handoffs == t.handoffs
    ensures AllRecorded(s, o, execution, committee, inputs, |inputs|)
  {
    hide Recorded;
  }

  lemma SameStored(a: Network, b: Network, committee: seq<NodeId>, inputs: seq<DataId>, d: DataId)
    requires HandedOff(a, b, committee, inputs[..|inputs|])
    ensures Stored(a, d) <==> Stored(b, d)
  {
    hide Stored, Holds;
  }

  // An upload that goes through: the nodes held nothing of the id and now all hold the value.
  lemma OutputPlaced(net: Network, d: DataId, r: Representation, value: nat, nodes: seq<NodeId>)
    requires Consistent(net) && nodes != [] && value < U128 && Uploadable(net, d, 1, r, value, nodes)
    requires UploadValue(net, d, 1, r, value, nodes).0.Ok?
    ensures var t := UploadValue(net, d, 1, r, value, nodes).1;
      && Tabled(t) && OthersKept(net, t, d) && Holds(t, d, Entry(r, 1, value))
      && (forall n :: n in nodes ==> (n, d) in t.objects)
      && (!Stored(net, d) ==> At(t, d, nodes, Entry(r, 1, value))) && forall n :: n in nodes ==> (n, d) !in net.objects
  {
    hide PayloadValue, Payload, UploadFrom, UploadValue, Tabled, OthersKept, Holds, ValueObjects;
    UploadUnfold(net, d, 1, r, value, nodes);
    UploadSucceeds(net, d, nodes, ValueObjects(r, 1, value, |nodes|), 0);
    assert nodes[0..] == nodes && nodes[0] in nodes;
    UploadHolds(net, d, 1, r, value, nodes);
    if !Stored(net, d) { LocationsAre(UploadValue(net, d, 1, r, value, nodes).1, d, nodes); }
  }

  // An input is held by the committee, so an output that the committee took is under another id.
  lemma InputElsewhere(s: Sys, t: Sys, committee: seq<NodeId>, done: seq<DataId>, d: DataId, value: nat, id: DataId)
    requires InputDone(s, t, committee, done, d, value) && committee != []
    requires forall n :: n in committee ==> (n, id) !in t.net.objects
    ensures d != id
  {
    hide Holds;
    assert committee[0] in committee;
  }

  // ---- histories ----

  // A client stores a value, or the runtime handles an event. Versions and values are machine words.
  datatype Action =
    | ClientUpload(data: DataId, version: nat, representation: Representation, value: nat, nodes: seq<NodeId>)
    | Handle(event: Event)

  predicate Words(a: Action) { a.ClientUpload? ==> a.version < U64 && a.value < U128 }

  function Act(g: Digests, s: Sys, a: Action): (t: Sys) {
    match a
    case ClientUpload(d, version, r, value, nodes) => s.(net := UploadValue(s.net, d, version, r, value, nodes).1)
    case Handle(e) => HandleEvent(g, s, e).1
  }

  // The action cannot make fragments disagree: an upload, or the output of a computation, is under a
  // free id, repeats what the id holds, or is refused at its first node.
  ghost predicate Allowed(g: Digests, s: Sys, a: Action) {
    match a
    case ClientUpload(d, version, r, value, nodes) => Uploadable(s.net, d, version, r, value, nodes)
    case Handle(e) => e.ComputeRequested? ==> OutputAllowed(g, s, e)
  }

  function RunActions(g: Digests, actions: seq<Action>): (s: Sys)
    decreases |actions|
  {
    if actions == [] then Sys(Network([], map[]), [], [])
    else Act(g, RunActions(g, actions[..|actions| - 1]), actions[|actions| - 1])
  }

  // Every action is allowed in the state it meets.
  ghost predicate AllAllowed(g: Digests, actions: seq<Action>) {
    forall i {:trigger actions[i]} :: 0 <= i < |actions| ==> Allowed(g, RunActions(g, actions[..i]), actions[i])
  }

  lemma ActKeeps(g: Digests, s: Sys, a: Action)
    requires Consistent(s.net) && Words(a)
    ensures Consistent(Act(g, s, a).net) <==> Allowed(g, s, a)
    ensures Allowed(g, s, a) ==> EventKept(s.net, Act(g, s, a).net)
  {
    hide Holds, Stored, UploadValue, HandleEvent, OutputAllowed, Uploadable, EventKept, Consistent;
    match a
    case ClientUpload(d, version, r, value, nodes) =>
      UploadConsistent(s.net, d, version, r, value, nodes);
      StayKept(s.net);
      if Uploadable(s.net, d, version, r, value, nodes) { UploadKept(s.net, s.net, d, version, r, value, nodes); }
    case Handle(e) => EventEffect(g, s, e);
  }

  ghost predicate AlwaysConsistent(g: Digests, actions: seq<Action>) {
    forall i {:trigger RunActions(g, actions[..i])} ::
        0 <= i <= |actions| ==> Consistent(RunActions(g, actions[..i]).net)
  }

  // Over every history of uploads and events, with any node lists: fragments always agree exactly
  // when every action is allowed where it happens.
  lemma {:induction false} HistoryConsistent(g: Digests, actions: seq<Action>)
    requires forall i :: 0 <= i < |actions| ==> Words(actions[i])
    ensures AlwaysConsistent(g, actions) <==> AllAllowed(g, actions)
    decreases |actions|
  {
    hide Consistent, Act, Allowed, AlwaysConsistent, AllAllowed;
    if actions == [] {
      EmptyConsistent();
      StartConsistent(g);
    } else {
      var init, last := actions[..|actions| - 1], actions[|actions| - 1];
      HistoryConsistent(g, init);
      AlwaysSnoc(g, actions);
      AllowedSnoc(g, actions);
      if AlwaysConsistent(g, init) {
        NowConsistent(g, init);
        ActKeeps(g, RunActions(g, init), last);
      }
    }
  }

  lemma StartConsistent(g: Digests)
    requires Consistent(Network([], map[]))
    ensures AlwaysConsistent(g, []) && AllAllowed(g, [])
  {
    hide Consistent;
    var none: seq<Action> := [];
    assert none[..0] == none;
  }

  lemma NowConsistent(g: Digests, actions: seq<Action>)
    requires AlwaysConsistent(g, actions)
    ensures Consistent(RunActions(g, actions).net)
  {
    hide Consistent, RunActions;
    assert actions[..|actions|] == actions;
    assert Consistent(RunActions(g, actions[..|actions|]).net);
  }

  lemma AlwaysSnoc(g: Digests, actions: seq<Action>)
    requires actions != []
    ensures AlwaysConsistent(g, actions)
            <==> AlwaysConsistent(g, actions[..|actions| - 1]) && Consistent(RunActions(g, actions).net)
  {
    hide Consistent, RunActions;
    var init := actions[..|actions| - 1];
    assert actions[..|actions|] == actions;
    forall i | 0 <= i <= |init| ensures init[..i] == actions[..i] {
    }
    if AlwaysConsistent(g, actions) {
      assert Consistent(RunActions(g, actions[..|actions|]).net);
      forall i | 0 <= i <= |init| ensures Consistent(RunActions(g, init[..i]).net) {
        assert Consistent(RunActions(g, actions[..i]).net);
      }
    }
    if AlwaysConsistent(g, init) && Consistent(RunActions(g, actions).net) {
      forall i | 0 <= i <= |actions| ensures Consistent(RunActions(g, actions[..i]).net) {
        if i < |actions| { assert Consistent(RunActions(g, init[..i]).net); }
      }
    }
  }

  lemma AllowedSnoc(g: Digests, actions: seq<Action>)
    requires actions != []
    ensures var init, last := actions[..|actions| - 1], actions[|actions| - 1];
      AllAllowed(g, actions) <==> AllAllowed(g, init) && Allowed(g, RunActions(g, init), last)
  {
    hide Allowed, RunActions;
    var init := actions[..|actions| - 1];
    forall i | 0 <= i < |init| ensures init[..i] == actions[..i] && init[i] == actions[i] {
    }
  }

  // A stored value never changes: from any point of a history on, the id stays stored with its
  // representation and value, and its version never falls.
  lemma {:induction false} ValuesStay(g: Digests, actions: seq<Action>, i: nat, d: DataId, e: Entry)
    returns (version: nat)
    requires (forall j :: 0 <= j < |actions| ==> Words(actions[j])) && AllAllowed(g, actions) && i <= |actions|
    requires Stored(RunActions(g, actions[..i]).net, d) && Holds(RunActions(g, actions[..i]).net, d, e)
    ensures version >= e.version && Stored(RunActions(g, actions).net, d)
    ensures Holds(RunActions(g, actions).net, d, e.(version := version))
    decreases |actions|
  {
    hide Consistent, Act, Allowed, Holds, Stored, AllAllowed, AlwaysConsistent;
    if i == |actions| {
      assert actions[..i] == actions;
      version := e.version;
      assert e.(version := e.version) == e;
    } else {
      var n := |actions| - 1;
      var init, last := actions[..n], actions[n];
      AllowedSnoc(g, actions);
      assert init[..i] == actions[..i];
      var v := ValuesStay(g, init, i, d, e);
      HistoryConsistent(g, init);
      NowConsistent(g, init);
      ActKeeps(g, RunActions(g, init), last);
      version := LaterVersion(RunActions(g, init).net, RunActions(g, actions).net, d, e.(version := v));
      assert e.(version := v).(version := version) == e.(version := version);
    }
  }

  lemma LaterVersion(a: Network, b: Network, d: DataId, e: Entry) returns (version: nat)
    requires EventKept(a, b) && Stored(a, d) && Holds(a, d, e)
    ensures version >= e.version && Stored(b, d) && Holds(b, d, e.(version := version))
  {
    hide Holds, Stored, Consistent;
    assert Later(b, d, e);
    version :| version >= e.version && Holds(b, d, e.(version := version));
  }
}
