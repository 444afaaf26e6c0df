/** What handling an event answers: exactly when published data is accepted, when a computation goes
    through, and which error it gives otherwise. */
module WorkflowAnswers {
  import opened Wrappers
  import opened Sequences
  import opened Workflow
  import opened StorageLaws
  import opened WorkflowRuns

  // ---- published data ----

  // The event lists, in order, exactly the nodes that hold the id.
  ghost predicate ListsHolders(net: Network, e: Event)
    requires e.DataPublished?
  {
    Ascending(e.storageNodes) && forall n :: n in e.storageNodes <==> (n, e.data) in net.objects
  }

  // Handling published data changes nothing. It is accepted exactly when the event has a version,
  // lists the holders of the id in order, at least one, and names the representation stored.
  lemma PublishedExactly(g: Digests, s: Sys, e: Event, stored: Entry)
    requires e.DataPublished? && Consistent(s.net) && Holds(s.net, e.data, stored)
    ensures var (r, t) := HandleEvent(g, s, e);
      && t == s
      && (r == Ok(true) <==>
          e.version != 0 && ListsHolders(s.net, e) && e.storageNodes != []
          && stored.representation == e.representation)
      && (r == Err(DataNotFound) <==> e.version != 0 && e.storageNodes == [] && !Stored(s.net, e.data))
      && (r == Ok(true) || r == Err(DataNotFound) || r == Err(LocationMismatch))
  {
    hide PayloadValue, Gathered;
    var nodes, at := e.storageNodes, Locations(s.net, e.data);
    HoldersListed(s.net, e.data);
    if at == nodes {
      GatheredAt(s.net, e.data, nodes, stored, |nodes|);
    } else if ListsHolders(s.net, e) {
      AscendingUnique(at, nodes);
    }
  }

  // ---- the inputs of a computation ----

  // The input at position i is stored and its version can still be raised after the handoffs of it
  // before position i.
  ghost predicate InputReady(net: Network, inputs: seq<DataId>, i: nat)
    requires i < |inputs|
  {
    Stored(net, inputs[i])
    && exists e :: Holds(net, inputs[i], e) && e.version + Occurrences(inputs[..i], inputs[i]) + 1 < U64
  }

  // One more input, after the ones before it succeeded.
  lemma NextInput(s: Sys, t: Sys, execution: nat, committee: seq<NodeId>, inputs: seq<DataId>, i: nat)
    requires i < |inputs| && Consistent(s.net) && Consistent(t.net) && committee != []
    requires HandedOff(s.net, t.net, committee, inputs[..i])
    ensures var r := HandleInput(t, execution, committee, inputs[i]);
      && (r.0.Ok? <==> InputReady(s.net, inputs, i))
      && (r.0.Err? ==> r == (Err(if Stored(s.net, inputs[i]) then Overflow else DataNotFound), t))
  {
    hide Holds, Consistent, OthersKept, At, Locations, HandleInput, Occurrences;
    var d := inputs[i];
    var e := EntryOf(s.net, d);
    var f := EntryOf(t.net, d);
    InputEffect(t, execution, committee, d, f);
    SameIds(s.net, t.net, committee, inputs[..i], d);
    if Stored(s.net, d) {
      AfterHandoffs(s.net, t.net, committee, inputs[..i], d, e);
      HoldsUnique(t.net, d, f, e.(version := e.version + Occurrences(inputs[..i], d)));
      if InputReady(s.net, inputs, i) {
        var x :| Holds(s.net, d, x) && x.version + Occurrences(inputs[..i], d) + 1 < U64;
        HoldsUnique(s.net, d, e, x);
      }
    }
  }

  lemma SameIds(a: Network, b: Network, committee: seq<NodeId>, done: seq<DataId>, d: DataId)
    requires HandedOff(a, b, committee, done)
    ensures Stored(b, d) <==> Stored(a, d)
  {
    hide Stored, Holds;
  }

  lemma AfterHandoffs(a: Network, b: Network, committee: seq<NodeId>, done: seq<DataId>, d: DataId, e: Entry)
    requires HandedOff(a, b, committee, done) && Holds(a, d, e) && Stored(a, d)
    ensures Holds(b, d, e.(version := e.version + Occurrences(done, d)))
  {
    hide Stored, Holds;
  }

  ghost predicate AllReady(net: Network, inputs: seq<DataId>, k: nat)
    requires k <= |inputs|
  {
    forall i :: 0 <= i < k ==> InputReady(net, inputs, i)
  }

  // The first input that is not ready decides the error; without one all of them succeed.
  lemma {:induction false} HandledExactly(s: Sys, execution: nat, committee: seq<NodeId>, inputs: seq<DataId>, k: nat)
    requires k <= |inputs| && Consistent(s.net) && committee != []
    ensures var r := HandleInputs(s, execution, committee, inputs, k);
      && (r.0.Ok? <==> AllReady(s.net, inputs, k))
      && (forall i :: 0 <= i < k && AllReady(s.net, inputs, i) && !InputReady(s.net, inputs, i) ==>
            r.0 == Err(if Stored(s.net, inputs[i]) then Overflow else DataNotFound))
  {
    hide HandleInput, Holds, Stored, Consistent, HandedOff, InputReady, InputsDone, AllRecorded;
    if k > 0 {
      HandledExactly(s, execution, committee, inputs, k - 1);
      var done := InputsEffect(s, execution, committee, inputs, k - 1);
      var before := HandleInputs(s, execution, committee, inputs, k - 1);
      if before.0.Ok? {
        NextInput(s, before.1, execution, committee, inputs, k - 1);
      }
    }
  }

  // ---- computations ----

  lemma {:induction false} SumExactly(values: seq<nat>)
    ensures CheckedSum(values) == if Sum(values) < U128 then Ok(Sum(values)) else Err(Overflow)
  {
    if values != [] { SumExactly(values[..|values| - 1]); }
  }

  // The values the inputs are stored with.
  ghost predicate ValuesOf(net: Network, inputs: seq<DataId>, values: seq<nat>) {
    |values| == |inputs| && forall i :: 0 <= i < |inputs| ==> ValueOf(net, inputs[i], values[i])
  }

  ghost predicate ValueOf(net: Network, d: DataId, value: nat) { exists e :: Holds(net, d, e) && e.value == value }

  // The request names inputs and a committee can be drawn from different eligible nodes.
  predicate Drawable(e: Event)
    requires e.ComputeRequested?
  {
    e.inputs != [] && 0 < e.size <= |e.eligible| && Distinct(e.eligible)
  }

  // The output's id is an input, or some committee member holds it already.
  ghost predicate Taken(net: Network, committee: seq<NodeId>, inputs: seq<DataId>, id: DataId) {
    id in inputs || exists n :: n in committee && (n, id) in net.objects
  }

  lemma ReadValues(s: Sys, t: Sys, execution: nat, committee: seq<NodeId>, inputs: seq<DataId>, read: seq<nat>,
      values: seq<nat>)
    requires InputsDone(s, t, execution, committee, inputs, |inputs|, read) && ValuesOf(s.net, inputs, values)
    ensures read == values
  {
    hide Holds, Stored, At, HandedOff, AllRecorded;
    forall i | 0 <= i < |inputs| ensures read[i] == values[i] {
      assert InputDone(s, t, committee, inputs[..|inputs|], inputs[i], read[i]);
      assert ValueOf(s.net, inputs[i], values[i]);
      var e :| Holds(s.net, inputs[i], e) && e.value == values[i];
      var f :| Holds(s.net, inputs[i], f) && f.value == read[i];
      HoldsUnique(s.net, inputs[i], e, f);
    }
  }

  // The upload of the output goes through unless its id is taken.
  lemma OutputAnswer(g: Digests, s: Sys, t: Sys, execution: nat, committee: seq<NodeId>, inputs: seq<DataId>,
      total: nat, r: Representation)
    requires HandedOff(s.net, t.net, committee, inputs) && committee != [] && Ascending(committee)
    ensures StoreOutput(g, t, execution, committee, total, r).0
      == if Taken(s.net, committee, inputs, g.outputId(execution, total, r)) then Err(DataAlreadyExists) else Ok(true)
  {
    hide Payload, UploadFrom, UploadValue, Holds, Stored, ValueObjects;
    var id := g.outputId(execution, total, r);
    UploadUnfold(t.net, id, 1, r, total, committee);
    UploadSucceeds(t.net, id, committee, ValueObjects(r, 1, total, |committee|), 0);
    UploadError(t.net, id, committee, ValueObjects(r, 1, total, |committee|), 0);
    assert committee[0..] == committee && committee[0] in committee;
    forall n | n in committee ensures (n, id) in t.net.objects <==> id in inputs || (n, id) in s.net.objects {
    }
  }

  lemma {:induction false} UploadError(net: Network, d: DataId, nodes: seq<NodeId>, objects: seq<StoredObject>, k: nat)
    requires k <= |nodes| == |objects|
    ensures var u := UploadFrom(net, d, nodes, objects, k); u.0.Err? ==> u.0.error == DataAlreadyExists
    decreases |nodes| - k
  {
    if k < |nodes| && (nodes[k], d) !in net.objects {
      UploadError(Put(net, nodes[k], d, objects[k]), d, nodes, objects, k + 1);
    }
  }

  // What a computation answers on a consistent network: it goes through exactly when a committee
  // can be drawn, every input is ready, the sum fits in 128 bits and the output's id is free;
  // otherwise the first of these that fails decides the error.
  lemma ComputeExactly(g: Digests, s: Sys, e: Event, i: nat, values: seq<nat>)
    requires e.ComputeRequested? && Consistent(s.net)
    ensures var r := HandleEvent(g, s, e).0;
      && (e.inputs == [] ==> r == Err(InvalidInput))
      && (e.inputs != [] && (e.size == 0 || |e.eligible| < e.size) ==> r == Err(InsufficientEligibleNodes))
      && (e.inputs != [] && 0 < e.size <= |e.eligible| && !Distinct(e.eligible) ==> r == Err(InvalidInput))
      && (Drawable(e) && i < |e.inputs| && AllReady(s.net, e.inputs, i) && !InputReady(s.net, e.inputs, i) ==>
          r == Err(if Stored(s.net, e.inputs[i]) then Overflow else DataNotFound))
      && (Drawable(e) && AllReady(s.net, e.inputs, |e.inputs|) && ValuesOf(s.net, e.inputs, values) ==>
          && Select(g.rank, e.seed, e.eligible, e.size).Ok?
          && r == if Sum(values) >= U128 then Err(Overflow)
                  else if Taken(s.net, Select(g.rank, e.seed, e.eligible, e.size).value, e.inputs,
                      g.outputId(e.execution, Sum(values), e.output)) then Err(DataAlreadyExists)
                  else Ok(true))
  {
    hide Holds, Stored, Consistent, HandleInputs, StoreOutput, CheckedSum, InputReady, HandedOff, AllReady, Taken;
    hide InputsDone, ValuesOf, AllRecorded, Sum;
    var chosen := Select(g.rank, e.seed, e.eligible, e.size);
    if Drawable(e) {
      CommitteeIs(g.rank, e.seed, e.eligible, e.size);
      var handled := HandleInputs(s, e.execution, chosen.value, e.inputs, |e.inputs|);
      HandledExactly(s, e.execution, chosen.value, e.inputs, |e.inputs|);
      var done := InputsEffect(s, e.execution, chosen.value, e.inputs, |e.inputs|);
      assert e.inputs[..|e.inputs|] == e.inputs;
      if handled.0.Ok? && ValuesOf(s.net, e.inputs, values) {
        ReadValues(s, handled.1, e.execution, chosen.value, e.inputs, handled.0.value, values);
        SumExactly(values);
        OutputAnswer(g, s, handled.1, e.execution, chosen.value, e.inputs, Sum(values), e.output);
      }
      if i < |e.inputs| && AllReady(s.net, e.inputs, i) && !InputReady(s.net, e.inputs, i) {
        NotAllReady(s.net, e.inputs, i);
      }
    }
  }

  lemma NotAllReady(net: Network, inputs: seq<DataId>, i: nat)
    requires i < |inputs| && !InputReady(net, inputs, i)
    ensures !AllReady(net, inputs, |inputs|)
  {
  }
}
