/** What a poll answers: which function a task selects, which values its parameters get, and that
    what is committed and published is that function's outcome for the task's requester. */
module DaemonLaws {
  import opened Wrappers
  import opened Bytes
  import opened Language
  import opened Manifests
  import opened Executor
  import opened StateStore
  import opened Outbox
  import opened Daemon

  // ---- the selected function ----

  // The first function of the manifest with this selector.
  ghost predicate FirstSelected(c: Config, selector: seq<Byte>, f: FunctionManifest) {
    exists i :: 0 <= i < |c.manifest.functions| && SelectedAt(c, selector, f, i)
  }

  ghost predicate SelectedAt(c: Config, selector: seq<Byte>, f: FunctionManifest, i: nat)
    requires i < |c.manifest.functions|
  {
    && c.manifest.functions[i] == f && c.selectorOf(f) == Some(selector)
    && forall j :: 0 <= j < i ==> c.selectorOf(c.manifest.functions[j]) != Some(selector)
  }

  ghost predicate NoneSelected(c: Config, selector: seq<Byte>) {
    forall i :: 0 <= i < |c.manifest.functions| ==> c.selectorOf(c.manifest.functions[i]) != Some(selector)
  }

  lemma {:induction false} FindFirst(c: Config, selector: seq<Byte>, k: nat)
    requires k <= |c.manifest.functions|
    requires forall j :: 0 <= j < k ==> c.selectorOf(c.manifest.functions[j]) != Some(selector)
    ensures match FindSelector(c, c.manifest.functions[k..], selector)
            case Some(f) => FirstSelected(c, selector, f)
            case None => NoneSelected(c, selector)
    decreases |c.manifest.functions| - k
  {
    var rest := c.manifest.functions[k..];
    if rest != [] {
      if c.selectorOf(rest[0]) == Some(selector) {
        assert SelectedAt(c, selector, rest[0], k);
      } else {
        assert rest[1..] == c.manifest.functions[k + 1..];
        FindFirst(c, selector, k + 1);
      }
    }
  }

  // A task selects a function exactly when it is the first one with the task's selector, and none
  // exactly when no function has it.
  lemma SelectedExactly(c: Config, task: Task, f: FunctionManifest)
    ensures SelectFunction(c, task) == Ok(f) <==> FirstSelected(c, task.selector, f)
    ensures SelectFunction(c, task) == Err(NoSuchFunction) <==> NoneSelected(c, task.selector)
    ensures SelectFunction(c, task).Ok? || SelectFunction(c, task) == Err(NoSuchFunction)
  {
    hide FindSelector;
    FindFirst(c, task.selector, 0);
    assert c.manifest.functions[0..] == c.manifest.functions;
    var r := SelectFunction(c, task);
    if r.Ok? && FirstSelected(c, task.selector, f) {
      var i :| 0 <= i < |c.manifest.functions| && SelectedAt(c, task.selector, f, i);
      var j :| 0 <= j < |c.manifest.functions| && SelectedAt(c, task.selector, r.value, j);
      assert i == j;
    }
  }

  // ---- the values of the parameters ----

  // Which of the first k parameters are public, and how many.
  ghost function PublicOnes(inputs: seq<Param>, k: nat): (s: set<nat>)
    requires k <= |inputs|
  {
    set j: nat | j < k && (inputs[j].ty == Address || inputs[j].ty == Uint)
  }

  ghost function PublicBefore(inputs: seq<Param>, k: nat): (n: nat)
    requires k <= |inputs|
  {
    |PublicOnes(inputs, k)|
  }

  lemma OneMore(inputs: seq<Param>, k: nat)
    requires k < |inputs|
    ensures PublicOnes(inputs, k + 1) == PublicOnes(inputs, k) + (if PublicType(inputs[k].ty) then {k} else {})
  {
  }

  lemma {:induction false} CountedPublic(inputs: seq<Param>, k: nat)
    requires k <= |inputs|
    ensures PublicCount(inputs[..k]) == PublicBefore(inputs, k)
  {
    if k > 0 {
      CountedPublic(inputs, k - 1);
      assert inputs[..k][..k - 1] == inputs[..k - 1];
      OneMore(inputs, k - 1);
    } else {
      assert PublicOnes(inputs, 0) == {};
    }
  }

  // A 32-byte word spells an address after 12 zero bytes, or a 128-bit number after 16.
  ghost predicate Spells(word: seq<Byte>, ty: ValueType, v: Value)
    requires |word| == 32
  {
    var zeros := if ty == Address then 12 else 16;
    (forall i :: 0 <= i < zeros ==> word[i] == 0) && v == Value(ty, word[zeros..])
  }

  // Parameter k is bound to v: a public one to its word, numbered among the public ones, a private
  // one to the stored input its id names, numbered among the others.
  ghost predicate BoundTo(inputs: seq<Param>, task: Task, table: map<Id, Value>, k: nat, v: Value)
    requires k < |inputs|
  {
    var p := PublicBefore(inputs, k);
    match inputs[k].ty
    case Address | Uint =>
      32 * p + 32 <= |task.publicInputs| && Spells(task.publicInputs[32 * p..32 * p + 32], inputs[k].ty, v)
    case FheUint | Sint =>
      && 0 <= k - p < |task.privateIds| && task.privateIds[k - p] in table
      && v == table[task.privateIds[k - p]] && v.ty == inputs[k].ty
    case _ => false
  }

  // Parameter j is the last of its name among the first k.
  ghost predicate LastNamed(inputs: seq<Param>, k: nat, j: nat)
    requires j < k <= |inputs|
  {
    forall i :: j < i < k ==> inputs[i].name != inputs[j].name
  }

  ghost predicate Bindable(inputs: seq<Param>, task: Task, table: map<Id, Value>, k: nat)
    requires k < |inputs|
  {
    exists v :: BoundTo(inputs, task, table, k, v)
  }

  // The first k parameters are bound, and a name has the value of the last one of that name.
  ghost predicate BoundUpTo(inputs: seq<Param>, task: Task, table: map<Id, Value>, k: nat, values: map<string, Value>)
    requires k <= |inputs|
  {
    && (forall x :: x in values <==> exists j :: 0 <= j < k && inputs[j].name == x)
    && forall j :: 0 <= j < k ==> BoundIn(inputs, task, table, k, values, j)
  }

  ghost predicate BoundIn(inputs: seq<Param>, task: Task, table: map<Id, Value>, k: nat, values: map<string, Value>,
      j: nat)
    requires j < k <= |inputs|
  {
    exists v :: BoundTo(inputs, task, table, j, v)
      && (LastNamed(inputs, k, j) ==> inputs[j].name in values && values[inputs[j].name] == v)
  }

  // As many words and ids as there are public and private parameters.
  ghost predicate RightCounts(inputs: seq<Param>, task: Task) {
    && |task.publicInputs| == 32 * PublicBefore(inputs, |inputs|)
    && |task.privateIds| == |inputs| - PublicBefore(inputs, |inputs|)
  }

  lemma CountsChecked(inputs: seq<Param>, task: Task)
    ensures CheckCounts(inputs, task).Ok? <==> RightCounts(inputs, task)
  {
    CountedPublic(inputs, |inputs|);
    assert inputs[..|inputs|] == inputs;
  }

  lemma WordRead(ty: ValueType, word: seq<Byte>, v: Value)
    requires |word| == 32 && PublicType(ty)
    ensures PublicWord(ty, word) == Ok(v) <==> Spells(word, ty, v)
  {
    hide FromBigEndian, BigEndian;
    var zeros := if ty == Address then 12 else 16;
    WriteBack(word[16..]);
    assert forall i :: 0 <= i < zeros ==> word[..zeros][i] == word[i];
  }

  lemma ValueBound(inputs: seq<Param>, task: Task, table: map<Id, Value>, k: nat, v: Value)
    requires k < |inputs| && CheckCounts(inputs, task).Ok?
    ensures InputValue(inputs, task, table, k) == Ok(v) <==> BoundTo(inputs, task, table, k, v)
  {
    hide PublicWord, PublicCount, PublicBefore, Spells;
    CountedPublic(inputs, k);
    CountBounds(inputs, k);
    if PublicType(inputs[k].ty) {
      var p := PublicCount(inputs[..k]);
      assert p * 32 == 32 * p && (p + 1) * 32 == 32 * p + 32;
      WordRead(inputs[k].ty, task.publicInputs[p * 32..(p + 1) * 32], v);
    }
  }

  // One more parameter: a later one of the same name takes its place.
  lemma BoundNext(inputs: seq<Param>, task: Task, table: map<Id, Value>, k: nat, values: map<string, Value>, v: Value)
    requires k < |inputs| && BoundUpTo(inputs, task, table, k, values) && BoundTo(inputs, task, table, k, v)
    ensures BoundUpTo(inputs, task, table, k + 1, values[inputs[k].name := v])
  {
    hide BoundTo;
    var after := values[inputs[k].name := v];
    forall x | x in after ensures exists j :: 0 <= j < k + 1 && inputs[j].name == x {
      if x != inputs[k].name {
        var j :| 0 <= j < k && inputs[j].name == x;
      }
    }
    var next := k + 1;
    forall j | 0 <= j < next ensures BoundIn(inputs, task, table, next, after, j) {
      if j < k {
        assert BoundIn(inputs, task, table, k, values, j);
        var u :| BoundTo(inputs, task, table, j, u)
          && (LastNamed(inputs, k, j) ==> inputs[j].name in values && values[inputs[j].name] == u);
      }
    }
  }

  lemma {:induction false} GatheredBound(inputs: seq<Param>, task: Task, table: map<Id, Value>, k: nat)
    requires k <= |inputs| && CheckCounts(inputs, task).Ok?
    ensures var r := GatherInputs(inputs, task, table, k);
      && (r.Ok? ==> BoundUpTo(inputs, task, table, k, r.value))
      && (r.Err? ==> exists j :: 0 <= j < k && !Bindable(inputs, task, table, j))
  {
    hide BoundTo, CheckCounts, InputValue, BoundUpTo;
    if k == 0 {
      NoneBound(inputs, task, table);
    } else {
      GatheredBound(inputs, task, table, k - 1);
      var r, v := GatherInputs(inputs, task, table, k - 1), InputValue(inputs, task, table, k - 1);
      if r.Ok? && v.Ok? {
        ValueBound(inputs, task, table, k - 1, v.value);
        BoundNext(inputs, task, table, k - 1, r.value, v.value);
      } else if r.Ok? {
        if Bindable(inputs, task, table, k - 1) {
          var last := k - 1;
          var u :| BoundTo(inputs, task, table, last, u);
          ValueBound(inputs, task, table, last, u);
        }
      }
    }
  }

  lemma NoneBound(inputs: seq<Param>, task: Task, table: map<Id, Value>)
    ensures BoundUpTo(inputs, task, table, 0, map[])
  {
  }

  lemma {:induction false} LastOf(inputs: seq<Param>, j: nat) returns (k: nat)
    requires j < |inputs|
    ensures j <= k < |inputs| && inputs[k].name == inputs[j].name && LastNamed(inputs, |inputs|, k)
    decreases |inputs| - j
  {
    k := j;
    if i :| j < i < |inputs| && inputs[i].name == inputs[j].name {
      k := LastOf(inputs, i);
    }
  }

  lemma BoundOnce(inputs: seq<Param>, task: Task, table: map<Id, Value>, a: map<string, Value>, b: map<string, Value>)
    requires BoundUpTo(inputs, task, table, |inputs|, a) && BoundUpTo(inputs, task, table, |inputs|, b)
    ensures a == b
  {
    hide PublicBefore;
    forall x | x in a ensures x in b && a[x] == b[x] {
      var j :| 0 <= j < |inputs| && inputs[j].name == x;
      var k := LastOf(inputs, j);
      assert BoundIn(inputs, task, table, |inputs|, a, k) && BoundIn(inputs, task, table, |inputs|, b, k);
    }
  }

  lemma AllBindable(inputs: seq<Param>, task: Task, table: map<Id, Value>, values: map<string, Value>)
    requires BoundUpTo(inputs, task, table, |inputs|, values)
    ensures forall j :: 0 <= j < |inputs| ==> Bindable(inputs, task, table, j)
  {
    hide BoundTo;
    forall j | 0 <= j < |inputs| ensures Bindable(inputs, task, table, j) {
      assert BoundIn(inputs, task, table, |inputs|, values, j);
    }
  }

  // A task's inputs are gathered exactly when there are as many words and ids as parameters and
  // every parameter can be bound; the values are then determined by the parameters' own words and ids.
  lemma InputsExactly(inputs: seq<Param>, task: Task, table: map<Id, Value>, values: map<string, Value>)
    ensures InvocationInputs(inputs, task, table) == Ok(values)
      <==> RightCounts(inputs, task) && BoundUpTo(inputs, task, table, |inputs|, values)
  {
    hide RightCounts, BoundTo, GatherInputs, CheckCounts, BoundUpTo, Bindable;
    CountsChecked(inputs, task);
    if CheckCounts(inputs, task).Ok? {
      GatheredBound(inputs, task, table, |inputs|);
      if BoundUpTo(inputs, task, table, |inputs|, values) {
        AllBindable(inputs, task, table, values);
        BoundOnce(inputs, task, table, InvocationInputs(inputs, task, table).value, values);
      }
    }
  }

  // ---- running a task, and a poll ----

  // The outcome and payload of a task: its selected function, on the values of its parameters,
  // called by its requester.
  ghost predicate Ran(c: Config, task: Task, table: map<Id, Value>, cells: Cells, f: FunctionManifest,
      values: map<string, Value>, o: Outcome, payload: seq<Byte>)
  {
    && FirstSelected(c, task.selector, f)
    && RightCounts(f.inputs, task) && BoundUpTo(f.inputs, task, table, |f.inputs|, values)
    && Evaluate(c.manifest, f.name, World(LoadFrom(cells), c.backend), Invocation(task.requester, values)) == Ok(o)
    && Encode(task.executionId, o) == Ok(payload)
  }

  ghost predicate Yields(c: Config, task: Task, table: map<Id, Value>, cells: Cells, o: Outcome, payload: seq<Byte>) {
    exists f, values :: Ran(c, task, table, cells, f, values, o, payload)
  }

  lemma RunExactly(c: Config, task: Task, table: map<Id, Value>, cells: Cells, o: Outcome, payload: seq<Byte>)
    ensures RunTask(c, task, table, cells) == Ok(TaskResult(o, payload)) <==> Yields(c, task, table, cells, o, payload)
  {
    hide SelectFunction, InvocationInputs, Evaluate, Encode, FirstSelected, RightCounts, BoundUpTo;
    var s := SelectFunction(c, task);
    if s.Ok? {
      SelectedExactly(c, task, s.value);
      var inputs := InvocationInputs(s.value.inputs, task, table);
      if inputs.Ok? {
        InputsExactly(s.value.inputs, task, table, inputs.value);
        if RunTask(c, task, table, cells) == Ok(TaskResult(o, payload)) {
          assert Ran(c, task, table, cells, s.value, inputs.value, o, payload);
        }
      }
    }
    if Yields(c, task, table, cells, o, payload) {
      var f, values :| Ran(c, task, table, cells, f, values, o, payload);
      SelectedExactly(c, task, f);
      InputsExactly(f.inputs, task, table, values);
    }
  }

  // No log entry has the task's index or execution id.
  ghost predicate Unlogged(db: Db, index: nat, id: Id) {
    index !in db.processed && forall j :: j in db.processed ==> db.processed[j].executionId != id
  }

  // The result may be stored: a fresh log entry and outbox row, and no void cell.
  ghost predicate Publishable(db: Db, index: nat, id: Id, o: Outcome) {
    && Unlogged(db, index, id) && id !in db.outbox
    && forall i :: 0 <= i < |o.writes| ==> o.writes[i].value.ty != Void
  }

  // What is stored then, all of it together.
  ghost function Published(db: Db, index: nat, id: Id, o: Outcome, payload: seq<Byte>): (after: Db) {
    Db(Some(index + 1), db.processed[index := Processed(id, Completed)], db.outbox[id := payload],
        Commit(db.cells, o.writes), db.inputs)
  }

  // A poll of a running task at a member node: the result of running it is published, or nothing
  // but the cursor row changes.
  lemma ComputedExactly(c: Config, db: Db, a: Answer)
    requires CursorValue(db) < a.count && CursorValue(db) < |c.queue| && a.status == Running && a.member
    requires c.queue[CursorValue(db)].contractId == c.contractId
    ensures var i := CursorValue(db); var task := c.queue[i]; var (r, after) := PollOnce(c, db, a);
      && (r.Ok? <==> exists o, payload ::
          Yields(c, task, db.inputs, db.cells, o, payload) && Publishable(db, i, task.executionId, o))
      && (r.Ok? ==> r == Ok(Computed(i, task.executionId)))
      && (r.Ok? ==> forall o, payload :: Yields(c, task, db.inputs, db.cells, o, payload) ==>
          after == Published(db, i, task.executionId, o, payload))
      && (r.Err? ==> after == db.(cursor := Some(i)))
  {
    hide RunTask, Yields, Commit;
    var i := CursorValue(db);
    var task := c.queue[i];
    var run := RunTask(c, task, db.inputs, db.cells);
    forall o, payload ensures run == Ok(TaskResult(o, payload)) <==> Yields(c, task, db.inputs, db.cells, o, payload) {
      RunExactly(c, task, db.inputs, db.cells, o, payload);
    }
    if run.Ok? {
      assert run == Ok(TaskResult(run.value.outcome, run.value.payload));
      assert Yields(c, task, db.inputs, db.cells, run.value.outcome, run.value.payload);
    }
  }

  // Every other poll: nothing left, a task of another contract or a terminal one is logged as
  // skipped, and everything else is waited for.
  lemma OtherwiseExactly(c: Config, db: Db, a: Answer)
    ensures var i := CursorValue(db); var (r, after) := PollOnce(c, db, a); var same := after == db.(cursor := Some(i));
      && (i >= a.count || i >= |c.queue| ==> r == Ok(Nothing) && same)
      && (i < a.count && i < |c.queue| ==>
        var id := c.queue[i].executionId;
        if c.queue[i].contractId != c.contractId || a.status in {Done, Failed, Cancelled} then
          if Unlogged(db, i, id) then
            && r == Ok(PollSkipped(i, id))
            && after == db.(cursor := Some(i + 1), processed := db.processed[i := Processed(id, Skipped)])
          else r == Err(Runtime(PersistenceFailure)) && same
        else a.status != Running || !a.member ==> r == Ok(Waiting) && same)
  {
    hide RunTask, CommitComputation;
  }

  // ---- which inputs are refused ----

  // Why parameter k cannot be bound.
  function Unbindable(inputs: seq<Param>, task: Task, table: map<Id, Value>, privateIndex: nat,
      k: nat): (e: DaemonError)
    requires k < |inputs|
  {
    match inputs[k].ty
    case Address | Uint => InvalidPublicInputs
    case FheUint | Sint =>
      if privateIndex < |task.privateIds| && task.privateIds[privateIndex] in table then InvalidPrivateInputs
      else Runtime(StateNotFound)
    case _ => UnsupportedParameter
  }

  lemma ValueRefused(inputs: seq<Param>, task: Task, table: map<Id, Value>, k: nat)
    requires k < |inputs| && RightCounts(inputs, task) && !Bindable(inputs, task, table, k)
    ensures CheckCounts(inputs, task).Ok? && 0 <= k - PublicBefore(inputs, k) <= |task.privateIds|
    ensures InputValue(inputs, task, table, k)
      == Err(Unbindable(inputs, task, table, k - PublicBefore(inputs, k), k))
  {
    hide PublicWord, PublicCount, PublicBefore, BoundTo, RightCounts, CheckCounts;
    CountsChecked(inputs, task);
    CountedPublic(inputs, k);
    CountMono(inputs, k);
    CheckedCounts(inputs, task);
    var r := InputValue(inputs, task, table, k);
    if r.Ok? {
      ValueBound(inputs, task, table, k, r.value);
    } else {
      ValueError(inputs, task, table, k);
    }
  }

  lemma CheckedCounts(inputs: seq<Param>, task: Task)
    requires CheckCounts(inputs, task).Ok?
    ensures |task.privateIds| == |inputs| - PublicCount(inputs)
  {
  }

  lemma ValueError(inputs: seq<Param>, task: Task, table: map<Id, Value>, k: nat)
    requires k < |inputs| && CheckCounts(inputs, task).Ok? && InputValue(inputs, task, table, k).Err?
    requires 0 <= k - PublicBefore(inputs, k) <= |task.privateIds|
    ensures InputValue(inputs, task, table, k)
      == Err(Unbindable(inputs, task, table, k - PublicBefore(inputs, k), k))
  {
    hide PublicCount, PublicBefore, CheckCounts;
    CheckedCounts(inputs, task);
    CountedPublic(inputs, k);
    CountBounds(inputs, k);
  }

  // Wrong counts are refused first; then the first parameter that cannot be bound decides the error.
  lemma InputsRefused(inputs: seq<Param>, task: Task, table: map<Id, Value>, k: nat)
    ensures var r := InvocationInputs(inputs, task, table); var public := PublicBefore(inputs, |inputs|);
      && (|task.publicInputs| != 32 * public ==> r == Err(InvalidPublicInputs))
      && (|task.publicInputs| == 32 * public && |task.privateIds| != |inputs| - public ==>
          r == Err(InvalidPrivateInputs))
      && (RightCounts(inputs, task) && k < |inputs| && !Bindable(inputs, task, table, k)
          && (forall j :: 0 <= j < k ==> Bindable(inputs, task, table, j)) ==>
          && 0 <= k - PublicBefore(inputs, k) <= |task.privateIds|
          && r == Err(Unbindable(inputs, task, table, k - PublicBefore(inputs, k), k)))
  {
    hide InputValue, GatherInputs, Bindable, PublicBefore;
    CountedPublic(inputs, |inputs|);
    assert inputs[..|inputs|] == inputs;
    if RightCounts(inputs, task) && k < |inputs| && !Bindable(inputs, task, table, k)
      && forall j :: 0 <= j < k ==> Bindable(inputs, task, table, j)
    {
      ValueRefused(inputs, task, table, k);
      GatheredFirst(inputs, task, table, k);
      GatherStops(inputs, task, table, k);
    }
  }

  lemma {:induction false} GatheredFirst(inputs: seq<Param>, task: Task, table: map<Id, Value>, k: nat)
    requires k <= |inputs| && CheckCounts(inputs, task).Ok?
    requires forall j :: 0 <= j < k ==> Bindable(inputs, task, table, j)
    ensures GatherInputs(inputs, task, table, k).Ok?
  {
    hide CheckCounts, InputValue, Bindable;
    GatheredBound(inputs, task, table, k);
  }

  lemma GatherStops(inputs: seq<Param>, task: Task, table: map<Id, Value>, k: nat)
    requires k < |inputs| && CheckCounts(inputs, task).Ok? && GatherInputs(inputs, task, table, k).Ok?
    requires InputValue(inputs, task, table, k).Err?
    ensures GatherInputs(inputs, task, table, |inputs|) == Err(InputValue(inputs, task, table, k).error)
  {
    hide CheckCounts, InputValue;
    GatherFails(inputs, task, table, k + 1, |inputs|);
  }
}
