/** The manifest daemon: what one poll does to a node's database. */
module Daemon {
  import opened Wrappers
  import opened Bytes
  import opened Language
  import opened Manifests
  import opened Executor
  import opened StateStore
  import opened Outbox

  type Id = seq<Byte>

  datatype Status =
    NoStatus | Requested | CommitteeAssigned | Running | HandingOff | ResultPending | Done | Failed | Cancelled
  {
    predicate Terminal() { Done? || Failed? || Cancelled? }
  }

  // The part of a queued task that never changes on the chain.
  datatype Task = Task(executionId: Id, contractId: Id, selector: seq<Byte>, requester: seq<Byte>, privateIds: seq<Id>,
      publicInputs: seq<Byte>)

  datatype TaskOutcome = Completed | Skipped

  datatype Processed = Processed(executionId: Id, outcome: TaskOutcome)

  // One node's tables for one control address: the cursor row, the processed log keyed by queue
  // index, the result outbox keyed by execution id, the contract cells and the stored inputs.
  datatype Db = Db(cursor: Option<nat>, processed: map<nat, Processed>, outbox: map<Id, seq<Byte>>, cells: Cells,
      inputs: map<Id, Value>)

  // The deployment: the manifest with its selectors (none when the text does not decode), the
  // cryptographic engine, the contract the daemon serves and the queue of tasks the chain ever
  // holds.
  datatype Config = Config(manifest: ContractManifest, selectorOf: FunctionManifest -> Option<seq<Byte>>,
      backend: Backend, contractId: Id, queue: seq<Task>)

  // ---- transactions: they apply completely or not at all ----

  function CursorValue(db: Db): (n: nat) { if db.cursor.Some? then db.cursor.value else 0 }

  // Inserts the cursor row when it is missing, then reads it.
  function NextExecutionIndex(db: Db): (r: (nat, Db)) {
    (CursorValue(db), db.(cursor := Some(CursorValue(db))))
  }

  predicate ProcessedId(db: Db, id: Id) { exists i :: i in db.processed && db.processed[i].executionId == id }

  function CompleteExecution(db: Db, index: nat, id: Id, outcome: TaskOutcome): (r: Result<Db, RuntimeError>) {
    if db.cursor != Some(index) then Err(CursorMismatch)
    else if index in db.processed || ProcessedId(db, id) then Err(PersistenceFailure)
    else Ok(db.(processed := db.processed[index := Processed(id, outcome)], cursor := Some(index + 1)))
  }

  predicate Storable(writes: seq<StateWrite>) { forall i :: 0 <= i < |writes| ==> writes[i].value.ty != Void }

  function CommitComputation(db: Db, index: nat, id: Id, writes: seq<StateWrite>,
      payload: seq<Byte>): (r: Result<Db, RuntimeError>)
  {
    if db.cursor != Some(index) then Err(CursorMismatch)
    else if !Storable(writes) then Err(InvalidValue)
    else if id in db.outbox || index in db.processed || ProcessedId(db, id) then Err(PersistenceFailure)
    else Ok(Db(Some(index + 1), db.processed[index := Processed(id, Completed)], db.outbox[id := payload],
        Commit(db.cells, writes), db.inputs))
  }

  // Stored inputs are immutable: an upload under a taken id changes nothing.
  function EnqueueUpload(db: Db, id: Id, v: Value): (after: Db) {
    if id in db.inputs then db else db.(inputs := db.inputs[id := v])
  }

  // ---- gathering the inputs of a task ----

  predicate PublicType(ty: ValueType) { ty == Address || ty == Uint }

  function PublicCount(inputs: seq<Param>): (n: nat)
    ensures n <= |inputs|
  {
    if inputs == [] then 0
    else PublicCount(inputs[..|inputs| - 1]) + if PublicType(inputs[|inputs| - 1].ty) then 1 else 0
  }

  predicate AllZero(b: seq<Byte>) { forall i :: 0 <= i < |b| ==> b[i] == 0 }

  // A 32-byte public word: 12 zero bytes and an address, or 16 zero bytes and a number.
  function PublicWord(ty: ValueType, word: seq<Byte>): (r: Result<Value, DaemonError>)
    requires |word| == 32 && PublicType(ty)
  {
    if ty == Address then
      if AllZero(word[..12]) then Ok(AddressValue(word[12..])) else Err(InvalidPublicInputs)
    else
      if AllZero(word[..16]) then Ok(PublicUint(FromBigEndian(word[16..]))) else Err(InvalidPublicInputs)
  }

  function StoredInput(table: map<Id, Value>, id: Id): (r: Result<Value, DaemonError>) {
    if id in table then Ok(table[id]) else Err(Runtime(StateNotFound))
  }

  function CheckCounts(inputs: seq<Param>, task: Task): (r: Result<(), DaemonError>) {
    if |task.publicInputs| != PublicCount(inputs) * 32 then Err(InvalidPublicInputs)
    else if |task.privateIds| != |inputs| - PublicCount(inputs) then Err(InvalidPrivateInputs)
    else Ok(())
  }

  // The value of input k: public inputs are numbered among the public ones, the others among
  // the private ones.
  function InputValue(inputs: seq<Param>, task: Task, table: map<Id, Value>, k: nat): (r: Result<Value, DaemonError>)
    requires k < |inputs| && CheckCounts(inputs, task).Ok?
  {
    var p := PublicCount(inputs[..k]);
    CountBounds(inputs, k);
    if PublicType(inputs[k].ty) then PublicWord(inputs[k].ty, task.publicInputs[p * 32..(p + 1) * 32])
    else if inputs[k].ty == FheUint || inputs[k].ty == Sint then
      var v :- StoredInput(table, task.privateIds[k - p]);
      if v.ty != inputs[k].ty then Err(InvalidPrivateInputs) else Ok(v)
    else Err(UnsupportedParameter)
  }

  lemma {:induction false} CountMono(inputs: seq<Param>, k: nat)
    requires k <= |inputs|
    ensures PublicCount(inputs[..k]) <= PublicCount(inputs)
    ensures k - PublicCount(inputs[..k]) <= |inputs| - PublicCount(inputs)
    decreases |inputs|
  {
    if k < |inputs| {
      var init := inputs[..|inputs| - 1];
      assert init[..k] == inputs[..k];
      CountMono(init, k);
    } else {
      assert inputs[..k] == inputs;
    }
  }

  lemma CountBounds(inputs: seq<Param>, k: nat)
    requires k < |inputs|
    ensures PublicType(inputs[k].ty) ==> PublicCount(inputs[..k]) + 1 <= PublicCount(inputs)
    ensures !PublicType(inputs[k].ty) ==> 0 <= k - PublicCount(inputs[..k]) < |inputs| - PublicCount(inputs)
  {
    assert inputs[..k + 1][..k] == inputs[..k];
    CountMono(inputs, k + 1);
  }

  // The first k inputs by name.
  function GatherInputs(inputs: seq<Param>, task: Task, table: map<Id, Value>,
      k: nat): (r: Result<map<string, Value>, DaemonError>)
    requires k <= |inputs| && CheckCounts(inputs, task).Ok?
  {
    if k == 0 then Ok(map[])
    else
      var values :- GatherInputs(inputs, task, table, k - 1);
      var v :- InputValue(inputs, task, table, k - 1);
      Ok(values[inputs[k - 1].name := v])
  }

  function InvocationInputs(inputs: seq<Param>, task: Task,
      table: map<Id, Value>): (r: Result<map<string, Value>, DaemonError>)
  {
    var _ :- CheckCounts(inputs, task);
    GatherInputs(inputs, task, table, |inputs|)
  }

  lemma {:induction false} GatherFails(inputs: seq<Param>, task: Task, table: map<Id, Value>, k: nat, m: nat)
    requires k <= m <= |inputs| && CheckCounts(inputs, task).Ok? && GatherInputs(inputs, task, table, k).Err?
    ensures GatherInputs(inputs, task, table, m) == GatherInputs(inputs, task, table, k)
    decreases m
  {
    hide InputValue, CheckCounts;
    if k < m { GatherFails(inputs, task, table, k, m - 1); }
  }

  // The body of the loop: the next public word or the next stored input.
  method NextInput(inputs: seq<Param>, task: Task, table: map<Id, Value>, k: nat, publicIndex: nat, privateIndex: nat)
    returns (v: Result<Value, DaemonError>)
    requires k < |inputs| && CheckCounts(inputs, task).Ok? && publicIndex == PublicCount(inputs[..k])
        && privateIndex == k - publicIndex
    ensures v == InputValue(inputs, task, table, k)
  {
    hide PublicWord, PublicCount;
    CountBounds(inputs, k);
    if PublicType(inputs[k].ty) {
      v := PublicWord(inputs[k].ty, task.publicInputs[publicIndex * 32..(publicIndex + 1) * 32]);
    } else if inputs[k].ty == FheUint || inputs[k].ty == Sint {
      v := StoredInput(table, task.privateIds[privateIndex]);
      if v.Ok? && v.value.ty != inputs[k].ty { v := Err(InvalidPrivateInputs); }
    } else {
      v := Err(UnsupportedParameter);
    }
  }

  method CountPublic(inputs: seq<Param>) returns (count: nat)
    ensures count == PublicCount(inputs)
  {
    count := 0;
    for k := 0 to |inputs|
      invariant count == PublicCount(inputs[..k])
    {
      assert inputs[..k + 1][..k] == inputs[..k];
      if PublicType(inputs[k].ty) { count := count + 1; }
    }
    assert inputs[..|inputs|] == inputs;
  }

  // The loop of the implementation, with its two running indices.
  method InvocationInputsLoop(inputs: seq<Param>, task: Task, table: map<Id, Value>)
    returns (r: Result<map<string, Value>, DaemonError>)
    ensures r == InvocationInputs(inputs, task, table)
  {
    hide InputValue;
    var count := CountPublic(inputs);
    if |task.publicInputs| != count * 32 { return Err(InvalidPublicInputs); }
    if |task.privateIds| != |inputs| - count { return Err(InvalidPrivateInputs); }
    var publicIndex, privateIndex := 0, 0;
    var values: map<string, Value> := map[];
    for k := 0 to |inputs|
      invariant publicIndex == PublicCount(inputs[..k]) && privateIndex == k - publicIndex
      invariant GatherInputs(inputs, task, table, k) == Ok(values)
    {
      assert inputs[..k + 1][..k] == inputs[..k];
      var v := NextInput(inputs, task, table, k, publicIndex, privateIndex);
      if v.Err? {
        GatherFails(inputs, task, table, k + 1, |inputs|);
        return Err(v.error);
      }
      if PublicType(inputs[k].ty) { publicIndex := publicIndex + 1; } else { privateIndex := privateIndex + 1; }
      values := values[inputs[k].name := v.value];
    }
    return Ok(values);
  }

  // ---- running one task ----

  function FindSelector(c: Config, functions: seq<FunctionManifest>,
      selector: seq<Byte>): (r: Option<FunctionManifest>)
  {
    if functions == [] then None
    else if c.selectorOf(functions[0]) == Some(selector) then Some(functions[0])
    else FindSelector(c, functions[1..], selector)
  }

  function SelectFunction(c: Config, task: Task): (r: Result<FunctionManifest, DaemonError>) {
    match FindSelector(c, c.manifest.functions, task.selector)
    case Some(f) => Ok(f)
    case None => Err(NoSuchFunction)
  }

  datatype TaskResult = TaskResult(outcome: Outcome, payload: seq<Byte>)

  function Lift<T>(r: Result<T, RuntimeError>): (d: Result<T, DaemonError>) {
    match r
    case Ok(v) => Ok(v)
    case Err(e) => Err(Runtime(e))
  }

  function WorldOf(c: Config, cells: Cells): (w: World) { World(LoadFrom(cells), c.backend) }

  function Encoded(id: Id, o: Outcome): (r: Result<TaskResult, DaemonError>) {
    var payload :- Encode(id, o);
    Ok(TaskResult(o, payload))
  }

  // The task run as a whole on one state of the cells.
  function RunTask(c: Config, task: Task, table: map<Id, Value>, cells: Cells): (r: Result<TaskResult, DaemonError>) {
    var f :- SelectFunction(c, task);
    var inputs :- InvocationInputs(f.inputs, task, table);
    var o :- Lift(Evaluate(c.manifest, f.name, WorldOf(c, cells), Invocation(task.requester, inputs)));
    Encoded(task.executionId, o)
  }

  // ---- one poll without interference ----

  datatype PollOutcome = Nothing | Waiting | PollSkipped(index: nat, id: Id) | Computed(index: nat, id: Id)

  // What the chain answers during a poll: how many tasks it has, and the changing part of the
  // task asked for.
  datatype Answer = Answer(count: nat, status: Status, member: bool)

  function PollOnce(c: Config, db: Db, a: Answer): (r: (Result<PollOutcome, DaemonError>, Db)) {
    var (index, touched) := NextExecutionIndex(db);
    if index >= a.count || index >= |c.queue| then (Ok(Nothing), touched)
    else
      var task := c.queue[index];
      if task.contractId != c.contractId || a.status.Terminal() then
        match CompleteExecution(touched, index, task.executionId, Skipped)
        case Ok(after) => (Ok(PollSkipped(index, task.executionId)), after)
        case Err(e) => (Err(Runtime(e)), touched)
      else if a.status != Running || !a.member then (Ok(Waiting), touched)
      else
        match RunTask(c, task, touched.inputs, touched.cells)
        case Err(e) => (Err(e), touched)
        case Ok(result) =>
          match CommitComputation(touched, index, task.executionId, result.outcome.writes, result.payload)
          case Ok(after) => (Ok(Computed(index, task.executionId)), after)
          case Err(e) => (Err(Runtime(e)), touched)
  }

  // The node's database, updated in place.
  class NodeDb {
    var cursor: Option<nat>
    var processed: map<nat, Processed>
    var outbox: map<Id, seq<Byte>>
    var cells: Cells
    var inputs: map<Id, Value>

    function Contents(): (db: Db)
      reads this
    {
      Db(cursor, processed, outbox, cells, inputs)
    }

    constructor (cells: Cells)
      ensures Contents() == Db(None, map[], map[], cells, map[])
    {
      cursor, processed, outbox, this.cells, inputs := None, map[], map[], cells, map[];
    }

    method NextIndex() returns (index: nat)
      modifies this`cursor
      ensures (index, Contents()) == NextExecutionIndex(old(Contents()))
    {
      if cursor.None? { cursor := Some(0); }
      index := cursor.value;
    }

    method Complete(index: nat, id: Id, outcome: TaskOutcome) returns (r: Result<(), RuntimeError>)
      modifies this
      ensures match CompleteExecution(old(Contents()), index, id, outcome)
              case Ok(after) => r == Ok(()) && Contents() == after
              case Err(e) => r == Err(e) && Contents() == old(Contents())
    {
      if cursor != Some(index) { return Err(CursorMismatch); }
      if index in processed || ProcessedId(Contents(), id) { return Err(PersistenceFailure); }
      processed := processed[index := Processed(id, outcome)];
      cursor := Some(index + 1);
      return Ok(());
    }

    // The upserts, the outbox row, the processed row and the cursor, or none of them.
    method CommitResult(index: nat, id: Id, writes: seq<StateWrite>, payload: seq<Byte>)
      returns (r: Result<(), RuntimeError>)
      modifies this
      ensures match CommitComputation(old(Contents()), index, id, writes, payload)
              case Ok(after) => r == Ok(()) && Contents() == after
              case Err(e) => r == Err(e) && Contents() == old(Contents())
    {
      if cursor != Some(index) { return Err(CursorMismatch); }
      var staged := cells;
      for i := 0 to |writes|
        invariant staged == CommitTo(cells, writes, i)
        invariant forall k :: 0 <= k < i ==> writes[k].value.ty != Void
      {
        if writes[i].value.ty == Void { return Err(InvalidValue); }
        staged := staged[(writes[i].state, writes[i].key) := writes[i].value];
      }
      if id in outbox || index in processed || ProcessedId(Contents(), id) { return Err(PersistenceFailure); }
      cells, outbox := staged, outbox[id := payload];
      processed, cursor := processed[index := Processed(id, Completed)], Some(index + 1);
      return Ok(());
    }

    method Poll(c: Config, a: Answer) returns (r: Result<PollOutcome, DaemonError>)
      modifies this
      ensures (r, Contents()) == PollOnce(c, old(Contents()), a)
    {
      hide InvocationInputs, EvaluateFunction, Encode, CompleteExecution, CommitComputation;
      var index := NextIndex();
      if index >= a.count || index >= |c.queue| { return Ok(Nothing); }
      var task := c.queue[index];
      if task.contractId != c.contractId || a.status.Terminal() {
        var done := Complete(index, task.executionId, Skipped);
        if done.Err? { return Err(Runtime(done.error)); }
        return Ok(PollSkipped(index, task.executionId));
      }
      if a.status != Running || !a.member { return Ok(Waiting); }
      var f := SelectFunction(c, task);
      if f.Err? { return Err(f.error); }
      var supplied := InvocationInputsLoop(f.value.inputs, task, inputs);
      if supplied.Err? { return Err(supplied.error); }
      var target := FindFunction(c.manifest.functions, f.value.name);
      if target.None? { return Err(Runtime(FunctionNotFound)); }
      var o := EvaluateLoop(c.manifest.state, target.value, WorldOf(c, cells),
          Invocation(task.requester, supplied.value));
      if o.Err? { return Err(Runtime(o.error)); }
      var payload := EncodeLoop(task.executionId, o.value);
      if payload.Err? { return Err(payload.error); }
      var committed := CommitResult(index, task.executionId, o.value.writes, payload.value);
      if committed.Err? { return Err(Runtime(committed.error)); }
      return Ok(Computed(index, task.executionId));
    }
  }
}
