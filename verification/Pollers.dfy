/** Any number of pollers on one node's database, interleaved and crashing at any point: every
    database transaction and every single read is one atomic step. */
module Pollers {
  import opened Wrappers
  import opened Bytes
  import opened Language
  import opened Manifests
  import opened Executor
  import opened StateStore
  import opened Outbox
  import opened Daemon

  // Where a poller is. Everything it knows was read in earlier steps and may be out of date.
  datatype Poller =
    | Idle
    | HasIndex(index: nat)
    | Skipping(index: nat)
    | Gathering(index: nat, f: FunctionManifest, k: nat, values: map<string, Value>)
    | Computing(index: nat, f: FunctionManifest, inv: Invocation, done: nat, x: ExecState)
    | Ready(index: nat, result: TaskResult)

  datatype Node = Node(db: Db, pollers: seq<Poller>)

  datatype Step =
    | ReadCursor(p: nat)
    | AskChain(p: nat, answer: Answer)
    | RecordSkip(p: nat)
    | GatherOne(p: nat)
    | ComputeOne(p: nat)
    | Publish(p: nat)
    | Crash(p: nat)
    | Upload(id: Id, value: Value)

  // ---- the steps of one poller: its new local state and the new database ----

  function AfterChain(c: Config, index: nat, a: Answer): (p: Poller) {
    if index >= a.count || index >= |c.queue| then Idle
    else if c.queue[index].contractId != c.contractId || a.status.Terminal() then Skipping(index)
    else if a.status != Running || !a.member then Idle
    else
      match SelectFunction(c, c.queue[index])
      case Err(_) => Idle
      case Ok(f) => if CheckCounts(f.inputs, c.queue[index]).Err? then Idle else Gathering(index, f, 0, map[])
  }

  function StartComputing(c: Config, index: nat, f: FunctionManifest, values: map<string, Value>): (p: Poller)
    requires index < |c.queue|
  {
    match FindFunction(c.manifest.functions, f.name)
    case None => Idle
    case Some(g) =>
      if CheckInputs(g.inputs, values).Err? then Idle
      else
        var inv := Invocation(c.queue[index].requester, values);
        CheckedInputs(g.inputs, values);
        Computing(index, g, inv, 0, ExecState(InitialValues(g.inputs, inv, |g.inputs|), []))
  }

  function AfterGather(c: Config, db: Db, p: Poller): (q: Poller)
    requires p.Gathering? && p.index < |c.queue|
  {
    var task := c.queue[p.index];
    if CheckCounts(p.f.inputs, task).Err? then Idle
    else if p.k >= |p.f.inputs| then StartComputing(c, p.index, p.f, p.values)
    else
      match InputValue(p.f.inputs, task, db.inputs, p.k)
      case Err(_) => Idle
      case Ok(v) => Gathering(p.index, p.f, p.k + 1, p.values[p.f.inputs[p.k].name := v])
  }

  // One operator, reading the cells as they are now; after the last one, the result.
  function AfterCompute(c: Config, db: Db, p: Poller): (q: Poller)
    requires p.Computing? && p.index < |c.queue|
  {
    if p.done < |p.f.operators| then
      match StepOperator(c.manifest.state, WorldOf(c, db.cells), p.f.operators[p.done], p.x)
      case Err(_) => Idle
      case Ok(y) => Computing(p.index, p.f, p.inv, p.done + 1, y)
    else
      match Lift(Finish(c.manifest.state, p.f, p.x))
      case Err(_) => Idle
      case Ok(o) =>
        match Encoded(c.queue[p.index].executionId, o)
        case Err(_) => Idle
        case Ok(result) => Ready(p.index, result)
  }

  function TryCommit(r: Result<Db, RuntimeError>, db: Db): (after: Db) { if r.Ok? then r.value else db }

  function Local(c: Config, db: Db, p: Poller, step: Step): (r: (Db, Poller)) {
    match step
    case ReadCursor(_) => if p.Idle? then (NextExecutionIndex(db).1, HasIndex(NextExecutionIndex(db).0)) else (db, p)
    case AskChain(_, a) => if p.HasIndex? then (db, AfterChain(c, p.index, a)) else (db, p)
    case RecordSkip(_) =>
      if p.Skipping? && p.index < |c.queue|
      then (TryCommit(CompleteExecution(db, p.index, c.queue[p.index].executionId, Skipped), db), Idle) else (db, p)
    case GatherOne(_) => if p.Gathering? && p.index < |c.queue| then (db, AfterGather(c, db, p)) else (db, p)
    case ComputeOne(_) => if p.Computing? && p.index < |c.queue| then (db, AfterCompute(c, db, p)) else (db, p)
    case Publish(_) =>
      if p.Ready? && p.index < |c.queue|
      then (TryCommit(CommitComputation(db, p.index, c.queue[p.index].executionId, p.result.outcome.writes,
          p.result.payload), db), Idle)
      else (db, p)
    case Crash(_) => (db, Idle)
    case Upload(id, v) => (EnqueueUpload(db, id, v), p)
  }

  function Next(c: Config, s: Node, step: Step): (t: Node) {
    match step
    case Upload(id, v) => s.(db := EnqueueUpload(s.db, id, v))
    case _ =>
      if step.p >= |s.pollers| then s
      else
        var r := Local(c, s.db, s.pollers[step.p], step);
        Node(r.0, s.pollers[step.p := r.1])
  }

  function RunSteps(c: Config, s: Node, steps: seq<Step>): (t: Node)
    decreases |steps|
  {
    if steps == [] then s else Next(c, RunSteps(c, s, steps[..|steps| - 1]), steps[|steps| - 1])
  }

  function FreshNode(cells: Cells, count: nat): (s: Node) {
    Node(Db(None, map[], map[], cells, map[]), seq(count, i => Idle))
  }

  // ---- the sequential meaning of a processed log ----

  datatype Replayed = Replayed(cells: Cells, outbox: map<Id, seq<Byte>>)

  // The first n tasks one after another in queue order, completed ones run as a whole.
  function Replay(c: Config, processed: map<nat, Processed>, table: map<Id, Value>, start: Cells,
      n: nat): (r: Option<Replayed>)
    requires n <= |c.queue|
  {
    if n == 0 then Some(Replayed(start, map[]))
    else
      match Replay(c, processed, table, start, n - 1)
      case None => None
      case Some(before) =>
        if n - 1 !in processed || processed[n - 1].outcome != Completed then Some(before)
        else
          match RunTask(c, c.queue[n - 1], table, before.cells)
          case Err(_) => None
          case Ok(result) =>
            Some(Replayed(Commit(before.cells, result.outcome.writes),
                before.outbox[c.queue[n - 1].executionId := result.payload]))
  }

  // ---- the invariant ----

  // Exactly the indices below the cursor are processed, each with its own task's id, and the
  // cells and the outbox are what running the completed tasks in queue order leaves.
  ghost predicate DbInv(c: Config, start: Cells, db: Db) {
    var n := CursorValue(db);
    && n <= |c.queue|
    && (forall i: nat :: i in db.processed <==> i < n)
    && (forall i :: i in db.processed ==> db.processed[i].executionId == c.queue[i].executionId)
    && Replay(c, db.processed, db.inputs, start, n) == Some(Replayed(db.cells, db.outbox))
  }

  // What a poller holds is right as long as its index is still the current one.
  ghost predicate PollerInv(c: Config, db: Db, p: Poller) {
    match p
    case Idle => true
    case HasIndex(i) => i <= CursorValue(db) && db.cursor.Some?
    case Skipping(i) => i <= CursorValue(db) && db.cursor.Some? && i < |c.queue|
    case Gathering(i, f, k, values) =>
      && i <= CursorValue(db) && db.cursor.Some? && i < |c.queue|
      && SelectFunction(c, c.queue[i]) == Ok(f) && CheckCounts(f.inputs, c.queue[i]).Ok?
      && k <= |f.inputs| && GatherInputs(f.inputs, c.queue[i], db.inputs, k) == Ok(values)
    case Computing(i, g, inv, done, x) =>
      && i <= CursorValue(db) && db.cursor.Some? && i < |c.queue|
      && Prepared(c, db, i, g, inv)
      && done <= |g.operators|
      && (i == CursorValue(db) ==>
        CheckedRun(c, db.cells, g, inv, done) == Ok(x))
    case Ready(i, result) =>
      && i <= CursorValue(db) && db.cursor.Some? && i < |c.queue|
      && (i == CursorValue(db) ==> RunTask(c, c.queue[i], db.inputs, db.cells) == Ok(result))
  }

  // The function and the invocation a task stands for.
  ghost predicate Prepared(c: Config, db: Db, i: nat, g: FunctionManifest, inv: Invocation)
    requires i < |c.queue|
  {
    && SelectFunction(c, c.queue[i]).Ok?
    && FindFunction(c.manifest.functions, SelectFunction(c, c.queue[i]).value.name) == Some(g)
    && InvocationInputs(SelectFunction(c, c.queue[i]).value.inputs, c.queue[i], db.inputs) == Ok(inv.inputs)
    && inv.sender == c.queue[i].requester && CheckInputs(g.inputs, inv.inputs).Ok?
  }

  // The first `done` operators on the given cells.
  ghost function CheckedRun(c: Config, cells: Cells, g: FunctionManifest, inv: Invocation,
      done: nat): (r: Result<ExecState, RuntimeError>)
    requires CheckInputs(g.inputs, inv.inputs).Ok? && done <= |g.operators|
  {
    CheckedInputs(g.inputs, inv.inputs);
    RunOperators(c.manifest.state, WorldOf(c, cells), g.operators[..done],
        ExecState(InitialValues(g.inputs, inv, |g.inputs|), []))
  }

  ghost predicate Inv(c: Config, start: Cells, s: Node) {
    && DbInv(c, start, s.db)
    && forall p :: 0 <= p < |s.pollers| ==> PollerInv(c, s.db, s.pollers[p])
  }

  // ---- inputs only grow ----

  ghost predicate Grows(a: map<Id, Value>, b: map<Id, Value>) { forall id :: id in a ==> id in b && b[id] == a[id] }

  lemma {:induction false} GatherGrows(inputs: seq<Param>, task: Task, a: map<Id, Value>, b: map<Id, Value>, k: nat)
    requires k <= |inputs| && CheckCounts(inputs, task).Ok? && Grows(a, b) && GatherInputs(inputs, task, a, k).Ok?
    ensures GatherInputs(inputs, task, b, k) == GatherInputs(inputs, task, a, k)
  {
    hide CheckCounts, PublicWord, PublicCount;
    if k > 0 { GatherGrows(inputs, task, a, b, k - 1); }
  }

  lemma RunGrows(c: Config, task: Task, a: map<Id, Value>, b: map<Id, Value>, cells: Cells)
    requires Grows(a, b) && RunTask(c, task, a, cells).Ok?
    ensures RunTask(c, task, b, cells) == RunTask(c, task, a, cells)
  {
    hide SelectFunction, CheckCounts, Evaluate, Encoded, GatherInputs, Grows;
    var f := SelectFunction(c, task).value;
    GatherGrows(f.inputs, task, a, b, |f.inputs|);
  }

  lemma {:induction false} ReplayGrows(c: Config, processed: map<nat, Processed>, a: map<Id, Value>, b: map<Id, Value>,
      start: Cells, n: nat)
    requires n <= |c.queue| && Grows(a, b) && Replay(c, processed, a, start, n).Some?
    ensures Replay(c, processed, b, start, n) == Replay(c, processed, a, start, n)
  {
    hide RunTask, Commit, Grows;
    if n > 0 {
      ReplayGrows(c, processed, a, b, start, n - 1);
      if n - 1 in processed && processed[n - 1].outcome == Completed {
        RunGrows(c, c.queue[n - 1], a, b, Replay(c, processed, a, start, n - 1).value.cells);
      }
    }
  }

  // Later rows do not change what the earlier ones replay to.
  lemma {:induction false} ReplayLocal(c: Config, a: map<nat, Processed>, b: map<nat, Processed>, table: map<Id, Value>,
      start: Cells, n: nat)
    requires n <= |c.queue| && forall i :: 0 <= i < n ==> (i in a <==> i in b) && (i in a ==> a[i] == b[i])
    ensures Replay(c, a, table, start, n) == Replay(c, b, table, start, n)
  {
    hide RunTask, Commit;
    if n > 0 { ReplayLocal(c, a, b, table, start, n - 1); }
  }

  lemma ReplayStep(c: Config, processed: map<nat, Processed>, table: map<Id, Value>, start: Cells, n: nat)
    requires n < |c.queue| && n in processed && Replay(c, processed, table, start, n).Some?
    ensures var before := Replay(c, processed, table, start, n).value;
        var result := RunTask(c, c.queue[n], table, before.cells);
      Replay(c, processed, table, start, n + 1)
      == if processed[n].outcome != Completed then Some(before)
         else if result.Err? then None
         else Some(Replayed(Commit(before.cells, result.value.outcome.writes),
             before.outbox[c.queue[n].executionId := result.value.payload]))
  {
    hide RunTask, Commit;
  }

  // ---- every step keeps the invariant ----

  // How a step may change the database: only the transaction at the cursor moves it on.
  ghost predicate Moves(a: Db, b: Db) {
    && Grows(a.inputs, b.inputs) && (a.cursor.Some? ==> b.cursor.Some?)
    && ((CursorValue(b) == CursorValue(a) && b.cells == a.cells) || CursorValue(b) == CursorValue(a) + 1)
  }

  lemma PollerKeeps(c: Config, a: Db, b: Db, p: Poller)
    requires Moves(a, b) && PollerInv(c, a, p)
    ensures PollerInv(c, b, p)
  {
    hide RunTask, CheckCounts, SelectFunction, Grows, CheckedRun, CheckInputs;
    match p
    case Gathering(i, f, k, values) => GatherGrows(f.inputs, c.queue[i], a.inputs, b.inputs, k);
    case Computing(i, g, inv, done, x) => PreparedGrows(c, a, b, i, g, inv);
    case Ready(i, result) => if i == CursorValue(b) { RunGrows(c, c.queue[i], a.inputs, b.inputs, a.cells); }
    case _ =>
  }

  lemma PreparedGrows(c: Config, a: Db, b: Db, i: nat, g: FunctionManifest, inv: Invocation)
    requires i < |c.queue| && Grows(a.inputs, b.inputs) && Prepared(c, a, i, g, inv)
    ensures Prepared(c, b, i, g, inv)
  {
    hide SelectFunction, CheckCounts, GatherInputs, Grows, CheckInputs;
    var f := SelectFunction(c, c.queue[i]).value;
    GatherGrows(f.inputs, c.queue[i], a.inputs, b.inputs, |f.inputs|);
  }

  lemma UploadMoves(c: Config, start: Cells, db: Db, id: Id, v: Value)
    requires DbInv(c, start, db)
    ensures Moves(db, EnqueueUpload(db, id, v)) && DbInv(c, start, EnqueueUpload(db, id, v))
  {
    hide RunTask, Replay;
    ReplayGrows(c, db.processed, db.inputs, EnqueueUpload(db, id, v).inputs, start, CursorValue(db));
  }

  lemma SkipMoves(c: Config, start: Cells, db: Db, index: nat)
    requires DbInv(c, start, db) && index < |c.queue|
    ensures var after := TryCommit(CompleteExecution(db, index, c.queue[index].executionId, Skipped), db);
      Moves(db, after) && DbInv(c, start, after)
  {
    var r := CompleteExecution(db, index, c.queue[index].executionId, Skipped);
    hide RunTask, Commit, Replay, ProcessedId;
    if r.Ok? {
      ReplayLocal(c, db.processed, r.value.processed, db.inputs, start, index);
      ReplayStep(c, r.value.processed, db.inputs, start, index);
    }
  }

  lemma CommitMoves(c: Config, start: Cells, db: Db, index: nat, result: TaskResult)
    requires DbInv(c, start, db) && index < |c.queue|
    requires index == CursorValue(db) ==> RunTask(c, c.queue[index], db.inputs, db.cells) == Ok(result)
    ensures var after := TryCommit(CommitComputation(db, index, c.queue[index].executionId, result.outcome.writes,
        result.payload), db);
      Moves(db, after) && DbInv(c, start, after)
  {
    hide RunTask, Commit, Storable, Replay;
    var r := CommitComputation(db, index, c.queue[index].executionId, result.outcome.writes, result.payload);
    if r.Ok? {
      ReplayLocal(c, db.processed, r.value.processed, db.inputs, start, index);
      ReplayStep(c, r.value.processed, db.inputs, start, index);
    }
  }

  lemma ReadMoves(c: Config, start: Cells, db: Db)
    requires DbInv(c, start, db)
    ensures Moves(db, NextExecutionIndex(db).1) && DbInv(c, start, NextExecutionIndex(db).1)
  {
    hide RunTask, Replay;
  }

  lemma ChainAnswered(c: Config, db: Db, index: nat, a: Answer)
    requires PollerInv(c, db, HasIndex(index))
    ensures PollerInv(c, db, AfterChain(c, index, a))
  {
    hide SelectFunction, CheckCounts, RunTask;
  }

  lemma Gathered(c: Config, db: Db, p: Poller)
    requires p.Gathering? && PollerInv(c, db, p)
    ensures PollerInv(c, db, AfterGather(c, db, p))
  {
    hide SelectFunction, CheckCounts, InputValue, RunTask, CheckInputs, InitialValues;
    if p.k >= |p.f.inputs| {
      var g := FindFunction(c.manifest.functions, p.f.name);
      if g.Some? && CheckInputs(g.value.inputs, p.values).Ok? {
        RunNone(c, db.cells, g.value, Invocation(c.queue[p.index].requester, p.values));
      }
    }
  }

  lemma RunNone(c: Config, cells: Cells, g: FunctionManifest, inv: Invocation)
    requires CheckInputs(g.inputs, inv.inputs).Ok?
    ensures |inv.inputs| == |g.inputs| && forall i :: 0 <= i < |g.inputs| ==> g.inputs[i].name in inv.inputs
    ensures CheckedRun(c, cells, g, inv, 0) == Ok(ExecState(InitialValues(g.inputs, inv, |g.inputs|), []))
  {
    hide InitialValues;
    CheckedInputs(g.inputs, inv.inputs);
  }

  lemma RunOneMore(c: Config, cells: Cells, g: FunctionManifest, inv: Invocation, done: nat, x: ExecState)
    requires CheckInputs(g.inputs, inv.inputs).Ok? && done < |g.operators|
    requires CheckedRun(c, cells, g, inv, done) == Ok(x)
    ensures CheckedRun(c, cells, g, inv, done + 1)
        == StepOperator(c.manifest.state, WorldOf(c, cells), g.operators[done], x)
  {
    hide StepOperator, InitialValues, CheckInputs, RunOperators;
    CheckedInputs(g.inputs, inv.inputs);
    assert g.operators[..done + 1] == g.operators[..done] + [g.operators[done]];
    RunSnoc(c.manifest.state, WorldOf(c, cells), g.operators[..done], g.operators[done],
        ExecState(InitialValues(g.inputs, inv, |g.inputs|), []));
  }

  // The pieces a poller computed are the task run as a whole.
  lemma RunAssembles(c: Config, db: Db, i: nat, g: FunctionManifest, inv: Invocation, x: ExecState)
    requires i < |c.queue| && Prepared(c, db, i, g, inv) && CheckedRun(c, db.cells, g, inv, |g.operators|) == Ok(x)
    ensures RunTask(c, c.queue[i], db.inputs, db.cells)
            == match Lift(Finish(c.manifest.state, g, x))
               case Err(e) => Err(e)
               case Ok(o) => Encoded(c.queue[i].executionId, o)
  {
    hide SelectFunction, InvocationInputs, Finish, Encoded, RunOperators, InitialValues, CheckInputs;
    CheckedInputs(g.inputs, inv.inputs);
    assert g.operators[..|g.operators|] == g.operators;
  }

  lemma ComputedOne(c: Config, db: Db, p: Poller)
    requires p.Computing? && PollerInv(c, db, p)
    ensures PollerInv(c, db, AfterCompute(c, db, p))
  {
    hide SelectFunction, InvocationInputs, RunTask, CheckedRun, Finish, Encoded, StepOperator, Prepared;
    PreparedChecks(c, db, p.index, p.f, p.inv);
    if p.index == CursorValue(db) {
      if p.done < |p.f.operators| {
        RunOneMore(c, db.cells, p.f, p.inv, p.done, p.x);
      } else {
        RunAssembles(c, db, p.index, p.f, p.inv, p.x);
      }
    }
  }

  lemma PreparedChecks(c: Config, db: Db, i: nat, g: FunctionManifest, inv: Invocation)
    requires i < |c.queue| && Prepared(c, db, i, g, inv)
    ensures CheckInputs(g.inputs, inv.inputs).Ok?
  {
    hide SelectFunction, InvocationInputs;
  }

  // One step of one poller keeps the database right, moves it as allowed, and leaves the poller
  // with knowledge that is right for the new database.
  lemma LocalKeeps(c: Config, start: Cells, db: Db, p: Poller, step: Step)
    requires DbInv(c, start, db) && PollerInv(c, db, p)
    ensures var r := Local(c, db, p, step); DbInv(c, start, r.0) && Moves(db, r.0) && PollerInv(c, r.0, r.1)
  {
    hide DbInv, Moves, PollerInv, NextExecutionIndex, AfterChain, AfterGather, AfterCompute, CompleteExecution;
    hide CommitComputation, EnqueueUpload;
    StayMoves(db);
    match step
    case ReadCursor(_) =>
      if p.Idle? {
        ReadMoves(c, start, db);
        IndexRead(c, db);
      }
    case AskChain(_, a) => if p.HasIndex? { ChainAnswered(c, db, p.index, a); }
    case RecordSkip(_) =>
      if p.Skipping? && p.index < |c.queue| { SkipMoves(c, start, db, p.index); }
      IdleInv(c, Local(c, db, p, step).0);
    case GatherOne(_) => if p.Gathering? { Gathered(c, db, p); }
    case ComputeOne(_) => if p.Computing? { ComputedOne(c, db, p); }
    case Publish(_) =>
      if p.Ready? && p.index < |c.queue| {
        ReadyMeans(c, db, p);
        CommitMoves(c, start, db, p.index, p.result);
      }
      IdleInv(c, Local(c, db, p, step).0);
    case Crash(_) => IdleInv(c, db);
    case Upload(id, v) =>
      UploadMoves(c, start, db, id, v);
      PollerKeeps(c, db, EnqueueUpload(db, id, v), p);
  }

  lemma StayMoves(db: Db)
    ensures Moves(db, db)
  {
  }

  lemma IdleInv(c: Config, db: Db)
    ensures PollerInv(c, db, Idle)
  {
  }

  lemma IndexRead(c: Config, db: Db)
    ensures PollerInv(c, NextExecutionIndex(db).1, HasIndex(NextExecutionIndex(db).0))
  {
  }

  lemma ReadyMeans(c: Config, db: Db, p: Poller)
    requires p.Ready? && PollerInv(c, db, p)
    ensures p.index < |c.queue| && (p.index == CursorValue(db)
        ==> RunTask(c, c.queue[p.index], db.inputs, db.cells) == Ok(p.result))
  {
  }

  lemma StepKeeps(c: Config, start: Cells, s: Node, step: Step)
    requires Inv(c, start, s)
    ensures Inv(c, start, Next(c, s, step)) && Moves(s.db, Next(c, s, step).db)
  {
    hide DbInv, PollerInv, Moves, Local, EnqueueUpload;
    StayMoves(s.db);
    var t := Next(c, s, step);
    if step.Upload? {
      UploadMoves(c, start, s.db, step.id, step.value);
    } else if step.p < |s.pollers| {
      LocalKeeps(c, start, s.db, s.pollers[step.p], step);
    }
    forall p | 0 <= p < |t.pollers| ensures PollerInv(c, t.db, t.pollers[p]) {
      if step.Upload? || p != step.p {
        PollerKeeps(c, s.db, t.db, t.pollers[p]);
      }
    }
  }

  // Every interleaving and every crash point: the invariant holds after any sequence of steps.
  lemma {:induction false} RunsKeep(c: Config, start: Cells, count: nat, steps: seq<Step>)
    ensures Inv(c, start, RunSteps(c, FreshNode(start, count), steps))
    decreases |steps|
  {
    hide Next, DbInv, PollerInv;
    if steps == [] {
      FreshInv(c, start, count);
    } else {
      RunsKeep(c, start, count, steps[..|steps| - 1]);
      StepKeeps(c, start, RunSteps(c, FreshNode(start, count), steps[..|steps| - 1]), steps[|steps| - 1]);
    }
  }

  lemma FreshInv(c: Config, start: Cells, count: nat)
    ensures Inv(c, start, FreshNode(start, count))
  {
    hide RunTask, SelectFunction, Prepared, CheckedRun, GatherInputs, CheckCounts;
  }

  // ---- what the invariant says about the outbox ----

  predicate DistinctIds(c: Config) {
    forall i, j :: 0 <= i < j < |c.queue| ==> c.queue[i].executionId != c.queue[j].executionId
  }

  // An outbox row per completed task, holding that task's payload, and no other row.
  lemma {:induction false} OutboxRows(c: Config, processed: map<nat, Processed>, table: map<Id, Value>, start: Cells,
      n: nat)
    requires n <= |c.queue| && Replay(c, processed, table, start, n).Some?
    ensures forall id :: id in Replay(c, processed, table, start, n).value.outbox <==>
      exists i :: 0 <= i < n && i in processed && processed[i].outcome == Completed && c.queue[i].executionId == id
  {
    hide RunTask, Commit;
    if n > 0 {
      OutboxRows(c, processed, table, start, n - 1);
      var before, after := Replay(c, processed, table, start, n - 1).value, Replay(c, processed, table, start, n).value;
      forall id ensures id in after.outbox <==>
        exists i :: 0 <= i < n && i in processed && processed[i].outcome == Completed && c.queue[i].executionId == id
      {
        if n - 1 in processed && processed[n - 1].outcome == Completed && c.queue[n - 1].executionId == id {
          assert id in after.outbox;
        } else {
          assert id in after.outbox <==> id in before.outbox;
        }
      }
    }
  }

  // The main theorem. After any interleaving of any number of pollers with crashes anywhere: the
  // processed log is exactly the indices below the cursor; every completed task has its outbox
  // row and there is no other; and cells and outbox are those of running the completed tasks one
  // after another in queue order.
  lemma DaemonSafety(c: Config, start: Cells, count: nat, steps: seq<Step>)
    ensures var db := RunSteps(c, FreshNode(start, count), steps).db; var n := CursorValue(db);
      && n <= |c.queue|
      && (forall i: nat :: i in db.processed <==> i < n)
      && (forall i :: i in db.processed ==> db.processed[i].executionId == c.queue[i].executionId)
      && (forall id :: id in db.outbox <==> exists i ::
          0 <= i < n && db.processed[i].outcome == Completed && c.queue[i].executionId == id)
      && Replay(c, db.processed, db.inputs, start, n) == Some(Replayed(db.cells, db.outbox))
  {
    hide RunSteps, Replay, PollerInv;
    RunsKeep(c, start, count, steps);
    var db := RunSteps(c, FreshNode(start, count), steps).db;
    OutboxRows(c, db.processed, db.inputs, start, CursorValue(db));
  }

  // Progress: with different ids in the queue, a poller that finished the current task always
  // gets its transaction through, so only a lost race makes a publication fail.
  lemma CurrentPublishes(c: Config, start: Cells, db: Db, p: Poller)
    requires DbInv(c, start, db) && DistinctIds(c) && PollerInv(c, db, p) && p.Ready?
        && Storable(p.result.outcome.writes)
    ensures CommitComputation(db, p.index, c.queue[p.index].executionId, p.result.outcome.writes, p.result.payload).Ok?
            <==> p.index == CursorValue(db)
  {
    hide Replay, RunTask, Storable, Commit;
    OutboxRows(c, db.processed, db.inputs, start, CursorValue(db));
    var id := c.queue[p.index].executionId;
    if p.index == CursorValue(db) {
      assert !ProcessedId(db, id);
      assert id !in db.outbox;
    }
  }

  // ---- a poll that nobody disturbs is one of these runs ----

  lemma {:induction false} RunJoin(c: Config, s: Node, a: seq<Step>, b: seq<Step>)
    ensures RunSteps(c, s, a + b) == RunSteps(c, RunSteps(c, s, a), b)
    decreases |b|
  {
    hide Next;
    if b == [] {
      assert a + b == a;
    } else {
      assert (a + b)[..|a + b| - 1] == a + b[..|b| - 1];
      RunJoin(c, s, a, b[..|b| - 1]);
    }
  }

  lemma RunFirst(c: Config, s: Node, first: Step, rest: seq<Step>)
    ensures RunSteps(c, s, [first] + rest) == RunSteps(c, Next(c, s, first), rest)
  {
    hide Next;
    RunJoin(c, s, [first], rest);
    assert [first][..0] == [];
    assert RunSteps(c, s, []) == s;
    assert RunSteps(c, s, [first]) == Next(c, s, first);
  }

  function With(s: Node, p: nat, q: Poller): (t: Node)
    requires p < |s.pollers|
  {
    s.(pollers := s.pollers[p := q])
  }

  // One input of the loop, as the next step of its poller.
  lemma GatherStep(c: Config, s: Node, p: nat, i: nat, f: FunctionManifest, k: nat, values: map<string, Value>)
    requires p < |s.pollers| && s.pollers[p] == Gathering(i, f, k, values) && i < |c.queue|
    requires CheckCounts(f.inputs, c.queue[i]).Ok? && k <= |f.inputs|
        && GatherInputs(f.inputs, c.queue[i], s.db.inputs, k) == Ok(values)
    ensures var next := AfterGather(c, s.db, s.pollers[p]);
      && Next(c, s, GatherOne(p)) == With(s, p, next)
      && (k == |f.inputs| ==> next == StartComputing(c, i, f, values))
      && (k < |f.inputs| ==>
          match GatherInputs(f.inputs, c.queue[i], s.db.inputs, k + 1)
          case Err(_) => next == Idle
          case Ok(more) => next == Gathering(i, f, k + 1, more))
  {
    hide InputValue, CheckCounts, StartComputing;
  }

  lemma {:induction false} GatherRun(c: Config, s: Node, p: nat, i: nat, f: FunctionManifest, k: nat,
      values: map<string, Value>) returns (steps: seq<Step>)
    requires p < |s.pollers| && s.pollers[p] == Gathering(i, f, k, values) && i < |c.queue|
    requires CheckCounts(f.inputs, c.queue[i]).Ok? && k <= |f.inputs|
        && GatherInputs(f.inputs, c.queue[i], s.db.inputs, k) == Ok(values)
    ensures RunSteps(c, s, steps) == With(s, p, match GatherInputs(f.inputs, c.queue[i], s.db.inputs, |f.inputs|)
                                                 case Err(_) => Idle
                                                 case Ok(all) => StartComputing(c, i, f, all))
    decreases |f.inputs| - k
  {
    hide InputValue, CheckCounts, StartComputing, GatherInputs, AfterGather, Next;
    GatherStep(c, s, p, i, f, k, values);
    var step := GatherOne(p);
    var next := AfterGather(c, s.db, s.pollers[p]);
    if k == |f.inputs| {
      steps := [step] + [];
      RunFirst(c, s, step, []);
    } else if GatherInputs(f.inputs, c.queue[i], s.db.inputs, k + 1).Err? {
      GatherFails(f.inputs, c.queue[i], s.db.inputs, k + 1, |f.inputs|);
      steps := [step] + [];
      RunFirst(c, s, step, []);
    } else {
      var rest := GatherRun(c, With(s, p, next), p, i, f, k + 1, next.values);
      steps := [step] + rest;
      RunFirst(c, s, step, rest);
    }
  }

  lemma {:induction false} ComputeRun(c: Config, s: Node, p: nat, i: nat, g: FunctionManifest, inv: Invocation,
      done: nat, x: ExecState) returns (steps: seq<Step>)
    requires p < |s.pollers| && s.pollers[p] == Computing(i, g, inv, done, x) && i < |c.queue|
    requires CheckInputs(g.inputs, inv.inputs).Ok? && done <= |g.operators|
        && CheckedRun(c, s.db.cells, g, inv, done) == Ok(x)
    ensures RunSteps(c, s, steps) == With(s, p, match CheckedRun(c, s.db.cells, g, inv, |g.operators|)
                                                 case Err(_) => Idle
                                                 case Ok(y) =>
                                                   AfterCompute(c, s.db, Computing(i, g, inv, |g.operators|, y)))
    decreases |g.operators| - done
  {
    hide CheckInputs, CheckedRun, StepOperator, Finish, Encoded;
    var step := ComputeOne(p);
    var next := AfterCompute(c, s.db, s.pollers[p]);
    assert Next(c, s, step) == With(s, p, next);
    if done == |g.operators| {
      steps := [step] + [];
      RunFirst(c, s, step, []);
    } else {
      RunOneMore(c, s.db.cells, g, inv, done, x);
      if next.Idle? {
        CheckedFails(c, s.db.cells, g, inv, done + 1);
        steps := [step] + [];
        RunFirst(c, s, step, []);
      } else {
        var rest := ComputeRun(c, With(s, p, next), p, i, g, inv, done + 1, next.x);
        steps := [step] + rest;
        RunFirst(c, s, step, rest);
      }
    }
  }

  lemma CheckedFails(c: Config, cells: Cells, g: FunctionManifest, inv: Invocation, done: nat)
    requires CheckInputs(g.inputs, inv.inputs).Ok? && done <= |g.operators| && CheckedRun(c, cells, g, inv, done).Err?
    ensures CheckedRun(c, cells, g, inv, |g.operators|) == CheckedRun(c, cells, g, inv, done)
  {
    CheckedInputs(g.inputs, inv.inputs);
    var start := ExecState(InitialValues(g.inputs, inv, |g.inputs|), []);
    RunFails(c.manifest.state, WorldOf(c, cells), g.operators[..done], g.operators[done..], start);
    assert g.operators[..done] + g.operators[done..] == g.operators && g.operators[..|g.operators|] == g.operators;
  }

  // What is left of a task once its inputs are gathered.
  function AfterInputs(c: Config, db: Db, i: nat, f: FunctionManifest,
      values: map<string, Value>): (r: Result<TaskResult, DaemonError>)
    requires i < |c.queue|
  {
    var o :- Lift(Evaluate(c.manifest, f.name, WorldOf(c, db.cells), Invocation(c.queue[i].requester, values)));
    Encoded(c.queue[i].executionId, o)
  }

  lemma EvaluateRun(c: Config, s: Node, p: nat, i: nat, f: FunctionManifest, values: map<string, Value>)
    returns (steps: seq<Step>)
    requires p < |s.pollers| && i < |c.queue| && s.pollers[p] == StartComputing(c, i, f, values)
    ensures RunSteps(c, s, steps) == With(s, p, match AfterInputs(c, s.db, i, f, values)
                                                 case Err(_) => Idle
                                                 case Ok(result) => Ready(i, result))
  {
    hide RunOperators, InitialValues, CheckInputs, Finish, Encoded, LoadFrom;
    var g := FindFunction(c.manifest.functions, f.name);
    var inv := Invocation(c.queue[i].requester, values);
    if g.None? || CheckInputs(g.value.inputs, values).Err? {
      steps := [];
      assert s.pollers[p := Idle] == s.pollers;
    } else {
      CheckedInputs(g.value.inputs, values);
      RunNone(c, s.db.cells, g.value, inv);
      steps := ComputeRun(c, s, p, i, g.value, inv, 0,
          ExecState(InitialValues(g.value.inputs, inv, |g.value.inputs|), []));
      assert g.value.operators[..|g.value.operators|] == g.value.operators;
    }
  }

  lemma PublishRun(c: Config, s: Node, p: nat, i: nat, r: Result<TaskResult, DaemonError>) returns (steps: seq<Step>)
    requires p < |s.pollers| && i < |c.queue|
        && s.pollers[p] == (match r case Err(_) => Idle case Ok(result) => Ready(i, result))
    ensures RunSteps(c, s, steps) == Node(match r
                                          case Err(_) => s.db
                                          case Ok(result) =>
                                            TryCommit(CommitComputation(s.db, i, c.queue[i].executionId,
                                            result.outcome.writes, result.payload), s.db),
                                          s.pollers[p := Idle])
  {
    hide CommitComputation;
    if r.Err? {
      steps := [];
      assert s.pollers[p := Idle] == s.pollers;
    } else {
      steps := [Publish(p)] + [];
      RunFirst(c, s, Publish(p), []);
    }
  }

  // Running the task part of a poll, from the first input to the transaction.
  lemma TaskRun(c: Config, s: Node, p: nat, i: nat, f: FunctionManifest) returns (steps: seq<Step>)
    requires p < |s.pollers| && i < |c.queue| && SelectFunction(c, c.queue[i]) == Ok(f)
        && CheckCounts(f.inputs, c.queue[i]).Ok?
    requires s.pollers[p] == Gathering(i, f, 0, map[])
    ensures RunSteps(c, s, steps) == Node(match RunTask(c, c.queue[i], s.db.inputs, s.db.cells)
                                          case Err(_) => s.db
                                          case Ok(result) =>
                                            TryCommit(CommitComputation(s.db, i, c.queue[i].executionId,
                                            result.outcome.writes, result.payload), s.db),
                                          s.pollers[p := Idle])
  {
    hide CheckCounts, SelectFunction, GatherInputs, StartComputing, Evaluate, Encoded, CommitComputation, RunSteps;
    GatherNone(f.inputs, c.queue[i], s.db.inputs);
    var gather := GatherRun(c, s, p, i, f, 0, map[]);
    var all := GatherInputs(f.inputs, c.queue[i], s.db.inputs, |f.inputs|);
    if all.Err? {
      steps := gather;
    } else {
      var t := With(s, p, StartComputing(c, i, f, all.value));
      var compute := EvaluateRun(c, t, p, i, f, all.value);
      var r := AfterInputs(c, s.db, i, f, all.value);
      var u := With(t, p, match r case Err(_) => Idle case Ok(result) => Ready(i, result));
      var publish := PublishRun(c, u, p, i, r);
      RunJoin(c, s, gather, compute);
      RunJoin(c, s, gather + compute, publish);
      steps := gather + compute + publish;
      assert u.pollers[p := Idle] == s.pollers[p := Idle];
    }
  }

  lemma GatherNone(inputs: seq<Param>, task: Task, table: map<Id, Value>)
    requires CheckCounts(inputs, task).Ok?
    ensures GatherInputs(inputs, task, table, 0) == Ok(map[])
  {
  }

  lemma ChainRun(c: Config, s: Node, p: nat, a: Answer) returns (t: Node, steps: seq<Step>)
    requires p < |s.pollers| && s.pollers[p] == Idle
    ensures RunSteps(c, s, steps) == t
    ensures t == Node(NextExecutionIndex(s.db).1, s.pollers[p := AfterChain(c, NextExecutionIndex(s.db).0, a)])
  {
    hide AfterChain, NextExecutionIndex;
    var first, second := ReadCursor(p), AskChain(p, a);
    steps := [first] + ([second] + []);
    RunFirst(c, s, first, [second] + []);
    RunFirst(c, Next(c, s, first), second, []);
    t := Next(c, Next(c, s, first), second);
    assert RunSteps(c, t, []) == t;
  }

  // An undisturbed poll is a run of one poller, so every guarantee about runs holds of it.
  lemma PollIsRun(c: Config, s: Node, p: nat, a: Answer) returns (steps: seq<Step>)
    requires p < |s.pollers| && s.pollers[p] == Idle
    ensures RunSteps(c, s, steps) == Node(PollOnce(c, s.db, a).1, s.pollers)
  {
    hide RunTask, CompleteExecution, CommitComputation, RunSteps, CheckCounts, SelectFunction;
    var t, chain := ChainRun(c, s, p, a);
    var q := t.pollers[p];
    var index := NextExecutionIndex(s.db).0;
    assert t.pollers[p := Idle] == s.pollers;
    if q.Skipping? {
      RunFirst(c, t, RecordSkip(p), []);
      RunJoin(c, s, chain, [RecordSkip(p)] + []);
      steps := chain + ([RecordSkip(p)] + []);
      RunEmpty(c, Next(c, t, RecordSkip(p)));
    } else if q.Gathering? {
      var rest := TaskRun(c, t, p, index, q.f);
      RunJoin(c, s, chain, rest);
      steps := chain + rest;
    } else {
      steps := chain;
      if index < a.count && index < |c.queue| && a.status == Running && a.member
          && c.queue[index].contractId == c.contractId {
        TaskStops(c, index, t.db);
      }
      assert t.pollers == s.pollers;
    }
  }

  lemma RunEmpty(c: Config, s: Node)
    ensures RunSteps(c, s, []) == s
  {
  }

  lemma TaskStops(c: Config, index: nat, db: Db)
    requires index < |c.queue|
    requires SelectFunction(c, c.queue[index]).Ok?
        ==> CheckCounts(SelectFunction(c, c.queue[index]).value.inputs, c.queue[index]).Err?
    ensures RunTask(c, c.queue[index], db.inputs, db.cells).Err?
  {
    hide SelectFunction, CheckCounts, GatherInputs, Evaluate;
  }
}
