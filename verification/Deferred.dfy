/** When deferring assignments to the end of a function is the same as performing them at once. */
module Deferred {
  import opened Wrappers
  import opened Bytes
  import opened Language
  import opened Manifests
  import opened Lowering
  import opened Executor
  import opened Interpreter
  import opened Preservation
  import opened StateStore

  // ---- assignment by assignment ----

  datatype SeqState = SeqState(env: map<string, Val>, hostCalls: seq<HostCall>, cells: Cells, opening: Option<Val>)

  // A statement reads the current cells, and its assignment takes effect at once.
  function SeqStatement(states: seq<StateDecl>, k: Backend, q: SeqState,
      st: Statement): (r: Result<SeqState, RuntimeError>)
  {
    var i :- InterpretStatement(states, World(LoadFrom(q.cells), k), SourceState(q.env, q.hostCalls, [], q.opening),
        st);
    var writes :- CheckLog(states, i.log, |i.log|);
    Ok(SeqState(i.env, i.hostCalls, Commit(q.cells, writes), i.opening))
  }

  function SeqBody(states: seq<StateDecl>, f: Function, k: Backend, cells: Cells, inv: Invocation,
      n: nat): (r: Result<SeqState, RuntimeError>)
    requires n <= |f.body| && HasInputs(f, inv)
  {
    if n == 0 then Ok(SeqState(StartEnv(f.params, inv, |f.params|), [], cells, None))
    else
      var q :- SeqBody(states, f, k, cells, inv, n - 1);
      SeqStatement(states, k, q, f.body[n - 1])
  }

  // What a caller of either executor sees: calls, opening and the cells left behind.
  datatype Visible = Visible(hostCalls: seq<HostCall>, opening: Option<Value>, cells: Cells)

  function RunSequential(states: seq<StateDecl>, f: Function, k: Backend, cells: Cells,
      inv: Invocation): (r: Result<Visible, RuntimeError>)
    requires HasInputs(f, inv)
  {
    var q :- SeqBody(states, f, k, cells, inv, |f.body|);
    var shown :- ShowOpening(q.opening);
    Ok(Visible(q.hostCalls, shown, q.cells))
  }

  function RunDeferred(states: seq<StateDecl>, f: Function, k: Backend, cells: Cells,
      inv: Invocation): (r: Result<Visible, RuntimeError>)
    requires HasInputs(f, inv)
  {
    var s :- InterpretBody(states, f, World(LoadFrom(cells), k), inv, |f.body|);
    var o :- Conclude(states, s);
    Ok(Visible(o.hostCalls, o.opening, Commit(cells, o.writes)))
  }

  // ---- loads that do not meet earlier assignments ----

  predicate LoadsOutside(s: string, key: Val, writes: seq<StateWrite>) {
    Force(key).Ok? && StateKey(Force(key).value).Ok? ==> !Writes(writes, (s, StateKey(Force(key).value).value))
  }

  predicate ExprFresh(states: seq<StateDecl>, w: World, env: map<string, Val>, e: Expression, hostCalls: seq<HostCall>,
      writes: seq<StateWrite>)
    decreases e
  {
    match e
    case Name(_) => true
    case Number(_) => true
    case Index(s, k) =>
      && ExprFresh(states, w, env, k, hostCalls, writes)
      && (var key := InterpretExpr(states, w, env, k, hostCalls); key.Ok? ==> LoadsOutside(s, key.value.value, writes))
    case Call(_, args) => ArgsFresh(states, w, env, args, hostCalls, writes)
  }

  predicate ArgsFresh(states: seq<StateDecl>, w: World, env: map<string, Val>, args: seq<Expression>,
      hostCalls: seq<HostCall>, writes: seq<StateWrite>)
    decreases args
  {
    args != [] ==>
      var last := |args| - 1;
      && ArgsFresh(states, w, env, args[..last], hostCalls, writes)
      && (var init := InterpretArgs(states, w, env, args[..last], hostCalls);
          init.Ok? ==> ExprFresh(states, w, env, args[last], init.value.hostCalls, writes))
  }

  // No load of the statement meets a cell already assigned.
  predicate StatementFresh(states: seq<StateDecl>, w: World, s: SourceState, st: Statement, writes: seq<StateWrite>) {
    var e := if st.Require? then st.condition else st.value;
    && ExprFresh(states, w, s.env, e, s.hostCalls, writes)
    && (var v := InterpretExpr(states, w, s.env, e, s.hostCalls);
        v.Ok? && st.Assign? && st.target.Index? ==>
        ExprFresh(states, w, s.env, st.target.key, v.value.hostCalls, writes))
  }

  // The two worlds differ only in the cells written.
  ghost predicate SameOutside(a: World, b: World, writes: seq<StateWrite>) {
    a.backend == b.backend && forall s, k {:trigger b.load(s, k)} ::
        !Writes(writes, (s, k)) ==> a.load(s, k) == b.load(s, k)
  }

  lemma {:induction false} FreshExpr(states: seq<StateDecl>, a: World, b: World, env: map<string, Val>, e: Expression,
      hostCalls: seq<HostCall>, writes: seq<StateWrite>)
    requires SameOutside(a, b, writes) && ExprFresh(states, a, env, e, hostCalls, writes)
    ensures InterpretExpr(states, a, env, e, hostCalls) == InterpretExpr(states, b, env, e, hostCalls)
    decreases e
  {
    hide Apply, BuiltinNamed, ForceAll, SameOutside, LoadCell;
    match e
    case Name(_) =>
    case Number(_) =>
    case Index(s, k) =>
      FreshExpr(states, a, b, env, k, hostCalls, writes);
      var key := InterpretExpr(states, a, env, k, hostCalls);
      if key.Ok? {
        FreshLoad(states, a, b, s, key.value.value, writes);
      }
    case Call(f, args) =>
      FreshArgs(states, a, b, env, args, hostCalls, writes);
      forall bi, forced, calls ensures Apply(bi, a, forced, calls) == Apply(bi, b, forced, calls) {
        SameApply(bi, a, b, forced, calls, writes);
      }
  }

  lemma SameApply(bi: Builtin, a: World, b: World, forced: seq<Value>, calls: seq<HostCall>, writes: seq<StateWrite>)
    requires SameOutside(a, b, writes)
    ensures Apply(bi, a, forced, calls) == Apply(bi, b, forced, calls)
  {
  }

  lemma FreshLoad(states: seq<StateDecl>, a: World, b: World, s: string, key: Val, writes: seq<StateWrite>)
    requires SameOutside(a, b, writes) && LoadsOutside(s, key, writes)
    ensures LoadCell(states, a, s, key) == LoadCell(states, b, s, key)
  {
    hide Writes;
  }

  lemma {:induction false} FreshArgs(states: seq<StateDecl>, a: World, b: World, env: map<string, Val>,
      args: seq<Expression>, hostCalls: seq<HostCall>, writes: seq<StateWrite>)
    requires SameOutside(a, b, writes) && ArgsFresh(states, a, env, args, hostCalls, writes)
    ensures InterpretArgs(states, a, env, args, hostCalls) == InterpretArgs(states, b, env, args, hostCalls)
    decreases args
  {
    hide InterpretExpr, SameOutside, ExprFresh;
    if args != [] {
      var last := |args| - 1;
      FreshArgs(states, a, b, env, args[..last], hostCalls, writes);
      var init := InterpretArgs(states, a, env, args[..last], hostCalls);
      if init.Ok? {
        FreshExpr(states, a, b, env, args[last], init.value.hostCalls, writes);
      }
    }
  }

  // Moving the log out of a statement and putting it back.
  function Prefixed(log: seq<LogEntry>, r: Result<SourceState, RuntimeError>): (p: Result<SourceState, RuntimeError>) {
    match r
    case Err(e) => Err(e)
    case Ok(s) => Ok(s.(log := log + s.log))
  }

  lemma FreshStatement(states: seq<StateDecl>, a: World, b: World, s: SourceState, st: Statement,
      writes: seq<StateWrite>)
    requires SameOutside(a, b, writes) && StatementFresh(states, a, s, st, writes)
    ensures InterpretStatement(states, a, s, st) == Prefixed(s.log, InterpretStatement(states, b, s.(log := []), st))
    ensures var r := InterpretStatement(states, b, s.(log := []), st); r.Ok? ==> |r.value.log| <= 1
  {
    hide InterpretExpr, ExprFresh, SameOutside;
    var e := if st.Require? then st.condition else st.value;
    FreshExpr(states, a, b, s.env, e, s.hostCalls, writes);
    SameBackend(a, b, writes);
    var v := InterpretExpr(states, a, s.env, e, s.hostCalls);
    assert s.log + [] == s.log;
    assert forall entry: LogEntry {:trigger [entry]} :: s.log + ([] + [entry]) == s.log + [entry];
    if v.Ok? && st.Assign? && st.target.Index? {
      FreshExpr(states, a, b, s.env, st.target.key, v.value.hostCalls, writes);
    }
  }

  lemma SameBackend(a: World, b: World, writes: seq<StateWrite>)
    requires SameOutside(a, b, writes)
    ensures a.backend == b.backend
  {
  }

  lemma {:induction false} CheckLogAppend(states: seq<StateDecl>, log: seq<LogEntry>, more: seq<LogEntry>, k: nat)
    requires k <= |more| && CheckLog(states, log, |log|).Ok?
    ensures CheckLog(states, log + more, |log| + k)
            == match CheckLog(states, more, k)
               case Err(e) => Err(e)
               case Ok(ws) => Ok(CheckLog(states, log, |log|).value + ws)
  {
    hide CheckEntry;
    if k == 0 {
      CheckLogSame(states, log, log + more, |log|);
      assert CheckLog(states, log, |log|).value + [] == CheckLog(states, log, |log|).value;
    } else {
      CheckLogAppend(states, log, more, k - 1);
      assert (log + more)[|log| + k - 1] == more[k - 1];
      if CheckLog(states, more, k).Ok? {
        var ws, w := CheckLog(states, more, k - 1).value, CheckEntry(states, more[k - 1]).value;
        assert CheckLog(states, log, |log|).value + (ws + [w]) == (CheckLog(states, log, |log|).value + ws) + [w];
      }
    }
  }

  lemma {:induction false} CheckLogSame(states: seq<StateDecl>, a: seq<LogEntry>, b: seq<LogEntry>, k: nat)
    requires k <= |a| && k <= |b| && forall i :: 0 <= i < k ==> a[i] == b[i]
    ensures CheckLog(states, a, k) == CheckLog(states, b, k)
  {
    hide CheckEntry;
    if k > 0 {
      CheckLogSame(states, a, b, k - 1);
    }
  }

  lemma CommittedOutside(cells: Cells, k: Backend, writes: seq<StateWrite>)
    ensures SameOutside(World(LoadFrom(cells), k), World(LoadFrom(Commit(cells, writes)), k), writes)
  {
    forall s, c | !Writes(writes, (s, c)) ensures LoadFrom(cells)(s, c) == LoadFrom(Commit(cells, writes))(s, c) {
      CommitKeeps(cells, writes, |writes|, (s, c));
    }
  }

  // Every assignment made so far is proper, and no statement loads a cell it could have changed.
  ghost predicate NoStaleLoads(states: seq<StateDecl>, f: Function, w: World, inv: Invocation)
    requires HasInputs(f, inv)
  {
    forall n {:trigger InterpretBody(states, f, w, inv, n)} ::
        0 <= n <= |f.body| && InterpretBody(states, f, w, inv, n).Ok? ==>
      var s := InterpretBody(states, f, w, inv, n).value;
      && CheckLog(states, s.log, |s.log|).Ok?
      && (n < |f.body| ==> StatementFresh(states, w, s, f.body[n], CheckLog(states, s.log, |s.log|).value))
  }

  ghost predicate Parallel(states: seq<StateDecl>, cells: Cells, i: Result<SourceState, RuntimeError>,
      q: Result<SeqState, RuntimeError>)
  {
    match i
    case Err(e) => q == Err(e)
    case Ok(s) =>
      && CheckLog(states, s.log, |s.log|).Ok?
      && q == Ok(SeqState(s.env, s.hostCalls, Commit(cells, CheckLog(states, s.log, |s.log|).value), s.opening))
  }

  lemma ParallelStep(states: seq<StateDecl>, k: Backend, cells: Cells, s: SourceState, q: SeqState, st: Statement)
    requires CheckLog(states, s.log, |s.log|).Ok?
    requires q == SeqState(s.env, s.hostCalls, Commit(cells, CheckLog(states, s.log, |s.log|).value), s.opening)
    requires StatementFresh(states, World(LoadFrom(cells), k), s, st, CheckLog(states, s.log, |s.log|).value)
    requires var next := InterpretStatement(states, World(LoadFrom(cells), k), s, st);
      next.Ok? ==> CheckLog(states, next.value.log, |next.value.log|).Ok?
    ensures Parallel(states, cells, InterpretStatement(states, World(LoadFrom(cells), k), s, st),
        SeqStatement(states, k, q, st))
  {
    hide InterpretStatement, StatementFresh, SameOutside, Commit, CommitTo, CheckLog;
    var writes := CheckLog(states, s.log, |s.log|).value;
    CommittedOutside(cells, k, writes);
    FreshStatement(states, World(LoadFrom(cells), k), World(LoadFrom(q.cells), k), s, st, writes);
    var r := InterpretStatement(states, World(LoadFrom(q.cells), k), s.(log := []), st);
    if r.Ok? {
      CheckLogAppend(states, s.log, r.value.log, |r.value.log|);
      var more := CheckLog(states, r.value.log, |r.value.log|).value;
      CommitTwice(cells, writes, more);
    }
  }

  lemma CommitNothing(cells: Cells)
    ensures Commit(cells, []) == cells
  {
  }

  lemma CommitTwice(cells: Cells, a: seq<StateWrite>, b: seq<StateWrite>)
    ensures Commit(cells, a + b) == Commit(Commit(cells, a), b)
  {
    CommitPrefix(cells, a, b, |b|);
  }

  lemma {:induction false} ParallelBody(states: seq<StateDecl>, f: Function, k: Backend, cells: Cells, inv: Invocation,
      n: nat)
    requires n <= |f.body| && HasInputs(f, inv) && NoStaleLoads(states, f, World(LoadFrom(cells), k), inv)
    ensures Parallel(states, cells, InterpretBody(states, f, World(LoadFrom(cells), k), inv, n),
        SeqBody(states, f, k, cells, inv, n))
  {
    hide InterpretStatement, SeqStatement, StatementFresh, CommitTo, LoadFrom;
    var w := World(LoadFrom(cells), k);
    if n == 0 {
      CommitNothing(cells);
    } else {
      ParallelBody(states, f, k, cells, inv, n - 1);
      var i := InterpretBody(states, f, w, inv, n - 1);
      if i.Ok? {
        assert InterpretBody(states, f, w, inv, n).Ok? ==>
          CheckLog(states, InterpretBody(states, f, w, inv, n).value.log,
              |InterpretBody(states, f, w, inv, n).value.log|).Ok?;
        ParallelStep(states, k, cells, i.value, SeqBody(states, f, k, cells, inv, n - 1).value, f.body[n - 1]);
      }
    }
  }

  // Deferred commit is sequential assignment whenever no load meets an earlier assignment: same
  // calls, same opening, same cells, same error.
  lemma DeferredIsSequential(states: seq<StateDecl>, f: Function, k: Backend, cells: Cells, inv: Invocation)
    requires HasInputs(f, inv) && NoStaleLoads(states, f, World(LoadFrom(cells), k), inv)
    ensures RunDeferred(states, f, k, cells, inv) == RunSequential(states, f, k, cells, inv)
  {
    hide InterpretBody, SeqBody, Commit, LoadFrom, NoStaleLoads;
    ParallelBody(states, f, k, cells, inv, |f.body|);
  }

  // As NoStaleLoads, leaving out that assignments are proper.
  ghost predicate LoadsFresh(states: seq<StateDecl>, f: Function, w: World, inv: Invocation)
    requires HasInputs(f, inv)
  {
    forall n {:trigger InterpretBody(states, f, w, inv, n)} ::
        0 <= n < |f.body| && InterpretBody(states, f, w, inv, n).Ok? ==>
      var s := InterpretBody(states, f, w, inv, n).value;
      CheckLog(states, s.log, |s.log|).Ok? ==>
      StatementFresh(states, w, s, f.body[n], CheckLog(states, s.log, |s.log|).value)
  }

  // ---- accepted code on any backend ----

  // Addresses have their 20 bytes.
  ghost predicate Sized(v: Val) { v.Known? && v.value.ty == Address ==> |v.value.bytes| == 20 }

  ghost predicate SizedEnv(env: map<string, Val>) { forall x :: x in env ==> Sized(env[x]) }

  ghost predicate SizedInvocation(inv: Invocation) {
    |inv.sender| == 20 && forall x :: x in inv.inputs ==> Sized(Known(inv.inputs[x]))
  }

  // No operation and no cell yields an address, so every address comes from the environment.
  lemma SizedExpr(states: seq<StateDecl>, w: World, env: map<string, Val>, e: Expression, hostCalls: seq<HostCall>)
    requires ProperStates(states) && SizedEnv(env) && InterpretExpr(states, w, env, e, hostCalls).Ok?
    ensures Sized(InterpretExpr(states, w, env, e, hostCalls).value.value)
  {
    hide InterpretArgs, ForceAll, Force, StateKey, ApplyCrypto;
    match e
    case Call(f, args) =>
      var vals := InterpretArgs(states, w, env, args, hostCalls).value;
      NoAddress(BuiltinNamed(f).value, w, ForceAll(vals.values).value, vals.hostCalls);
    case _ =>
  }

  lemma NoAddress(b: Builtin, w: World, args: seq<Value>, hostCalls: seq<HostCall>)
    requires Apply(b, w, args, hostCalls).Ok?
    ensures Apply(b, w, args, hostCalls).value.output.ty != Address
  {
  }

  lemma {:induction false} SizedStart(params: seq<Param>, inv: Invocation, k: nat)
    requires k <= |params| && SizedInvocation(inv) && forall i :: 0 <= i < k ==> params[i].name in inv.inputs
    ensures SizedEnv(StartEnv(params, inv, k))
  {
    hide Sized;
    if k == 0 {
      SizedSender(inv.sender);
    } else {
      SizedStart(params, inv, k - 1);
    }
  }

  lemma SizedSender(a: seq<Byte>)
    requires |a| == 20
    ensures Sized(Known(AddressValue(a)))
  {
  }

  // The environment and all keys assigned under have proper addresses, whatever the world does.
  ghost predicate SizedState(s: SourceState) {
    SizedEnv(s.env) && forall j :: 0 <= j < |s.log| && s.log[j].key.Some? ==> Sized(s.log[j].key.value)
  }

  lemma SizedStatement(states: seq<StateDecl>, w: World, s: SourceState, st: Statement)
    requires ProperStates(states) && SizedState(s) && InterpretStatement(states, w, s, st).Ok?
    ensures SizedState(InterpretStatement(states, w, s, st).value)
  {
    hide InterpretExpr, Sized, ProperStates;
    var e := if st.Require? then st.condition else st.value;
    SizedExpr(states, w, s.env, e, s.hostCalls);
    if st.Assign? && st.target.Index? {
      var v := InterpretExpr(states, w, s.env, e, s.hostCalls).value;
      SizedExpr(states, w, s.env, st.target.key, v.hostCalls);
    }
  }

  lemma {:induction false} SizedBody(states: seq<StateDecl>, f: Function, w: World, inv: Invocation, n: nat)
    requires n <= |f.body| && HasInputs(f, inv) && ProperStates(states) && SizedInvocation(inv)
    requires InterpretBody(states, f, w, inv, n).Ok?
    ensures SizedState(InterpretBody(states, f, w, inv, n).value)
  {
    hide InterpretStatement, SizedEnv, ProperStates;
    if n == 0 {
      SizedStart(f.params, inv, |f.params|);
    } else {
      SizedBody(states, f, w, inv, n - 1);
      SizedStatement(states, w, InterpretBody(states, f, w, inv, n - 1).value, f.body[n - 1]);
    }
  }

  // An assignment of accepted code has a value of the declared type and a proper key.
  lemma ProperEntry(states: seq<StateDecl>, write: WriteNode, values: map<Ref, Value>, entry: LogEntry)
    requires ProperStates(states) && WriteRel(states, write, values, entry)
        && (entry.key.Some? ==> Sized(entry.key.value))
    ensures CheckEntry(states, entry).Ok?
  {
    var d := FindState(states, write.state).value;
    ResolveDenoted(TypedRef(d.ty, write.value), values, entry.value);
    if write.key.Some? {
      ResolveDenoted(TypedRef(Address, write.key.value), values, entry.key.value);
    }
  }

  lemma {:induction false} ProperLog(states: seq<StateDecl>, writes: seq<WriteNode>, values: map<Ref, Value>,
      log: seq<LogEntry>, k: nat)
    requires ProperStates(states) && WritesRel(states, writes, values, log) && k <= |log|
    requires forall j :: 0 <= j < |log| && log[j].key.Some? ==> Sized(log[j].key.value)
    ensures CheckLog(states, log, k).Ok?
  {
    hide CheckEntry, WriteRel, ProperStates, Sized;
    if k > 0 {
      ProperLog(states, writes, values, log, k - 1);
      ProperEntry(states, writes[k - 1], values, log[k - 1]);
    }
  }

  lemma AcceptedLog(states: seq<StateDecl>, f: Function, w: World, inv: Invocation, n: nat)
    requires n <= |f.body| && ProperStates(states) && LowerBody(states, f, n).Ok? && SizedInvocation(inv)
    requires forall j ::
        0 <= j < |f.params| ==> f.params[j].name in inv.inputs && inv.inputs[f.params[j].name].ty == f.params[j].ty
    requires InterpretBody(states, f, w, inv, n).Ok?
    ensures var s := InterpretBody(states, f, w, inv, n).value; CheckLog(states, s.log, |s.log|).Ok?
  {
    hide InterpretBody, LowerBody, InitialValues, WritesRel, EnvRel, OpeningRel, Reached, RunOperators, Sized;
    hide SizedEnv, CheckLog;
    SizedBody(states, f, w, inv, n);
    SimBody(states, f, w, inv, n);
    var m := Machine(states, w, ExecState(InitialValues(f.params, inv, |f.params|), []));
    var l, s := LowerBody(states, f, n).value, InterpretBody(states, f, w, inv, n).value;
    ProperLog(states, l.writes, m.Run(l.operators).value.values, s.log, |s.log|);
  }

  // The assignments of accepted code are always proper, on every backend and every store, so the
  // loads alone decide.
  lemma AcceptedIsSequential(p: Program, f: Function, k: Backend, cells: Cells, inv: Invocation)
    requires Compile(p).Ok? && LowerFunction(p.states, f).Ok?
    requires CheckInputs(f.params, inv.inputs).Ok? && HasInputs(f, inv) && SizedInvocation(inv)
    requires LoadsFresh(p.states, f, World(LoadFrom(cells), k), inv)
    ensures RunDeferred(p.states, f, k, cells, inv) == RunSequential(p.states, f, k, cells, inv)
  {
    hide InterpretBody, LowerBody, LowerStatement, StatementFresh, RunDeferred, RunSequential, LoadFrom;
    hide ProperStates, CheckInputs, Compile, CheckLog;
    hide SizedInvocation;
    CompiledProper(p);
    CheckedInputs(f.params, inv.inputs);
    var w := World(LoadFrom(cells), k);
    forall n: nat | n <= |f.body| && InterpretBody(p.states, f, w, inv, n).Ok?
      ensures var s := InterpretBody(p.states, f, w, inv, n).value; CheckLog(p.states, s.log, |s.log|).Ok?
    {
      if LowerBody(p.states, f, n).Err? {
        LowerBodyFails(p.states, f, n, |f.body|);
      }
      AcceptedLog(p.states, f, w, inv, n);
    }
    DeferredIsSequential(p.states, f, k, cells, inv);
  }
}
