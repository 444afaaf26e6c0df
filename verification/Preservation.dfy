/** Compilation preserves meaning: running the lowered operators is interpreting the source. */
module Preservation {
  import opened Wrappers
  import opened Language
  import opened Manifests
  import opened Lowering
  import opened Executor
  import opened Interpreter

  // The interpreter's value is what the reference stands for in the table, at its static type.
  ghost predicate Denotes(t: TypedRef, values: map<Ref, Value>, v: Val) {
    match t.reference
    case Const(d) => v == Literal(d) && t.ty == Uint
    case r => r in values && v == Known(values[r]) && values[r].ty == t.ty
  }

  ghost predicate EnvRel(env: Env, values: map<Ref, Value>, ienv: map<string, Val>) {
    env.Keys == ienv.Keys && forall x :: x in env ==> Denotes(env[x], values, ienv[x])
  }

  ghost predicate ArgsRel(args: seq<TypedRef>, values: map<Ref, Value>, vals: seq<Val>) {
    |args| == |vals| && forall i :: 0 <= i < |args| ==> Denotes(args[i], values, vals[i])
  }

  // Only the first n operators have results.
  ghost predicate Below(values: map<Ref, Value>, n: nat) {
    forall r :: r in values && r.Op? ==> r.index < n
  }

  ghost predicate Extends(a: map<Ref, Value>, b: map<Ref, Value>) {
    forall r :: r in a ==> r in b && b[r] == a[r]
  }

  ghost predicate AddressKeys(states: seq<StateDecl>) {
    forall d :: d in states ==> d.keyTy == None || d.keyTy == Some(Address)
  }

  // A machine: declared states, world, and the table execution starts from.
  datatype Machine = Machine(states: seq<StateDecl>, w: World, start: ExecState) {
    function Run(ops: seq<OperatorNode>): (r: Result<ExecState, RuntimeError>) {
      RunOperators(states, w, ops, start)
    }
  }

  // After ops the machine is in state x, with nothing but the results of ops in its table.
  ghost predicate Reached(m: Machine, ops: seq<OperatorNode>, x: ExecState) {
    m.Run(ops) == Ok(x) && Below(x.values, |ops|)
  }

  // Running `nodes` from x goes as evaluation went.
  ghost predicate Agrees(m: Machine, ops: seq<OperatorNode>, x: ExecState, l: Lowered, i: Result<Eval, RuntimeError>) {
    match m.Run(ops + l.nodes)
    case Err(e) => i == Err(e)
    case Ok(y) =>
      && i.Ok? && i.value.hostCalls == y.hostCalls && Denotes(l.value, y.values, i.value.value)
      && Extends(x.values, y.values) && Reached(m, ops + l.nodes, y)
  }

  ghost predicate AgreesArgs(m: Machine, ops: seq<OperatorNode>, x: ExecState, l: LoweredArgs,
      i: Result<EvalArgs, RuntimeError>)
  {
    match m.Run(ops + l.nodes)
    case Err(e) => i == Err(e)
    case Ok(y) =>
      && i.Ok? && i.value.hostCalls == y.hostCalls && ArgsRel(l.values, y.values, i.value.values)
      && Extends(x.values, y.values) && Reached(m, ops + l.nodes, y)
  }

  lemma DenotesExtends(t: TypedRef, a: map<Ref, Value>, b: map<Ref, Value>, v: Val)
    requires Denotes(t, a, v) && Extends(a, b)
    ensures Denotes(t, b, v)
  {
  }

  lemma ArgsExtend(args: seq<TypedRef>, a: map<Ref, Value>, b: map<Ref, Value>, vals: seq<Val>)
    requires ArgsRel(args, a, vals) && Extends(a, b)
    ensures ArgsRel(args, b, vals)
  {
  }

  lemma EnvExtends(env: Env, a: map<Ref, Value>, b: map<Ref, Value>, ienv: map<string, Val>)
    requires EnvRel(env, a, ienv) && Extends(a, b)
    ensures EnvRel(env, b, ienv)
  {
  }

  // A reference that is not a literal resolves to the value it denotes.
  lemma ResolveDenoted(t: TypedRef, values: map<Ref, Value>, v: Val)
    requires Denotes(t, values, v)
    ensures ResolveOwned(t.reference, values) == Force(v)
    ensures t.ty != Uint ==> !t.reference.Const? && Resolve(t.reference, values) == Force(v) && Force(v).Ok?
    ensures Force(v).Ok? ==> Force(v).value.ty == t.ty
  {
  }

  lemma {:induction false} ResolveArgs(args: seq<TypedRef>, values: map<Ref, Value>, vals: seq<Val>)
    requires ArgsRel(args, values, vals)
    ensures ResolveAll(References(args), values) == ForceAll(vals)
    ensures ForceAll(vals).Ok? ==> forall i :: 0 <= i < |args| ==> ForceAll(vals).value[i].ty == args[i].ty
    decreases |args|
  {
    hide Denotes, ResolveOwned, Force;
    if args != [] {
      var last := |args| - 1;
      ResolveArgs(args[..last], values, vals[..last]);
      ResolveDenoted(args[last], values, vals[last]);
      assert References(args)[..last] == References(args[..last]);
    } else {
      assert References(args) == [];
    }
  }

  // One more operator.
  lemma PushOperator(m: Machine, ops: seq<OperatorNode>, y: ExecState, op: OperatorNode)
    requires Reached(m, ops, y) && op.id == Op(|ops|)
    ensures match ExecuteOperator(m.states, m.w, op, y.values, y.hostCalls)
            case Err(e) => m.Run(ops + [op]) == Err(e)
            case Ok(effect) =>
              var z := ExecState(y.values[Op(|ops|) := effect.output], effect.hostCalls);
              Reached(m, ops + [op], z) && Extends(y.values, z.values)
  {
    hide ExecuteOperator;
    RunSnoc(m.states, m.w, ops, op, m.start);
  }

  // The interpreter's result once the operands are evaluated, against one more operator.
  lemma FinishNode(m: Machine, ops: seq<OperatorNode>, x: ExecState, nodes: seq<OperatorNode>, y: ExecState,
      op: OperatorNode, t: ValueType, i: Result<Eval, RuntimeError>)
    requires Reached(m, ops + nodes, y) && Extends(x.values, y.values) && op.id == Op(|ops| + |nodes|)
    requires match ExecuteOperator(m.states, m.w, op, y.values, y.hostCalls)
             case Err(e) => i == Err(e)
             case Ok(effect) => i == Ok(Eval(Known(effect.output), effect.hostCalls)) && effect.output.ty == t
    ensures Agrees(m, ops, x, Lowered(TypedRef(t, op.id), nodes + [op]), i)
  {
    hide ExecuteOperator, RunOperators;
    PushOperator(m, ops + nodes, y, op);
    assert (ops + nodes) + [op] == ops + (nodes + [op]);
  }

  lemma FailEarly(m: Machine, ops: seq<OperatorNode>, a: seq<OperatorNode>, b: seq<OperatorNode>)
    requires m.Run(ops + a).Err?
    ensures m.Run(ops + (a + b)) == m.Run(ops + a)
  {
    RunFails(m.states, m.w, ops + a, b, m.start);
    assert (ops + a) + b == ops + (a + b);
  }

  function LoadNode(id: nat, d: StateDecl, key: Ref): (op: OperatorNode) {
    Node(id, LoadState, d.ty.Representation(), [key], d.ty, Some(d.name))
  }

  // The load operator reads the cell the interpreter reads.
  lemma LoadMeaning(m: Machine, id: nat, d: StateDecl, key: TypedRef, k: Val, y: ExecState)
    requires FindState(m.states, d.name) == Some(d) && d.keyTy == Some(Address)
    requires key.ty == Address && Denotes(key, y.values, k)
    ensures ExecuteOperator(m.states, m.w, LoadNode(id, d, key.reference), y.values, y.hostCalls)
            == match LoadCell(m.states, m.w, d.name, k)
               case Err(e) => Err(e)
               case Ok(v) => Ok(Effect(v, y.hostCalls))
    ensures LoadCell(m.states, m.w, d.name, k).Ok? ==> LoadCell(m.states, m.w, d.name, k).value.ty == d.ty
  {
    ResolveDenoted(key, y.values, k);
    var refs := [key.reference];
    assert refs[..0] == [];
    assert ResolveAll(refs, y.values) == Ok([] + [Force(k).value]);
  }

  function CallNode(id: nat, sig: Signature, args: seq<TypedRef>): (op: OperatorNode) {
    Node(id, sig.opcode, sig.domain, References(args), sig.output, None)
  }

  // A lowered operation does what its source operation does.
  lemma CallMeaning(m: Machine, id: nat, b: Builtin, sig: Signature, args: seq<TypedRef>, vals: seq<Val>, y: ExecState)
    requires BuiltinSignature(b, if args == [] then None else Some(args[0].ty)) == Ok(sig)
    requires |args| == |sig.expected| && forall i :: 0 <= i < |args| ==> args[i].ty == sig.expected[i]
    requires ArgsRel(args, y.values, vals)
    ensures ExecuteOperator(m.states, m.w, CallNode(id, sig, args), y.values, y.hostCalls)
            == match ForceAll(vals)
               case Err(e) => Err(e)
               case Ok(forced) => Apply(b, m.w, forced, y.hostCalls)
    ensures ForceAll(vals).Ok? ==>
      var r := Apply(b, m.w, ForceAll(vals).value, y.hostCalls); r.Ok? ==> r.value.output.ty == sig.output
  {
    hide Perform, Apply, ResolveAll, ForceAll, References, ArgsRel, BuiltinSignature;
    ResolveArgs(args, y.values, vals);
    if ForceAll(vals).Ok? {
      PerformMeaning(m, id, b, sig, References(args), if args == [] then None else Some(args[0].ty),
          ForceAll(vals).value, y.hostCalls);
    }
  }

  lemma PerformMeaning(m: Machine, id: nat, b: Builtin, sig: Signature, refs: seq<Ref>, first: Option<ValueType>,
      args: seq<Value>, hostCalls: seq<HostCall>)
    requires BuiltinSignature(b, first) == Ok(sig) && first == (if args == [] then None else Some(args[0].ty))
    requires |args| == |sig.expected| && forall i :: 0 <= i < |args| ==> args[i].ty == sig.expected[i]
    ensures Perform(m.states, m.w, Node(id, sig.opcode, sig.domain, refs, sig.output, None), args, hostCalls)
        == Apply(b, m.w, args, hostCalls)
    ensures var r := Apply(b, m.w, args, hostCalls); r.Ok? ==> r.value.output.ty == sig.output
  {
    hide Typed;
  }

  lemma SimIndex(m: Machine, ops: seq<OperatorNode>, x: ExecState, env: Env, ienv: map<string, Val>, s: string,
      k: Expression)
    requires Reached(m, ops, x) && AddressKeys(m.states) && LowerExpr(m.states, env, Index(s, k), |ops|).Ok?
    requires LowerExpr(m.states, env, k, |ops|).Ok? ==>
      Agrees(m, ops, x, LowerExpr(m.states, env, k, |ops|).value, InterpretExpr(m.states, m.w, ienv, k, x.hostCalls))
    ensures Agrees(m, ops, x, LowerExpr(m.states, env, Index(s, k), |ops|).value,
        InterpretExpr(m.states, m.w, ienv, Index(s, k), x.hostCalls))
  {
    hide *;
    IndexLowered(m.states, env, s, k, |ops|);
    IndexInterpreted(m, ienv, s, k, x.hostCalls);
    var key := LowerExpr(m.states, env, k, |ops|).value;
    var d := FindState(m.states, s).value;
    var op := LoadNode(|ops| + |key.nodes|, d, key.value.reference);
    var i := InterpretExpr(m.states, m.w, ienv, k, x.hostCalls);
    AgreesOpen(m, ops, x, key, i);
    if m.Run(ops + key.nodes).Err? {
      FailEarly(m, ops, key.nodes, [op]);
      AgreesFailed(m, ops, x, Lowered(TypedRef(d.ty, op.id), key.nodes + [op]),
          InterpretExpr(m.states, m.w, ienv, Index(s, k), x.hostCalls));
    } else {
      var y := m.Run(ops + key.nodes).value;
      LoadMeaning(m, |ops| + |key.nodes|, d, key.value, i.value.value, y);
      FinishNode(m, ops, x, key.nodes, y, op, d.ty, InterpretExpr(m.states, m.w, ienv, Index(s, k), x.hostCalls));
    }
  }

  // What lowering an index expression gives.
  lemma IndexLowered(states: seq<StateDecl>, env: Env, s: string, k: Expression, n: nat)
    requires AddressKeys(states) && LowerExpr(states, env, Index(s, k), n).Ok?
    ensures FindState(states, s).Some? && LowerExpr(states, env, k, n).Ok?
    ensures var d := FindState(states, s).value; var key := LowerExpr(states, env, k, n).value;
      && d.name == s && d.keyTy == Some(Address) && key.value.ty == Address
      && LowerExpr(states, env, Index(s, k), n).value
         == Lowered(TypedRef(d.ty, Op(n + |key.nodes|)),
             key.nodes + [LoadNode(n + |key.nodes|, d, key.value.reference)])
      && LoadNode(n + |key.nodes|, d, key.value.reference).id == Op(n + |key.nodes|)
  {
    hide AddressKeys, FindState;
    assert LookupState(states, s).Ok?;
    var d := FindState(states, s).value;
    KeyIsAddress(states, d);
  }

  lemma KeyIsAddress(states: seq<StateDecl>, d: StateDecl)
    requires AddressKeys(states) && d in states
    ensures d.keyTy.Some? ==> d.keyTy == Some(Address)
  {
  }

  lemma IndexInterpreted(m: Machine, ienv: map<string, Val>, s: string, k: Expression, calls: seq<HostCall>)
    ensures InterpretExpr(m.states, m.w, ienv, Index(s, k), calls)
            == match InterpretExpr(m.states, m.w, ienv, k, calls)
               case Err(e) => Err(e)
               case Ok(key) =>
                 match LoadCell(m.states, m.w, s, key.value)
                 case Err(e) => Err(e)
                 case Ok(v) => Ok(Eval(Known(v), key.hostCalls))
  {
    hide LoadCell;
  }

  lemma AgreesOpen(m: Machine, ops: seq<OperatorNode>, x: ExecState, l: Lowered, i: Result<Eval, RuntimeError>)
    requires Agrees(m, ops, x, l, i)
    ensures m.Run(ops + l.nodes).Err? ==> i == Err(m.Run(ops + l.nodes).error)
    ensures m.Run(ops + l.nodes).Ok? ==>
      var y := m.Run(ops + l.nodes).value;
      && i.Ok? && i.value.hostCalls == y.hostCalls && Denotes(l.value, y.values, i.value.value)
      && Extends(x.values, y.values) && Reached(m, ops + l.nodes, y)
  {
    hide RunOperators, Denotes, Extends, Reached;
  }

  lemma AgreesFailed(m: Machine, ops: seq<OperatorNode>, x: ExecState, l: Lowered, i: Result<Eval, RuntimeError>)
    requires m.Run(ops + l.nodes).Err? && i == Err(m.Run(ops + l.nodes).error)
    ensures Agrees(m, ops, x, l, i)
  {
    hide RunOperators;
  }

  lemma SimCall(m: Machine, ops: seq<OperatorNode>, x: ExecState, env: Env, ienv: map<string, Val>, f: string,
      args: seq<Expression>)
    requires Reached(m, ops, x) && LowerExpr(m.states, env, Call(f, args), |ops|).Ok?
    requires LowerArgs(m.states, env, args, |ops|).Ok? ==>
      AgreesArgs(m, ops, x, LowerArgs(m.states, env, args, |ops|).value,
          InterpretArgs(m.states, m.w, ienv, args, x.hostCalls))
    ensures Agrees(m, ops, x, LowerExpr(m.states, env, Call(f, args), |ops|).value,
        InterpretExpr(m.states, m.w, ienv, Call(f, args), x.hostCalls))
  {
    hide RunOperators, ExecuteOperator, ArgsRel, Below, Extends, BuiltinSignature, BuiltinNamed, Apply;
    hide ForceAll, References;
    var l := LowerArgs(m.states, env, args, |ops|).value;
    var sig := SignatureOf(f, l.values).value;
    var b := BuiltinNamed(f).value;
    var run := m.Run(ops + l.nodes);
    var op := CallNode(|ops| + |l.nodes|, sig, l.values);
    if run.Err? {
      FailEarly(m, ops, l.nodes, [op]);
    } else {
      var i := InterpretArgs(m.states, m.w, ienv, args, x.hostCalls).value;
      CallMeaning(m, |ops| + |l.nodes|, b, sig, l.values, i.values, run.value);
      FinishNode(m, ops, x, l.nodes, run.value, op, sig.output,
          InterpretExpr(m.states, m.w, ienv, Call(f, args), x.hostCalls));
    }
  }

  // Expressions.
  lemma {:induction false} SimExpr(m: Machine, ops: seq<OperatorNode>, x: ExecState, env: Env, ienv: map<string, Val>,
      e: Expression)
    requires Reached(m, ops, x) && AddressKeys(m.states) && EnvRel(env, x.values, ienv)
    requires LowerExpr(m.states, env, e, |ops|).Ok?
    ensures Agrees(m, ops, x, LowerExpr(m.states, env, e, |ops|).value,
        InterpretExpr(m.states, m.w, ienv, e, x.hostCalls))
    decreases e
  {
    hide RunOperators, Below, BuiltinSignature, BuiltinNamed, Apply;
    match e
    case Name(_) => assert ops + [] == ops;
    case Number(_) => assert ops + [] == ops;
    case Index(s, k) =>
      SimExpr(m, ops, x, env, ienv, k);
      SimIndex(m, ops, x, env, ienv, s, k);
    case Call(f, args) =>
      SimArgs(m, ops, x, env, ienv, args);
      SimCall(m, ops, x, env, ienv, f, args);
  }

  lemma {:induction false} SimArgs(m: Machine, ops: seq<OperatorNode>, x: ExecState, env: Env, ienv: map<string, Val>,
      args: seq<Expression>)
    requires Reached(m, ops, x) && AddressKeys(m.states) && EnvRel(env, x.values, ienv)
    requires LowerArgs(m.states, env, args, |ops|).Ok?
    ensures AgreesArgs(m, ops, x, LowerArgs(m.states, env, args, |ops|).value,
        InterpretArgs(m.states, m.w, ienv, args, x.hostCalls))
    decreases args
  {
    hide RunOperators, Below, LowerExpr, InterpretExpr, Denotes;
    if args == [] {
      assert ops + [] == ops;
    } else {
      var last := |args| - 1;
      SimArgs(m, ops, x, env, ienv, args[..last]);
      var init := LowerArgs(m.states, env, args[..last], |ops|).value;
      var next := LowerExpr(m.states, env, args[last], |ops| + |init.nodes|).value;
      assert ops + (init.nodes + next.nodes) == (ops + init.nodes) + next.nodes;
      var run := m.Run(ops + init.nodes);
      if run.Err? {
        FailEarly(m, ops, init.nodes, next.nodes);
      } else {
        EnvExtends(env, x.values, run.value.values, ienv);
        SimExpr(m, ops + init.nodes, run.value, env, ienv, args[last]);
        SimLastArg(m, ops, x, init, run.value, next,
            InterpretArgs(m.states, m.w, ienv, args[..last], x.hostCalls).value,
                   InterpretExpr(m.states, m.w, ienv, args[last], run.value.hostCalls));
      }
    }
  }

  lemma SimLastArg(m: Machine, ops: seq<OperatorNode>, x: ExecState, init: LoweredArgs, y: ExecState, next: Lowered,
      i: EvalArgs, j: Result<Eval, RuntimeError>)
    requires Reached(m, ops + init.nodes, y) && Extends(x.values, y.values) && ArgsRel(init.values, y.values, i.values)
    requires Agrees(m, ops + init.nodes, y, next, j)
    ensures AgreesArgs(m, ops, x, LoweredArgs(init.values + [next.value], init.nodes + next.nodes),
      match j case Err(e) => Err(e) case Ok(v) => Ok(EvalArgs(i.values + [v.value], v.hostCalls)))
  {
    hide RunOperators, Below, Denotes;
    assert ops + (init.nodes + next.nodes) == (ops + init.nodes) + next.nodes;
    var run := m.Run((ops + init.nodes) + next.nodes);
    if run.Ok? {
      ArgsExtend(init.values, y.values, run.value.values, i.values);
    }
  }

  // ---- statements ----

  ghost predicate ProperStates(states: seq<StateDecl>) {
    forall d :: d in states ==> (d.ty == FheUint || d.ty == Sint) && (d.keyTy == None || d.keyTy == Some(Address))
  }

  ghost predicate WriteRel(states: seq<StateDecl>, write: WriteNode, values: map<Ref, Value>, entry: LogEntry) {
    && write.state == entry.state && FindState(states, write.state).Some?
    && Denotes(TypedRef(FindState(states, write.state).value.ty, write.value), values, entry.value)
    && match (write.key, FindState(states, write.state).value.keyTy, entry.key)
       case (Some(r), Some(t), Some(k)) => Denotes(TypedRef(t, r), values, k)
       case (None, None, None) => true
       case _ => false
  }

  ghost predicate WritesRel(states: seq<StateDecl>, writes: seq<WriteNode>, values: map<Ref, Value>,
      log: seq<LogEntry>)
  {
    |writes| == |log| && forall j :: 0 <= j < |writes| ==> WriteRel(states, writes[j], values, log[j])
  }

  ghost predicate OpeningRel(opening: Option<Ref>, values: map<Ref, Value>, shown: Option<Val>) {
    match (opening, shown)
    case (None, None) => true
    case (Some(r), Some(v)) => Denotes(TypedRef(Opened, r), values, v)
    case _ => false
  }

  // The lowerer, the machine and the interpreter after the same statements.
  ghost predicate StateRel(m: Machine, s: LowerState, x: ExecState, i: SourceState) {
    && Reached(m, s.operators, x) && x.hostCalls == i.hostCalls
    && EnvRel(s.env, x.values, i.env)
    && WritesRel(m.states, s.writes, x.values, i.log)
    && OpeningRel(s.opening, x.values, i.opening)
  }

  ghost predicate BodyAgrees(m: Machine, s: LowerState, i: Result<SourceState, RuntimeError>) {
    match m.Run(s.operators)
    case Err(e) => i == Err(e)
    case Ok(y) => i.Ok? && StateRel(m, s, y, i.value)
  }

  lemma WritesExtend(states: seq<StateDecl>, writes: seq<WriteNode>, a: map<Ref, Value>, b: map<Ref, Value>,
      log: seq<LogEntry>)
    requires WritesRel(states, writes, a, log) && Extends(a, b)
    ensures WritesRel(states, writes, b, log)
  {
    hide Extends, Denotes;
    forall j | 0 <= j < |writes| ensures WriteRel(states, writes[j], b, log[j]) {
      WriteExtends(states, writes[j], a, b, log[j]);
    }
  }

  lemma WriteExtends(states: seq<StateDecl>, write: WriteNode, a: map<Ref, Value>, b: map<Ref, Value>, entry: LogEntry)
    requires WriteRel(states, write, a, entry) && Extends(a, b)
    ensures WriteRel(states, write, b, entry)
  {
  }

  // The relation survives new operators.
  lemma RelExtends(m: Machine, s: LowerState, x: ExecState, i: SourceState, ops: seq<OperatorNode>, y: ExecState)
    requires StateRel(m, s, x, i) && Extends(x.values, y.values) && Reached(m, ops, y)
    ensures StateRel(m, s.(operators := ops), y, i.(hostCalls := y.hostCalls))
  {
    hide RunOperators, Below, Reached, WritesRel;
    EnvExtends(s.env, x.values, y.values, i.env);
    WritesExtend(m.states, s.writes, x.values, y.values, i.log);
  }

  // The value of a statement: the same outcome on both sides, and the relation kept.
  lemma SimValue(m: Machine, s: LowerState, x: ExecState, i: SourceState, e: Expression)
    requires StateRel(m, s, x, i) && AddressKeys(m.states) && LowerExpr(m.states, s.env, e, |s.operators|).Ok?
    ensures var l := LowerExpr(m.states, s.env, e, |s.operators|).value;
        var v := InterpretExpr(m.states, m.w, i.env, e, i.hostCalls);
      var s' := s.(operators := s.operators + l.nodes);
      match m.Run(s'.operators)
      case Err(err) => v == Err(err)
      case Ok(y) =>
        && v.Ok? && v.value.hostCalls == y.hostCalls && Denotes(l.value, y.values, v.value.value)
        && StateRel(m, s', y, i.(hostCalls := v.value.hostCalls))
  {
    hide RunOperators, Below, Extends, LowerExpr, InterpretExpr, Denotes, EnvRel, WritesRel, OpeningRel;
    SimExpr(m, s.operators, x, s.env, i.env, e);
    var l := LowerExpr(m.states, s.env, e, |s.operators|).value;
    var run := m.Run(s.operators + l.nodes);
    if run.Ok? {
      RelExtends(m, s, x, i, s.operators + l.nodes, run.value);
    }
  }

  lemma SimLocal(m: Machine, s: LowerState, x: ExecState, i: SourceState, ty: ValueType, name: string, e: Expression)
    requires StateRel(m, s, x, i) && AddressKeys(m.states) && LowerStatement(m.states, s, Local(ty, name, e)).Ok?
    ensures BodyAgrees(m, LowerStatement(m.states, s, Local(ty, name, e)).value,
        InterpretStatement(m.states, m.w, i, Local(ty, name, e)))
  {
    hide RunOperators, Below, LowerExpr, InterpretExpr, Denotes, WritesRel, OpeningRel, Reached;
    SimValue(m, s, x, i, e);
  }

  lemma SimPlain(m: Machine, s: LowerState, x: ExecState, i: SourceState, e: Expression)
    requires StateRel(m, s, x, i) && AddressKeys(m.states) && LowerExpr(m.states, s.env, e, |s.operators|).Ok?
    ensures LowerStatement(m.states, s, ExprStatement(e)).Ok? ==>
      BodyAgrees(m, LowerStatement(m.states, s, ExprStatement(e)).value,
          InterpretStatement(m.states, m.w, i, ExprStatement(e)))
    ensures LowerStatement(m.states, s, Return(e)).Ok? ==>
      BodyAgrees(m, LowerStatement(m.states, s, Return(e)).value, InterpretStatement(m.states, m.w, i, Return(e)))
  {
    hide RunOperators, Below, LowerExpr, InterpretExpr, Denotes, WritesRel, EnvRel, Reached;
    SimValue(m, s, x, i, e);
  }

  function RequireNode(id: nat, r: Ref): (op: OperatorNode) {
    Node(id, RequireSecret, SecretSharing, [r], Void, None)
  }

  lemma RequireMeaning(m: Machine, id: nat, t: TypedRef, v: Val, y: ExecState)
    requires Denotes(t, y.values, v) && t.ty == SecretBool
    ensures Force(v).Ok?
    ensures ExecuteOperator(m.states, m.w, RequireNode(id, t.reference), y.values, y.hostCalls)
            == match m.w.backend.secretBool(Force(v).value)
               case Err(e) => Err(e)
               case Ok(holds) => if holds then Ok(Effect(VoidValue(), y.hostCalls)) else Err(PolicyRejected)
  {
    ResolveDenoted(t, y.values, v);
    var refs := [t.reference];
    assert refs[..0] == [];
    assert ResolveAll(refs, y.values) == Ok([] + [Force(v).value]);
  }

  lemma SimRequire(m: Machine, s: LowerState, x: ExecState, i: SourceState, e: Expression)
    requires StateRel(m, s, x, i) && AddressKeys(m.states) && LowerStatement(m.states, s, Require(e)).Ok?
    ensures BodyAgrees(m, LowerStatement(m.states, s, Require(e)).value,
        InterpretStatement(m.states, m.w, i, Require(e)))
  {
    hide RunOperators, Below, LowerExpr, InterpretExpr, Denotes, WritesRel, EnvRel, OpeningRel;
    hide ExecuteOperator, Extends;
    SimValue(m, s, x, i, e);
    var l := LowerExpr(m.states, s.env, e, |s.operators|).value;
    var ops := s.operators + l.nodes;
    var op := RequireNode(|ops|, l.value.reference);
    var run := m.Run(ops);
    if run.Err? {
      RunFails(m.states, m.w, ops, [op], m.start);
    } else {
      var v := InterpretExpr(m.states, m.w, i.env, e, i.hostCalls).value;
      RequireMeaning(m, |ops|, l.value, v.value, run.value);
      PushOperator(m, ops, run.value, op);
      var next := m.Run(ops + [op]);
      if next.Ok? {
        RelExtends(m, s.(operators := ops), run.value, i.(hostCalls := v.hostCalls), ops + [op], next.value);
      }
    }
  }

  lemma AppendWrite(m: Machine, s: LowerState, x: ExecState, i: SourceState, write: WriteNode, entry: LogEntry)
    requires StateRel(m, s, x, i) && WriteRel(m.states, write, x.values, entry)
    ensures StateRel(m, s.(writes := s.writes + [write]), x, i.(log := i.log + [entry]))
  {
    hide Reached, EnvRel, OpeningRel, WriteRel;
  }

  // The target of an assignment whose value is already known.
  lemma SimTarget(m: Machine, s: LowerState, x: ExecState, i: SourceState, target: Expression, value: TypedRef, v: Eval)
    requires StateRel(m, s, x, i) && AddressKeys(m.states) && LowerAssignment(m.states, s, target, value).Ok?
    requires Denotes(value, x.values, v.value) && v.hostCalls == x.hostCalls
    ensures BodyAgrees(m, LowerAssignment(m.states, s, target, value).value,
        InterpretAssign(m.states, m.w, i, target, v))
  {
    hide RunOperators, Below, LowerExpr, InterpretExpr, Denotes, WritesRel, EnvRel, OpeningRel, Extends;
    match target
    case Name(name) =>
      assert m.Run(s.operators) == Ok(x);
      AppendWrite(m, s, x, i, WriteNode(name, None, value.reference), LogEntry(name, None, v.value));
    case Index(name, k) =>
      SimExpr(m, s.operators, x, s.env, i.env, k);
      var l := LowerExpr(m.states, s.env, k, |s.operators|).value;
      var run := m.Run(s.operators + l.nodes);
      if run.Ok? {
        var key := InterpretExpr(m.states, m.w, i.env, k, i.hostCalls).value;
        RelExtends(m, s, x, i, s.operators + l.nodes, run.value);
        DenotesExtends(value, x.values, run.value.values, v.value);
        AppendWrite(m, s.(operators := s.operators + l.nodes), run.value, i.(hostCalls := run.value.hostCalls),
          WriteNode(name, Some(l.value.reference), value.reference), LogEntry(name, Some(key.value), v.value));
      }
    case _ =>
  }

  lemma SimAssign(m: Machine, s: LowerState, x: ExecState, i: SourceState, target: Expression, e: Expression)
    requires StateRel(m, s, x, i) && AddressKeys(m.states) && LowerStatement(m.states, s, Assign(target, e)).Ok?
    ensures BodyAgrees(m, LowerStatement(m.states, s, Assign(target, e)).value,
        InterpretStatement(m.states, m.w, i, Assign(target, e)))
  {
    hide RunOperators, Below, LowerExpr, InterpretExpr, Denotes, WritesRel, EnvRel, OpeningRel, Extends;
    hide Reached, InterpretAssign, LowerAssignment;
    SimValue(m, s, x, i, e);
    var l := LowerExpr(m.states, s.env, e, |s.operators|).value;
    var s1 := s.(operators := s.operators + l.nodes);
    var run := m.Run(s1.operators);
    if run.Ok? {
      var v := InterpretExpr(m.states, m.w, i.env, e, i.hostCalls).value;
      SimTarget(m, s1, run.value, i.(hostCalls := v.hostCalls), target, l.value, v);
      AssignIgnoresCalls(m, i, target, v);
    } else {
      AssignmentGrows(m.states, s1, target, l.value);
      FailsBeyond(m, s1.operators, LowerAssignment(m.states, s1, target, l.value).value.operators);
    }
  }

  lemma AssignIgnoresCalls(m: Machine, i: SourceState, target: Expression, v: Eval)
    ensures InterpretAssign(m.states, m.w, i.(hostCalls := v.hostCalls), target, v)
        == InterpretAssign(m.states, m.w, i, target, v)
  {
    hide InterpretExpr;
  }

  lemma AssignmentGrows(states: seq<StateDecl>, s: LowerState, target: Expression, value: TypedRef)
    requires LowerAssignment(states, s, target, value).Ok?
    ensures s.operators <= LowerAssignment(states, s, target, value).value.operators
  {
    hide LowerExpr, FindState;
  }

  lemma StatementGrows(states: seq<StateDecl>, s: LowerState, st: Statement)
    requires LowerStatement(states, s, st).Ok?
    ensures s.operators <= LowerStatement(states, s, st).value.operators
  {
    hide LowerExpr, LowerAssignment;
    if st.Assign? {
      var l := LowerExpr(states, s.env, st.value, |s.operators|).value;
      AssignmentGrows(states, s.(operators := s.operators + l.nodes), st.target, l.value);
    }
  }

  lemma FailsBeyond(m: Machine, a: seq<OperatorNode>, b: seq<OperatorNode>)
    requires m.Run(a).Err? && a <= b
    ensures m.Run(b) == m.Run(a)
  {
    RunFails(m.states, m.w, a, b[|a|..], m.start);
    assert a + b[|a|..] == b;
  }

  lemma SimStatement(m: Machine, s: LowerState, x: ExecState, i: SourceState, st: Statement)
    requires StateRel(m, s, x, i) && AddressKeys(m.states) && LowerStatement(m.states, s, st).Ok?
    ensures BodyAgrees(m, LowerStatement(m.states, s, st).value, InterpretStatement(m.states, m.w, i, st))
  {
    match st
    case Local(ty, name, e) => SimLocal(m, s, x, i, ty, name, e);
    case Assign(target, e) => SimAssign(m, s, x, i, target, e);
    case Require(e) => SimRequire(m, s, x, i, e);
    case Return(e) => SimPlain(m, s, x, i, e);
    case ExprStatement(e) => SimPlain(m, s, x, i, e);
  }

  // ---- bodies ----

  lemma {:induction false} SimEnv(params: seq<Param>, inv: Invocation, k: nat)
    requires k <= |params|
    requires forall j :: 0 <= j < k ==> params[j].name in inv.inputs && inv.inputs[params[j].name].ty == params[j].ty
    ensures EnvRel(ParamEnv(params, k), InitialValues(params, inv, k), StartEnv(params, inv, k))
    ensures Below(InitialValues(params, inv, k), 0)
    ensures forall r ::
        r in InitialValues(params, inv, k) && r.Input?
        ==> r.name in inv.inputs && InitialValues(params, inv, k)[r] == inv.inputs[r.name]
  {
    if k > 0 {
      SimEnv(params, inv, k - 1);
    }
  }

  lemma {:induction false} SimBody(states: seq<StateDecl>, f: Function, w: World, inv: Invocation, k: nat)
    requires k <= |f.body| && AddressKeys(states) && LowerBody(states, f, k).Ok?
    requires forall j ::
        0 <= j < |f.params| ==> f.params[j].name in inv.inputs && inv.inputs[f.params[j].name].ty == f.params[j].ty
    ensures BodyAgrees(Machine(states, w, ExecState(InitialValues(f.params, inv, |f.params|), [])),
        LowerBody(states, f, k).value, InterpretBody(states, f, w, inv, k))
  {
    hide RunOperators, LowerStatement, InterpretStatement, EnvRel, Below, InitialValues, ParamEnv, StartEnv;
    var m := Machine(states, w, ExecState(InitialValues(f.params, inv, |f.params|), []));
    if k == 0 {
      SimEnv(f.params, inv, |f.params|);
      RunNothing(m);
    } else {
      SimBody(states, f, w, inv, k - 1);
      var s := LowerBody(states, f, k - 1).value;
      StatementGrows(states, s, f.body[k - 1]);
      var run := m.Run(s.operators);
      if run.Ok? {
        SimStatement(m, s, run.value, InterpretBody(states, f, w, inv, k - 1).value, f.body[k - 1]);
      } else {
        FailsBeyond(m, s.operators, LowerBody(states, f, k).value.operators);
      }
    }
  }

  lemma RunNothing(m: Machine)
    ensures m.Run([]) == Ok(m.start)
  {
  }

  // ---- the write set and the opening ----

  lemma WriteMeaning(states: seq<StateDecl>, write: WriteNode, values: map<Ref, Value>, entry: LogEntry)
    requires ProperStates(states) && WriteRel(states, write, values, entry)
    ensures ResolveWrite(states, write, values) == CheckEntry(states, entry)
  {
    var d := FindState(states, write.state).value;
    ResolveDenoted(TypedRef(d.ty, write.value), values, entry.value);
    if write.key.Some? {
      ResolveDenoted(TypedRef(Address, write.key.value), values, entry.key.value);
    }
  }

  lemma {:induction false} WritesMeaning(states: seq<StateDecl>, writes: seq<WriteNode>, values: map<Ref, Value>,
      log: seq<LogEntry>, k: nat)
    requires ProperStates(states) && WritesRel(states, writes, values, log) && k <= |writes|
    ensures ResolveWrites(states, writes, values, k) == CheckLog(states, log, k)
  {
    hide ResolveWrite, CheckEntry, WriteRel, ProperStates;
    if k > 0 {
      WritesMeaning(states, writes, values, log, k - 1);
      WriteMeaning(states, writes[k - 1], values, log[k - 1]);
    }
  }

  lemma OpeningMeaning(opening: Option<Ref>, values: map<Ref, Value>, shown: Option<Val>)
    requires OpeningRel(opening, values, shown)
    ensures ResolveOpening(opening, values) == ShowOpening(shown)
  {
    if opening.Some? {
      ResolveDenoted(TypedRef(Opened, opening.value), values, shown.value);
    }
  }

  // For every world and invocation, an accepted function's operator list gives the outcome or the
  // error the source function has.
  lemma FunctionPreserved(states: seq<StateDecl>, f: Function, w: World, inv: Invocation)
    requires ProperStates(states) && LowerFunction(states, f).Ok?
    ensures EvaluateFunction(states, LowerFunction(states, f).value, w, inv) == InterpretFunction(states, f, w, inv)
  {
    hide RunOperators, InterpretBody, LowerBody, InitialValues, CheckInputs, ResolveWrites, CheckLog;
    hide ResolveOpening, ShowOpening, Reached, EnvRel, WritesRel, OpeningRel;
    if CheckInputs(f.params, inv.inputs).Ok? {
      CheckedInputs(f.params, inv.inputs);
      SimBody(states, f, w, inv, |f.body|);
      var s := LowerBody(states, f, |f.body|).value;
      var m := Machine(states, w, ExecState(InitialValues(f.params, inv, |f.params|), []));
      var run := m.Run(s.operators);
      if run.Ok? {
        var i := InterpretBody(states, f, w, inv, |f.body|).value;
        WrittenLengths(states, s.writes, run.value.values, i.log);
        WritesMeaning(states, s.writes, run.value.values, i.log, |s.writes|);
        OpeningMeaning(s.opening, run.value.values, i.opening);
      }
    }
  }

  lemma WrittenLengths(states: seq<StateDecl>, writes: seq<WriteNode>, values: map<Ref, Value>, log: seq<LogEntry>)
    requires WritesRel(states, writes, values, log)
    ensures |writes| == |log|
  {
  }

  lemma {:induction false} FindLowered(p: Program, k: nat, name: string)
    requires k <= |p.functions| && LowerFunctions(p, k).Ok?
    ensures match FindSource(p.functions[..k], name)
            case None => FindFunction(LowerFunctions(p, k).value, name) == None
            case Some(f) =>
              LowerFunction(p.states, f).Ok? && FindFunction(LowerFunctions(p, k).value,
              name) == Some(LowerFunction(p.states, f).value)
  {
    hide LowerBody;
    if k > 0 {
      FindLowered(p, k - 1, name);
      var init, f := LowerFunctions(p, k - 1).value, p.functions[k - 1];
      assert p.functions[..k] == p.functions[..k - 1] + [f];
      FindSourceSnoc(p.functions[..k - 1], f, name);
      FindFunctionSnoc(init, LowerFunction(p.states, f).value, name);
    }
  }

  lemma {:induction false} FindSourceSnoc(fs: seq<Function>, f: Function, name: string)
    ensures FindSource(fs + [f], name) == if FindSource(fs, name).Some? then FindSource(fs, name)
        else if f.name == name then Some(f) else None
  {
    if fs == [] {
      assert fs + [f] == [f] && [f][1..] == [];
    } else {
      assert (fs + [f])[1..] == fs[1..] + [f];
      FindSourceSnoc(fs[1..], f, name);
    }
  }

  lemma {:induction false} FindFunctionSnoc(fs: seq<FunctionManifest>, f: FunctionManifest, name: string)
    ensures FindFunction(fs + [f], name) == if FindFunction(fs, name).Some? then FindFunction(fs, name)
        else if f.name == name then Some(f) else None
  {
    if fs == [] {
      assert fs + [f] == [f] && [f][1..] == [];
    } else {
      assert (fs + [f])[1..] == fs[1..] + [f];
      FindFunctionSnoc(fs[1..], f, name);
    }
  }

  lemma CompiledProper(p: Program)
    requires Compile(p).Ok?
    ensures ProperStates(p.states) && Compile(p).value.state == p.states
    ensures LowerFunctions(p, |p.functions|).Ok? && Compile(p).value.functions == LowerFunctions(p, |p.functions|).value
  {
    hide LowerFunctions;
    AcceptedStates(p.states, |p.states|);
  }

  // Compilation preserves meaning, for every accepted program, function name, world (state
  // reader and backend) and invocation.
  lemma MeaningPreserved(p: Program, name: string, w: World, inv: Invocation)
    requires Compile(p).Ok?
    ensures Evaluate(Compile(p).value, name, w, inv) == Interpret(p, name, w, inv)
  {
    hide Compile, LowerFunctions, LowerFunction, EvaluateFunction, InterpretFunction, ProperStates;
    CompiledProper(p);
    FindLowered(p, |p.functions|, name);
    assert p.functions[..|p.functions|] == p.functions;
    var f := FindSource(p.functions, name);
    if f.Some? {
      FunctionPreserved(p.states, f.value, w, inv);
    }
  }
}
