/** A direct interpreter of contract functions. Loads read the given state throughout; assignments
    go to an ordered log that is checked after the body; the last return decides the opening. */
module Interpreter {
  import opened Wrappers
  import opened Language
  import opened Manifests
  import opened Executor

  // A literal is a number only once something uses it.
  datatype Val = Literal(digits: string) | Known(value: Value)

  function Force(v: Val): (r: Result<Value, RuntimeError>) {
    match v
    case Literal(d) => LiteralValue(d)
    case Known(value) => Ok(value)
  }

  function ForceAll(vals: seq<Val>): (r: Result<seq<Value>, RuntimeError>)
    ensures r.Ok? ==> |r.value| == |vals|
  {
    if vals == [] then Ok([])
    else
      var init :- ForceAll(vals[..|vals| - 1]);
      var last :- Force(vals[|vals| - 1]);
      Ok(init + [last])
  }

  datatype Eval = Eval(value: Val, hostCalls: seq<HostCall>)

  datatype EvalArgs = EvalArgs(values: seq<Val>, hostCalls: seq<HostCall>)

  function LoadCell(states: seq<StateDecl>, w: World, state: string, key: Val): (r: Result<Value, RuntimeError>) {
    var address :- Force(key);
    var declaration :- ManifestState(states, state);
    var cell :- StateKey(address);
    Typed(w.load(state, cell), declaration.ty)
  }

  // What each source operation does with its argument values.
  function Apply(b: Builtin, w: World, args: seq<Value>, hostCalls: seq<HostCall>): (r: Result<Effect, RuntimeError>) {
    match b
    case ReceiveEncryptedToken => Ok(Effect(VoidValue(), hostCalls + [HostCall(HostReceive, args)]))
    case SendEncryptedToken => Ok(Effect(VoidValue(), hostCalls + [HostCall(HostSend, args)]))
    case Pick =>
      if args == [] then Err(InvalidManifest)
      else
        var shown :- Typed(w.backend.pick(args[0]), Opened);
        Ok(Effect(shown, hostCalls))
    case _ =>
      var v :- ApplyCrypto(b, w.backend, args);
      Ok(Effect(v, hostCalls))
  }

  function ApplyCrypto(b: Builtin, k: Backend, args: seq<Value>): (r: Result<Value, RuntimeError>)
    requires b != ReceiveEncryptedToken && b != SendEncryptedToken && b != Pick
  {
    match b
    case FheEncrypt => Typed(k.evaluate(EvalFheEncrypt, args), FheUint)
    case FheAdd => Typed(k.evaluate(EvalFheAdd, args), FheUint)
    case FheSub => Typed(k.evaluate(EvalFheSub, args), FheUint)
    case FheGe => Typed(k.evaluate(EvalFheGe, args), FheBool)
    case MpcAdd => Typed(k.evaluate(EvalMpcAdd, args), Sint)
    case MpcSub => Typed(k.evaluate(EvalMpcSub, args), Sint)
    case MpcGe => Typed(k.evaluate(EvalMpcGe, args), SecretBool)
    case H2S => Typed(k.evaluate(ConvertH2S, args), if args != [] && args[0].ty == FheBool then SecretBool else Sint)
    case S2H => Typed(k.evaluate(ConvertS2H, args), FheUint)
  }

  function InterpretExpr(states: seq<StateDecl>, w: World, env: map<string, Val>, e: Expression,
      hostCalls: seq<HostCall>)
    : (r: Result<Eval, RuntimeError>)
    decreases e
  {
    match e
    case Name(x) => if x in env then Ok(Eval(env[x], hostCalls)) else Err(UnknownReference)
    case Number(d) => Ok(Eval(Literal(d), hostCalls))
    case Index(s, k) =>
      var key :- InterpretExpr(states, w, env, k, hostCalls);
      var v :- LoadCell(states, w, s, key.value);
      Ok(Eval(Known(v), key.hostCalls))
    case Call(f, args) =>
      var vals :- InterpretArgs(states, w, env, args, hostCalls);
      var forced :- ForceAll(vals.values);
      (match BuiltinNamed(f)
       case None => Err(UnsupportedOperator)
       case Some(b) =>
         var effect :- Apply(b, w, forced, vals.hostCalls);
         Ok(Eval(Known(effect.output), effect.hostCalls)))
  }

  function InterpretArgs(states: seq<StateDecl>, w: World, env: map<string, Val>, args: seq<Expression>,
      hostCalls: seq<HostCall>)
    : (r: Result<EvalArgs, RuntimeError>)
    ensures r.Ok? ==> |r.value.values| == |args|
    decreases args
  {
    if args == [] then Ok(EvalArgs([], hostCalls))
    else
      var last := |args| - 1;
      var init :- InterpretArgs(states, w, env, args[..last], hostCalls);
      var next :- InterpretExpr(states, w, env, args[last], init.hostCalls);
      Ok(EvalArgs(init.values + [next.value], next.hostCalls))
  }

  datatype LogEntry = LogEntry(state: string, key: Option<Val>, value: Val)

  datatype SourceState = SourceState(env: map<string, Val>, hostCalls: seq<HostCall>, log: seq<LogEntry>,
      opening: Option<Val>)

  // An assignment evaluates its value before its key.
  function InterpretAssign(states: seq<StateDecl>, w: World, s: SourceState, target: Expression,
      v: Eval): (r: Result<SourceState, RuntimeError>)
  {
    match target
    case Index(name, k) =>
      var key :- InterpretExpr(states, w, s.env, k, v.hostCalls);
      Ok(s.(hostCalls := key.hostCalls, log := s.log + [LogEntry(name, Some(key.value), v.value)]))
    case Name(name) => Ok(s.(hostCalls := v.hostCalls, log := s.log + [LogEntry(name, None, v.value)]))
    case _ => Err(InvalidManifest)
  }

  function InterpretStatement(states: seq<StateDecl>, w: World, s: SourceState,
      st: Statement): (r: Result<SourceState, RuntimeError>)
  {
    match st
    case Local(_, name, e) =>
      var v :- InterpretExpr(states, w, s.env, e, s.hostCalls);
      Ok(s.(env := s.env[name := v.value], hostCalls := v.hostCalls))
    case Assign(target, e) =>
      var v :- InterpretExpr(states, w, s.env, e, s.hostCalls);
      InterpretAssign(states, w, s, target, v)
    case Require(e) =>
      var v :- InterpretExpr(states, w, s.env, e, s.hostCalls);
      var condition :- Force(v.value);
      var holds :- w.backend.secretBool(condition);
      if holds then Ok(s.(hostCalls := v.hostCalls)) else Err(PolicyRejected)
    case Return(e) =>
      var v :- InterpretExpr(states, w, s.env, e, s.hostCalls);
      Ok(s.(hostCalls := v.hostCalls, opening := Some(v.value)))
    case ExprStatement(e) =>
      var v :- InterpretExpr(states, w, s.env, e, s.hostCalls);
      Ok(s.(hostCalls := v.hostCalls))
  }

  function StartEnv(params: seq<Param>, inv: Invocation, k: nat): (env: map<string, Val>)
    requires k <= |params| && forall i :: 0 <= i < k ==> params[i].name in inv.inputs
  {
    if k == 0 then map["msg.sender" := Known(AddressValue(inv.sender))]
    else StartEnv(params, inv, k - 1)[params[k - 1].name := Known(inv.inputs[params[k - 1].name])]
  }

  predicate HasInputs(f: Function, inv: Invocation) {
    forall i :: 0 <= i < |f.params| ==> f.params[i].name in inv.inputs
  }

  // The state after the first k statements.
  function InterpretBody(states: seq<StateDecl>, f: Function, w: World, inv: Invocation,
      k: nat): (r: Result<SourceState, RuntimeError>)
    requires k <= |f.body| && HasInputs(f, inv)
  {
    if k == 0 then Ok(SourceState(StartEnv(f.params, inv, |f.params|), [], [], None))
    else
      var s :- InterpretBody(states, f, w, inv, k - 1);
      InterpretStatement(states, w, s, f.body[k - 1])
  }

  function CheckEntry(states: seq<StateDecl>, entry: LogEntry): (r: Result<StateWrite, RuntimeError>) {
    var state :- ManifestState(states, entry.state);
    var key :- (match entry.key
                case Some(k) =>
                  (match Force(k)
                   case Ok(v) => StateKey(v)
                   case Err(e) => Err(e))
                case None => Ok([]));
    var value :- Force(entry.value);
    if value.ty != state.ty then Err(TypeMismatch) else Ok(StateWrite(entry.state, key, value))
  }

  // The first k log entries as writes.
  function CheckLog(states: seq<StateDecl>, log: seq<LogEntry>, k: nat): (r: Result<seq<StateWrite>, RuntimeError>)
    requires k <= |log|
    ensures r.Ok? ==> |r.value| == k
  {
    if k == 0 then Ok([])
    else
      var init :- CheckLog(states, log, k - 1);
      var last :- CheckEntry(states, log[k - 1]);
      Ok(init + [last])
  }

  function ShowOpening(opening: Option<Val>): (r: Result<Option<Value>, RuntimeError>) {
    match opening
    case None => Ok(None)
    case Some(v) =>
      var value :- Force(v);
      Ok(Some(value))
  }

  function Conclude(states: seq<StateDecl>, s: SourceState): (r: Result<Outcome, RuntimeError>) {
    var writes :- CheckLog(states, s.log, |s.log|);
    var opening :- ShowOpening(s.opening);
    Ok(Outcome(writes, s.hostCalls, opening))
  }

  function InterpretFunction(states: seq<StateDecl>, f: Function, w: World,
      inv: Invocation): (r: Result<Outcome, RuntimeError>)
  {
    var _ :- CheckInputs(f.params, inv.inputs);
    CheckedInputs(f.params, inv.inputs);
    var s :- InterpretBody(states, f, w, inv, |f.body|);
    Conclude(states, s)
  }

  function FindSource(functions: seq<Function>, name: string): (r: Option<Function>) {
    if functions == [] then None
    else if functions[0].name == name then Some(functions[0])
    else FindSource(functions[1..], name)
  }

  // The meaning of a program's function in a world.
  function Interpret(p: Program, name: string, w: World, inv: Invocation): (r: Result<Outcome, RuntimeError>) {
    match FindSource(p.functions, name)
    case None => Err(FunctionNotFound)
    case Some(f) => InterpretFunction(p.states, f, w, inv)
  }
}
