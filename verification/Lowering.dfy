/** Type checking and lowering of contract functions into operator lists. */
module Lowering {
  import opened Wrappers
  import opened Language
  import opened Manifests

  datatype Fault =
    | UnknownValue(name: string)
    | UnknownState(name: string)
    | ScalarIndexed
    | MappedNeedsIndex
    | BadTarget
    | TypeClash(context: string, expected: ValueType, actual: ValueType)
    | NotOpened
    | H2SOperand
    | UnknownOperation(operation: string)
    | WrongArity(operation: string, wanted: nat, given: nat)
    | WrongArgument(operation: string, position: nat, expected: ValueType, actual: ValueType)

  datatype CompileError =
    | InFunction(name: string, fault: Fault)
    | StateType(name: string)
    | StateKeyType(name: string)
    | DuplicateState(name: string)

  datatype TypedRef = TypedRef(ty: ValueType, reference: Ref)

  type Env = map<string, TypedRef>

  // A lowered expression: the value it stands for and the operators it appends.
  datatype Lowered = Lowered(value: TypedRef, nodes: seq<OperatorNode>)

  datatype LoweredArgs = LoweredArgs(values: seq<TypedRef>, nodes: seq<OperatorNode>)

  datatype Signature = Signature(expected: seq<ValueType>, output: ValueType, opcode: Opcode, domain: Representation)

  function ExpectType(expected: ValueType, actual: ValueType, context: string): (r: Result<(), Fault>) {
    if expected == actual then Ok(()) else Err(TypeClash(context, expected, actual))
  }

  function LookupState(states: seq<StateDecl>, name: string): (r: Result<StateDecl, Fault>) {
    match FindState(states, name)
    case Some(d) => Ok(d)
    case None => Err(UnknownState(name))
  }

  function LookupKey(d: StateDecl): (r: Result<ValueType, Fault>) {
    match d.keyTy
    case Some(t) => Ok(t)
    case None => Err(ScalarIndexed)
  }

  function SignatureOf(name: string, args: seq<TypedRef>): (r: Result<Signature, Fault>) {
    match BuiltinNamed(name)
    case None => Err(UnknownOperation(name))
    case Some(b) => BuiltinSignature(b, if args == [] then None else Some(args[0].ty))
  }

  function BuiltinSignature(b: Builtin, first: Option<ValueType>): (r: Result<Signature, Fault>) {
    match b
    case FheEncrypt => Ok(Signature([Uint], FheUint, EvalFheEncrypt, Fhe))
    case FheAdd => Ok(Signature([FheUint, FheUint], FheUint, EvalFheAdd, Fhe))
    case FheSub => Ok(Signature([FheUint, FheUint], FheUint, EvalFheSub, Fhe))
    case FheGe => Ok(Signature([FheUint, FheUint], FheBool, EvalFheGe, Fhe))
    case MpcAdd => Ok(Signature([Sint, Sint], Sint, EvalMpcAdd, SecretSharing))
    case MpcSub => Ok(Signature([Sint, Sint], Sint, EvalMpcSub, SecretSharing))
    case MpcGe => Ok(Signature([Sint, Sint], SecretBool, EvalMpcGe, SecretSharing))
    case H2S =>
      if first == Some(FheUint) then Ok(Signature([FheUint], Sint, ConvertH2S, SecretSharing))
      else if first == Some(FheBool) then Ok(Signature([FheBool], SecretBool, ConvertH2S, SecretSharing))
      else Err(H2SOperand)
    case S2H => Ok(Signature([Sint], FheUint, ConvertS2H, Fhe))
    case Pick => Ok(Signature([Sint], Opened, OpeningPick, Public))
    case ReceiveEncryptedToken => Ok(Signature([FheUint], Void, HostReceive, Fhe))
    case SendEncryptedToken => Ok(Signature([Address, FheUint], Void, HostSend, Fhe))
  }

  // The first argument whose type differs from the expected one, from position k on.
  function CheckTypes(name: string, args: seq<TypedRef>, expected: seq<ValueType>, k: nat): (r: Result<(), Fault>)
    requires |args| == |expected| && k <= |args|
    ensures r.Ok? <==> forall i :: k <= i < |args| ==> args[i].ty == expected[i]
    decreases |args| - k
  {
    if k == |args| then Ok(())
    else if args[k].ty != expected[k] then Err(WrongArgument(name, k + 1, expected[k], args[k].ty))
    else CheckTypes(name, args, expected, k + 1)
  }

  function CheckArgs(name: string, args: seq<TypedRef>, expected: seq<ValueType>): (r: Result<(), Fault>) {
    if |args| != |expected| then Err(WrongArity(name, |expected|, |args|))
    else CheckTypes(name, args, expected, 0)
  }

  function References(args: seq<TypedRef>): (r: seq<Ref>)
    ensures |r| == |args|
  {
    seq(|args|, i requires 0 <= i < |args| => args[i].reference)
  }

  function Node(n: nat, opcode: Opcode, domain: Representation, inputs: seq<Ref>, outputType: ValueType,
      state: Option<string>): (o: OperatorNode)
  {
    OperatorNode(Op(n), opcode, domain, inputs, outputType, state)
  }

  // n is the number of operators already emitted.
  function LowerExpr(states: seq<StateDecl>, env: Env, e: Expression, n: nat): (r: Result<Lowered, Fault>)
    decreases e
  {
    match e
    case Name(x) => if x in env then Ok(Lowered(env[x], [])) else Err(UnknownValue(x))
    case Number(d) => Ok(Lowered(TypedRef(Uint, Const(d)), []))
    case Index(s, k) =>
      var decl :- LookupState(states, s);
      var key :- LowerExpr(states, env, k, n);
      var keyTy :- LookupKey(decl);
      var _ :- ExpectType(keyTy, key.value.ty, "state key");
      var id := n + |key.nodes|;
      Ok(Lowered(TypedRef(decl.ty, Op(id)),
                 key.nodes + [Node(id, LoadState, decl.ty.Representation(), [key.value.reference], decl.ty, Some(s))]))
    case Call(f, args) =>
      var lowered :- LowerArgs(states, env, args, n);
      var sig :- SignatureOf(f, lowered.values);
      var _ :- CheckArgs(f, lowered.values, sig.expected);
      var id := n + |lowered.nodes|;
      Ok(Lowered(TypedRef(sig.output, Op(id)),
                 lowered.nodes + [Node(id, sig.opcode, sig.domain, References(lowered.values), sig.output, None)]))
  }

  function LowerArgs(states: seq<StateDecl>, env: Env, args: seq<Expression>, n: nat): (r: Result<LoweredArgs, Fault>)
    ensures r.Ok? ==> |r.value.values| == |args|
    decreases args
  {
    if args == [] then Ok(LoweredArgs([], []))
    else
      var last := |args| - 1;
      var init :- LowerArgs(states, env, args[..last], n);
      var next :- LowerExpr(states, env, args[last], n + |init.nodes|);
      Ok(LoweredArgs(init.values + [next.value], init.nodes + next.nodes))
  }

  lemma {:induction false} LowerArgsFails(states: seq<StateDecl>, env: Env, args: seq<Expression>, n: nat, k: nat)
    requires k <= |args| && LowerArgs(states, env, args[..k], n).Err?
    ensures LowerArgs(states, env, args, n) == Err(LowerArgs(states, env, args[..k], n).error)
    decreases |args|
  {
    if k == |args| {
      assert args[..k] == args;
    } else {
      var last := |args| - 1;
      assert args[..last][..k] == args[..k];
      LowerArgsFails(states, env, args[..last], n, k);
    }
  }

  datatype LowerState = LowerState(env: Env, operators: seq<OperatorNode>, writes: seq<WriteNode>, opening: Option<Ref>)

  function ParamEnv(params: seq<Param>, k: nat): (env: Env)
    requires k <= |params|
  {
    if k == 0 then map["msg.sender" := TypedRef(Address, Sender)]
    else ParamEnv(params, k - 1)[params[k - 1].name := TypedRef(params[k - 1].ty, Input(params[k - 1].name))]
  }

  function StartState(f: Function): (s: LowerState) {
    LowerState(ParamEnv(f.params, |f.params|), [], [], None)
  }

  function LowerAssignment(states: seq<StateDecl>, s: LowerState, target: Expression,
      value: TypedRef): (r: Result<LowerState, Fault>)
  {
    match target
    case Index(name, k) =>
      var decl :- LookupState(states, name);
      var key :- LowerExpr(states, s.env, k, |s.operators|);
      var keyTy :- LookupKey(decl);
      var _ :- ExpectType(keyTy, key.value.ty, "state key");
      var _ :- ExpectType(decl.ty, value.ty, "state assignment");
      Ok(s.(operators := s.operators + key.nodes,
            writes := s.writes + [WriteNode(name, Some(key.value.reference), value.reference)]))
    case Name(name) =>
      var decl :- LookupState(states, name);
      if decl.keyTy.Some? then Err(MappedNeedsIndex)
      else
        var _ :- ExpectType(decl.ty, value.ty, "state assignment");
        Ok(s.(writes := s.writes + [WriteNode(name, None, value.reference)]))
    case _ => Err(BadTarget)
  }

  function LowerStatement(states: seq<StateDecl>, s: LowerState, st: Statement): (r: Result<LowerState, Fault>) {
    match st
    case Local(expected, name, e) =>
      var v :- LowerExpr(states, s.env, e, |s.operators|);
      var _ :- ExpectType(expected, v.value.ty, "local declaration");
      Ok(s.(operators := s.operators + v.nodes, env := s.env[name := v.value]))
    case Assign(target, e) =>
      var v :- LowerExpr(states, s.env, e, |s.operators|);
      LowerAssignment(states, s.(operators := s.operators + v.nodes), target, v.value)
    case Require(e) =>
      var v :- LowerExpr(states, s.env, e, |s.operators|);
      var _ :- ExpectType(SecretBool, v.value.ty, "require");
      var ops := s.operators + v.nodes;
      Ok(s.(operators := ops + [Node(|ops|, RequireSecret, SecretSharing, [v.value.reference], Void, None)]))
    case Return(e) =>
      var v :- LowerExpr(states, s.env, e, |s.operators|);
      if v.value.ty != Opened then Err(NotOpened)
      else Ok(s.(operators := s.operators + v.nodes, opening := Some(v.value.reference)))
    case ExprStatement(e) =>
      var v :- LowerExpr(states, s.env, e, |s.operators|);
      Ok(s.(operators := s.operators + v.nodes))
  }

  // The state after the first k statements.
  function LowerBody(states: seq<StateDecl>, f: Function, k: nat): (r: Result<LowerState, Fault>)
    requires k <= |f.body|
  {
    if k == 0 then Ok(StartState(f))
    else
      var s :- LowerBody(states, f, k - 1);
      LowerStatement(states, s, f.body[k - 1])
  }

  lemma {:induction false} LowerBodyFails(states: seq<StateDecl>, f: Function, k: nat, m: nat)
    requires k <= m <= |f.body| && LowerBody(states, f, k).Err?
    ensures LowerBody(states, f, m) == LowerBody(states, f, k)
    decreases m
  {
    hide LowerStatement, StartState;
    if k < m {
      LowerBodyFails(states, f, k, m - 1);
    }
  }

  function LowerFunction(states: seq<StateDecl>, f: Function): (r: Result<FunctionManifest, CompileError>) {
    match LowerBody(states, f, |f.body|)
    case Err(fault) => Err(InFunction(f.name, fault))
    case Ok(s) => Ok(FunctionManifest(f.name, f.params, s.operators, s.writes, s.opening))
  }

  // ---- the lowerer, which accumulates operators, writes and bindings in place ----

  class Lowerer {
    const states: seq<StateDecl>
    const source: Function
    var env: Env
    var operators: seq<OperatorNode>
    var writes: seq<WriteNode>
    var opening: Option<Ref>

    function State(): (s: LowerState)
      reads this
    {
      LowerState(env, operators, writes, opening)
    }

    constructor (states: seq<StateDecl>, f: Function)
      ensures this.states == states && source == f && State() == StartState(f)
    {
      this.states, source := states, f;
      operators, writes, opening := [], [], None;
      env := map["msg.sender" := TypedRef(Address, Sender)];
      new;
      for k := 0 to |f.params|
        invariant env == ParamEnv(f.params, k)
        invariant this.states == states && source == f && operators == [] && writes == [] && opening == None
      {
        env := env[f.params[k].name := TypedRef(f.params[k].ty, Input(f.params[k].name))];
      }
    }

    method PushNode(opcode: Opcode, domain: Representation, inputs: seq<Ref>, outputType: ValueType,
        state: Option<string>) returns (id: Ref)
      modifies this`operators
      ensures id == Op(|old(operators)|)
      ensures operators == old(operators) + [Node(|old(operators)|, opcode, domain, inputs, outputType, state)]
    {
      id := Op(|operators|);
      operators := operators + [OperatorNode(id, opcode, domain, inputs, outputType, state)];
    }

    method Expr(e: Expression) returns (r: Result<TypedRef, Fault>)
      modifies this`operators
      ensures match LowerExpr(states, env, e, |old(operators)|)
              case Err(fault) => r == Err(fault)
              case Ok(l) => r == Ok(l.value) && operators == old(operators) + l.nodes
      decreases e
    {
      hide SignatureOf, CheckArgs, References, LookupState, ExpectType, LowerArgs;
      match e
      case Name(x) =>
        if x in env { return Ok(env[x]); } else { return Err(UnknownValue(x)); }
      case Number(d) => return Ok(TypedRef(Uint, Const(d)));
      case Index(s, k) =>
        var decl := LookupState(states, s);
        if decl.Err? { return Err(decl.error); }
        var key := Expr(k);
        if key.Err? { return Err(key.error); }
        var keyTy := LookupKey(decl.value);
        if keyTy.Err? { return Err(keyTy.error); }
        var check := ExpectType(keyTy.value, key.value.ty, "state key");
        if check.Err? { return Err(check.error); }
        var id := PushNode(LoadState, decl.value.ty.Representation(), [key.value.reference], decl.value.ty, Some(s));
        return Ok(TypedRef(decl.value.ty, id));
      case Call(f, args) => r := CallExpr(f, args);
    }

    method CallExpr(name: string, arguments: seq<Expression>) returns (r: Result<TypedRef, Fault>)
      modifies this`operators
      ensures match LowerExpr(states, env, Call(name, arguments), |old(operators)|)
              case Err(fault) => r == Err(fault)
              case Ok(l) => r == Ok(l.value) && operators == old(operators) + l.nodes
      decreases arguments, 1
    {
      hide SignatureOf, CheckArgs, References, LowerArgs;
      var lowered := LowerAll(arguments);
      if lowered.Err? { return Err(lowered.error); }
      var args := lowered.value;
      var sig := SignatureOf(name, args);
      if sig.Err? { return Err(sig.error); }
      var check := CheckArgs(name, args, sig.value.expected);
      if check.Err? { return Err(check.error); }
      var id := PushNode(sig.value.opcode, sig.value.domain, References(args), sig.value.output, None);
      return Ok(TypedRef(sig.value.output, id));
    }

    // The arguments of a call, in order.
    method LowerAll(arguments: seq<Expression>) returns (r: Result<seq<TypedRef>, Fault>)
      modifies this`operators
      ensures match LowerArgs(states, env, arguments, |old(operators)|)
              case Err(fault) => r == Err(fault)
              case Ok(l) => r == Ok(l.values) && operators == old(operators) + l.nodes
      decreases arguments, 0
    {
      hide LowerExpr;
      ghost var n := |operators|;
      var args := [];
      for i := 0 to |arguments|
        invariant LowerArgs(states, env, arguments[..i], n).Ok?
        invariant args == LowerArgs(states, env, arguments[..i], n).value.values
        invariant operators == old(operators) + LowerArgs(states, env, arguments[..i], n).value.nodes
      {
        assert arguments[..i + 1][..i] == arguments[..i] && arguments[..i + 1][i] == arguments[i];
        var a := Expr(arguments[i]);
        if a.Err? {
          LowerArgsFails(states, env, arguments, n, i + 1);
          return Err(a.error);
        }
        args := args + [a.value];
      }
      assert arguments[..|arguments|] == arguments;
      return Ok(args);
    }

    method Assignment(target: Expression, value: TypedRef) returns (r: Result<(), Fault>)
      modifies this`operators, this`writes
      ensures match LowerAssignment(states, old(State()), target, value)
              case Err(fault) => r == Err(fault)
              case Ok(s) => r == Ok(()) && State() == s
    {
      match target
      case Index(name, k) =>
        var decl := LookupState(states, name);
        if decl.Err? { return Err(decl.error); }
        var key := Expr(k);
        if key.Err? { return Err(key.error); }
        var keyTy := LookupKey(decl.value);
        if keyTy.Err? { return Err(keyTy.error); }
        var check := ExpectType(keyTy.value, key.value.ty, "state key");
        if check.Err? { return Err(check.error); }
        check := ExpectType(decl.value.ty, value.ty, "state assignment");
        if check.Err? { return Err(check.error); }
        writes := writes + [WriteNode(name, Some(key.value.reference), value.reference)];
        return Ok(());
      case Name(name) =>
        var decl := LookupState(states, name);
        if decl.Err? { return Err(decl.error); }
        if decl.value.keyTy.Some? { return Err(MappedNeedsIndex); }
        var check := ExpectType(decl.value.ty, value.ty, "state assignment");
        if check.Err? { return Err(check.error); }
        writes := writes + [WriteNode(name, None, value.reference)];
        return Ok(());
      case _ => return Err(BadTarget);
    }

    method Stmt(st: Statement) returns (r: Result<(), Fault>)
      modifies this
      ensures match LowerStatement(states, old(State()), st)
              case Err(fault) => r == Err(fault)
              case Ok(s) => r == Ok(()) && State() == s
    {
      match st
      case Local(expected, name, e) =>
        var v := Expr(e);
        if v.Err? { return Err(v.error); }
        var check := ExpectType(expected, v.value.ty, "local declaration");
        if check.Err? { return Err(check.error); }
        env := env[name := v.value];
        return Ok(());
      case Assign(target, e) =>
        var v := Expr(e);
        if v.Err? { return Err(v.error); }
        r := Assignment(target, v.value);
      case Require(e) =>
        var v := Expr(e);
        if v.Err? { return Err(v.error); }
        var check := ExpectType(SecretBool, v.value.ty, "require");
        if check.Err? { return Err(check.error); }
        var _ := PushNode(RequireSecret, SecretSharing, [v.value.reference], Void, None);
        return Ok(());
      case Return(e) =>
        var v := Expr(e);
        if v.Err? { return Err(v.error); }
        if v.value.ty != Opened { return Err(NotOpened); }
        opening := Some(v.value.reference);
        return Ok(());
      case ExprStatement(e) =>
        var v := Expr(e);
        if v.Err? { return Err(v.error); }
        return Ok(());
    }

    method Lower() returns (r: Result<FunctionManifest, CompileError>)
      requires State() == StartState(source)
      modifies this
      ensures r == LowerFunction(states, source)
    {
      hide LowerStatement;
      for k := 0 to |source.body|
        invariant LowerBody(states, source, k) == Ok(State())
      {
        var step := Stmt(source.body[k]);
        if step.Err? {
          LowerBodyFails(states, source, k + 1, |source.body|);
          return Err(InFunction(source.name, step.error));
        }
      }
      return Ok(FunctionManifest(source.name, source.params, operators, writes, opening));
    }
  }

  // ---- whole programs ----

  // The declaration checks for the first k states, in declaration order.
  function CheckStates(states: seq<StateDecl>, k: nat): (r: Result<(), CompileError>)
    requires k <= |states|
  {
    if k == 0 then Ok(())
    else
      var _ :- CheckStates(states, k - 1);
      var d := states[k - 1];
      if d.ty != FheUint && d.ty != Sint then Err(StateType(d.name))
      else if d.keyTy.Some? && d.keyTy != Some(Address) then Err(StateKeyType(d.name))
      else if exists i :: 0 <= i < k - 1 && states[i].name == d.name then Err(DuplicateState(d.name))
      else Ok(())
  }

  // Lowers the first k functions.
  function LowerFunctions(p: Program, k: nat): (r: Result<seq<FunctionManifest>, CompileError>)
    requires k <= |p.functions|
    ensures r.Ok? ==> |r.value| == k
  {
    if k == 0 then Ok([])
    else
      var init :- LowerFunctions(p, k - 1);
      var f :- LowerFunction(p.states, p.functions[k - 1]);
      Ok(init + [f])
  }

  function Compile(p: Program): (r: Result<ContractManifest, CompileError>) {
    var _ :- CheckStates(p.states, |p.states|);
    var functions :- LowerFunctions(p, |p.functions|);
    Ok(ContractManifest(p.name, p.states, functions))
  }

  lemma {:induction false} CheckStatesFails(states: seq<StateDecl>, k: nat, m: nat)
    requires k <= m <= |states| && CheckStates(states, k).Err?
    ensures CheckStates(states, m) == CheckStates(states, k)
    decreases m
  {
    if k < m {
      CheckStatesFails(states, k, m - 1);
    }
  }

  lemma {:induction false} LowerFunctionsFails(p: Program, k: nat, m: nat)
    requires k <= m <= |p.functions| && LowerFunctions(p, k).Err?
    ensures LowerFunctions(p, m) == LowerFunctions(p, k)
    decreases m
  {
    if k < m {
      LowerFunctionsFails(p, k, m - 1);
    }
  }

  // The compiler's driver loops.
  method CompileProgram(p: Program) returns (r: Result<ContractManifest, CompileError>)
    ensures r == Compile(p)
  {
    hide LowerFunction;
    var names: set<string> := {};
    for k := 0 to |p.states|
      invariant CheckStates(p.states, k) == Ok(())
      invariant names == set i | 0 <= i < k :: p.states[i].name
    {
      var d := p.states[k];
      var fault := if d.ty != FheUint && d.ty != Sint then Some(StateType(d.name))
                   else if d.keyTy.Some? && d.keyTy != Some(Address) then Some(StateKeyType(d.name))
                   else if d.name in names then Some(DuplicateState(d.name))
                   else None;
      if fault.Some? {
        assert CheckStates(p.states, k + 1) == Err(fault.value);
        CheckStatesFails(p.states, k + 1, |p.states|);
        return Err(fault.value);
      }
      names := names + {d.name};
    }
    var functions := [];
    for k := 0 to |p.functions|
      invariant LowerFunctions(p, k) == Ok(functions)
    {
      var lowerer := new Lowerer(p.states, p.functions[k]);
      var f := lowerer.Lower();
      if f.Err? {
        LowerFunctionsFails(p, k + 1, |p.functions|);
        return Err(f.error);
      }
      functions := functions + [f.value];
    }
    return Ok(ContractManifest(p.name, p.states, functions));
  }

  // ---- what acceptance means ----

  // Accepted states are protected, keyed by addresses if at all, and named apart.
  lemma {:induction false} AcceptedStates(states: seq<StateDecl>, k: nat)
    requires k <= |states|
    ensures CheckStates(states, k).Ok? <==>
      && (forall i :: 0 <= i < k ==>
          (states[i].ty == FheUint || states[i].ty == Sint)
          && (states[i].keyTy == None || states[i].keyTy == Some(Address)))
      && (forall i, j :: 0 <= i < j < k ==> states[i].name != states[j].name)
  {
    if k > 0 {
      AcceptedStates(states, k - 1);
    }
  }
}
