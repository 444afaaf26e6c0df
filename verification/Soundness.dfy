/** Type soundness: accepted code on the development backend fails only for reasons of data. */
module Soundness {
  import opened Wrappers
  import opened Bytes
  import opened Language
  import opened Manifests
  import opened Lowering
  import opened Executor
  import opened Interpreter
  import opened Preservation
  import opened Plaintext

  predicate DataError(e: RuntimeError) {
    e == StateNotFound || e == PolicyRejected || e == Overflow || e == Underflow
  }

  predicate LiteralsFit(e: Expression) {
    match e
    case Name(_) => true
    case Number(d) => ParseU128(d).Some?
    case Index(_, k) => LiteralsFit(k)
    case Call(_, args) => forall i :: 0 <= i < |args| ==> LiteralsFit(args[i])
  }

  predicate StatementFits(st: Statement) {
    match st
    case Local(_, _, e) => LiteralsFit(e)
    case Assign(t, e) => LiteralsFit(t) && LiteralsFit(e)
    case Require(e) => LiteralsFit(e)
    case Return(e) => LiteralsFit(e)
    case ExprStatement(e) => LiteralsFit(e)
  }

  predicate BodyFits(f: Function) { forall i :: 0 <= i < |f.body| ==> StatementFits(f.body[i]) }

  ghost predicate TypedVal(t: ValueType, v: Val) {
    match v
    case Literal(d) => t == Uint && ParseU128(d).Some?
    case Known(x) => x.ty == t && WellFormed(x)
  }

  ghost predicate TypedEnv(env: Env, ienv: map<string, Val>) {
    env.Keys == ienv.Keys && forall x :: x in env ==> TypedVal(env[x].ty, ienv[x])
  }

  ghost predicate TypedArgs(args: seq<TypedRef>, vals: seq<Val>) {
    |args| == |vals| && forall i :: 0 <= i < |args| ==> TypedVal(args[i].ty, vals[i])
  }

  // Every cell of a declared state is absent or holds a well-formed value of the declared type.
  ghost predicate TypedStore(states: seq<StateDecl>, load: Loader) {
    forall s, k {:trigger load(s, k)} :: FindState(states, s).Some? ==>
      if load(s, k).Err? then load(s, k).error == StateNotFound
      else load(s, k).value.ty == FindState(states, s).value.ty && WellFormed(load(s, k).value)
  }

  ghost predicate SoundEval(t: ValueType, r: Result<Eval, RuntimeError>) {
    match r
    case Err(e) => DataError(e)
    case Ok(v) => TypedVal(t, v.value)
  }

  ghost predicate SoundArgs(args: seq<TypedRef>, r: Result<EvalArgs, RuntimeError>) {
    match r
    case Err(e) => DataError(e)
    case Ok(v) => TypedArgs(args, v.values)
  }

  ghost predicate SoundValue(t: ValueType, r: Result<Value, RuntimeError>) {
    match r
    case Err(e) => DataError(e)
    case Ok(v) => v.ty == t && WellFormed(v)
  }

  function Plain(load: Loader): (w: World) { World(load, PlainBackend()) }

  lemma ForceTyped(t: ValueType, v: Val)
    requires TypedVal(t, v)
    ensures Force(v).Ok? && Force(v).value.ty == t && WellFormed(Force(v).value)
  {
    if v.Literal? {
      var n := ParseU128(v.digits).value;
      assert Force(v).value == PublicUint(n);
    }
  }

  lemma {:induction false} ForceArgs(args: seq<TypedRef>, vals: seq<Val>)
    requires TypedArgs(args, vals)
    ensures ForceAll(vals).Ok?
    ensures forall i ::
        0 <= i < |args| ==> ForceAll(vals).value[i].ty == args[i].ty && WellFormed(ForceAll(vals).value[i])
    decreases |args|
  {
    hide TypedVal, WellFormed;
    if args != [] {
      var last := |args| - 1;
      ForceArgs(args[..last], vals[..last]);
      ForceTyped(args[last].ty, vals[last]);
    }
  }

  lemma NumberOf(v: Value) returns (n: nat)
    requires WellFormed(v) && (IsNumber(v.ty) || v.ty == Uint)
    ensures n < U128 && v == if v.ty == Uint then PublicUint(n) else EncodeUint(v.ty, n)
  {
    if v.ty == Uint {
      n :| n < U128 && v == PublicUint(n);
    } else {
      n :| n < U128 && v == EncodeUint(v.ty, n);
    }
  }

  lemma TruthOf(v: Value) returns (b: bool)
    requires WellFormed(v) && IsTruth(v.ty)
    ensures v == EncodeBool(v.ty, b)
  {
    b :| v == EncodeBool(v.ty, b);
  }

  lemma EncodedWell(n: nat, b: bool)
    requires n < U128
    ensures WellFormed(EncodeUint(FheUint, n)) && WellFormed(EncodeUint(Sint, n)) && WellFormed(EncodeUint(Opened, n))
    ensures WellFormed(EncodeBool(FheBool, b)) && WellFormed(EncodeBool(SecretBool, b)) && WellFormed(VoidValue())
  {
  }

  lemma EncodedTypes(n: nat, b: bool)
    ensures forall t :: EncodeUint(t, n).ty == t && EncodeBool(t, b).ty == t
  {
  }

  // Two-argument number operations.
  lemma BinarySound(a: Value, b: Value)
    requires WellFormed(a) && WellFormed(b) && a.ty == b.ty
    ensures a.ty == FheUint ==>
      && SoundValue(FheUint, EvaluatePlain(EvalFheAdd, [a, b]))
      && SoundValue(FheUint, EvaluatePlain(EvalFheSub, [a, b]))
      && SoundValue(FheBool, EvaluatePlain(EvalFheGe, [a, b]))
    ensures a.ty == Sint ==>
      && SoundValue(Sint, EvaluatePlain(EvalMpcAdd, [a, b])) && SoundValue(Sint, EvaluatePlain(EvalMpcSub, [a, b]))
      && SoundValue(SecretBool, EvaluatePlain(EvalMpcGe, [a, b]))
  {
    hide EvaluatePlain, EncodeUint, EncodeBool, WellFormed;
    if a.ty == FheUint || a.ty == Sint {
      var x := NumberOf(a);
      var y := NumberOf(b);
      ArithmeticMeaning(x, y);
      EncodedTypes(if x >= y then x - y else 0, x >= y);
      EncodedWell(if x >= y then x - y else 0, x >= y);
      if x + y < U128 {
        EncodedTypes(x + y, true);
        EncodedWell(x + y, true);
      }
    }
  }

  // One-argument operations.
  lemma UnarySound(a: Value)
    requires WellFormed(a)
    ensures a.ty == Uint ==> SoundValue(FheUint, EvaluatePlain(EvalFheEncrypt, [a]))
    ensures a.ty == FheUint ==> SoundValue(Sint, EvaluatePlain(ConvertH2S, [a]))
    ensures a.ty == FheBool ==> SoundValue(SecretBool, EvaluatePlain(ConvertH2S, [a]))
    ensures a.ty == Sint ==> SoundValue(FheUint, EvaluatePlain(ConvertS2H, [a])) && SoundValue(Opened, PickPlain(a))
    ensures a.ty == SecretBool ==> PlainBackend().secretBool(a).Ok?
  {
    if IsNumber(a.ty) || a.ty == Uint {
      var n := NumberOf(a);
      ConversionMeaning(n, true);
      EncodedTypes(n, true);
      EncodedWell(n, true);
      hide EvaluatePlain, PickPlain, EncodeUint, EncodeBool, WellFormed, PublicUint;
    } else if IsTruth(a.ty) {
      var b := TruthOf(a);
      ConversionMeaning(0, b);
      EncodedTypes(0, b);
      EncodedWell(0, b);
      hide EvaluatePlain, PickPlain, EncodeUint, EncodeBool, WellFormed, PublicUint;
    }
  }

  ghost predicate SoundEffect(t: ValueType, r: Result<Effect, RuntimeError>) {
    match r
    case Err(e) => DataError(e)
    case Ok(effect) => effect.output.ty == t && WellFormed(effect.output)
  }

  lemma ApplySound(b: Builtin, sig: Signature, args: seq<Value>, load: Loader, hostCalls: seq<HostCall>)
    requires BuiltinSignature(b, if args == [] then None else Some(args[0].ty)) == Ok(sig)
    requires |args| == |sig.expected| && forall i ::
        0 <= i < |args| ==> args[i].ty == sig.expected[i] && WellFormed(args[i])
    ensures SoundEffect(sig.output, Apply(b, Plain(load), args, hostCalls))
  {
    hide WellFormed, Apply, SoundEffect;
    match b
    case ReceiveEncryptedToken => ApplyHost(b, args, load, hostCalls);
    case SendEncryptedToken => ApplyHost(b, args, load, hostCalls);
    case FheAdd => ApplyTwo(b, args[0], args[1], load, hostCalls); assert args == [args[0], args[1]];
    case FheSub => ApplyTwo(b, args[0], args[1], load, hostCalls); assert args == [args[0], args[1]];
    case FheGe => ApplyTwo(b, args[0], args[1], load, hostCalls); assert args == [args[0], args[1]];
    case MpcAdd => ApplyTwo(b, args[0], args[1], load, hostCalls); assert args == [args[0], args[1]];
    case MpcSub => ApplyTwo(b, args[0], args[1], load, hostCalls); assert args == [args[0], args[1]];
    case MpcGe => ApplyTwo(b, args[0], args[1], load, hostCalls); assert args == [args[0], args[1]];
    case _ => ApplyOne(b, args[0], load, hostCalls); assert args == [args[0]];
  }

  lemma ApplyHost(b: Builtin, args: seq<Value>, load: Loader, hostCalls: seq<HostCall>)
    requires b == ReceiveEncryptedToken || b == SendEncryptedToken
    ensures SoundEffect(Void, Apply(b, Plain(load), args, hostCalls))
  {
    EncodedWell(0, true);
  }

  lemma ApplyTwo(b: Builtin, x: Value, y: Value, load: Loader, hostCalls: seq<HostCall>)
    requires WellFormed(x) && WellFormed(y) && x.ty == y.ty
    ensures x.ty == FheUint ==>
      && (b == FheAdd || b == FheSub ==> SoundEffect(FheUint, Apply(b, Plain(load), [x, y], hostCalls)))
      && (b == FheGe ==> SoundEffect(FheBool, Apply(b, Plain(load), [x, y], hostCalls)))
    ensures x.ty == Sint ==>
      && (b == MpcAdd || b == MpcSub ==> SoundEffect(Sint, Apply(b, Plain(load), [x, y], hostCalls)))
      && (b == MpcGe ==> SoundEffect(SecretBool, Apply(b, Plain(load), [x, y], hostCalls)))
  {
    hide EvaluatePlain, PickPlain, WellFormed;
    BinarySound(x, y);
  }

  lemma ApplyOne(b: Builtin, x: Value, load: Loader, hostCalls: seq<HostCall>)
    requires WellFormed(x)
    ensures b == FheEncrypt && x.ty == Uint ==> SoundEffect(FheUint, Apply(b, Plain(load), [x], hostCalls))
    ensures b == H2S && x.ty == FheUint ==> SoundEffect(Sint, Apply(b, Plain(load), [x], hostCalls))
    ensures b == H2S && x.ty == FheBool ==> SoundEffect(SecretBool, Apply(b, Plain(load), [x], hostCalls))
    ensures b == S2H && x.ty == Sint ==> SoundEffect(FheUint, Apply(b, Plain(load), [x], hostCalls))
    ensures b == Pick && x.ty == Sint ==> SoundEffect(Opened, Apply(b, Plain(load), [x], hostCalls))
  {
    hide EvaluatePlain, PickPlain, WellFormed;
    UnarySound(x);
  }

  lemma LoadSound(states: seq<StateDecl>, load: Loader, d: StateDecl, key: Val)
    requires FindState(states, d.name) == Some(d) && TypedStore(states, load) && TypedVal(Address, key)
    ensures SoundValue(d.ty, LoadCell(states, Plain(load), d.name, key))
  {
    ForceTyped(Address, key);
  }

  lemma {:induction false} SoundExpr(states: seq<StateDecl>, load: Loader, env: Env, ienv: map<string, Val>,
      e: Expression, n: nat, hostCalls: seq<HostCall>)
    requires ProperStates(states) && TypedStore(states, load) && TypedEnv(env, ienv) && LiteralsFit(e)
    requires LowerExpr(states, env, e, n).Ok?
    ensures SoundEval(LowerExpr(states, env, e, n).value.value.ty,
        InterpretExpr(states, Plain(load), ienv, e, hostCalls))
    decreases e
  {
    hide TypedStore, WellFormed, BuiltinSignature, BuiltinNamed, Apply, LoadCell, Plain, TypedVal;
    match e
    case Name(_) =>
    case Number(d) => LiteralTyped(d);
    case Index(s, k) =>
      SoundExpr(states, load, env, ienv, k, n, hostCalls);
      var key := InterpretExpr(states, Plain(load), ienv, k, hostCalls);
      if key.Ok? {
        LoadSound(states, load, FindState(states, s).value, key.value.value);
        KnownTyped(FindState(states, s).value.ty, LoadCell(states, Plain(load), s, key.value.value));
      }
    case Call(f, args) =>
      SoundArguments(states, load, env, ienv, args, n, hostCalls);
      SoundCall(states, load, env, ienv, f, args, n, hostCalls);
  }

  lemma LiteralTyped(d: string)
    requires ParseU128(d).Some?
    ensures TypedVal(Uint, Literal(d))
  {
  }

  lemma KnownTyped(t: ValueType, r: Result<Value, RuntimeError>)
    requires SoundValue(t, r)
    ensures r.Err? ==> DataError(r.error)
    ensures r.Ok? ==> TypedVal(t, Known(r.value))
  {
  }

  lemma SoundCall(states: seq<StateDecl>, load: Loader, env: Env, ienv: map<string, Val>, f: string,
      args: seq<Expression>, n: nat, hostCalls: seq<HostCall>)
    requires LowerExpr(states, env, Call(f, args), n).Ok?
    requires LowerArgs(states, env, args, n).Ok?
        ==> SoundArgs(LowerArgs(states, env, args, n).value.values,
        InterpretArgs(states, Plain(load), ienv, args, hostCalls))
    ensures SoundEval(LowerExpr(states, env, Call(f, args), n).value.value.ty,
        InterpretExpr(states, Plain(load), ienv, Call(f, args), hostCalls))
  {
    hide TypedArgs, WellFormed, BuiltinSignature, BuiltinNamed, Apply, Plain, ForceAll;
    var l := LowerArgs(states, env, args, n).value;
    var sig := SignatureOf(f, l.values).value;
    var i := InterpretArgs(states, Plain(load), ienv, args, hostCalls);
    if i.Ok? {
      ForceArgs(l.values, i.value.values);
      SameLength(l.values, i.value.values);
      ApplySound(BuiltinNamed(f).value, sig, ForceAll(i.value.values).value, load, i.value.hostCalls);
    }
  }

  lemma SameLength(args: seq<TypedRef>, vals: seq<Val>)
    requires TypedArgs(args, vals)
    ensures |args| == |vals|
  {
  }

  lemma {:induction false} SoundArguments(states: seq<StateDecl>, load: Loader, env: Env, ienv: map<string, Val>,
      args: seq<Expression>, n: nat, hostCalls: seq<HostCall>)
    requires ProperStates(states) && TypedStore(states, load) && TypedEnv(env, ienv)
    requires forall i :: 0 <= i < |args| ==> LiteralsFit(args[i])
    requires LowerArgs(states, env, args, n).Ok?
    ensures SoundArgs(LowerArgs(states, env, args, n).value.values,
        InterpretArgs(states, Plain(load), ienv, args, hostCalls))
    decreases args
  {
    hide TypedStore, TypedEnv, WellFormed, LowerExpr, InterpretExpr, LiteralsFit, Plain, TypedVal, ProperStates;
    if args != [] {
      var last := |args| - 1;
      SoundArguments(states, load, env, ienv, args[..last], n, hostCalls);
      var init := LowerArgs(states, env, args[..last], n).value;
      var i := InterpretArgs(states, Plain(load), ienv, args[..last], hostCalls);
      if i.Ok? {
        SoundExpr(states, load, env, ienv, args[last], n + |init.nodes|, i.value.hostCalls);
      }
    }
  }

  // ---- bodies ----

  ghost predicate SoundEntry(states: seq<StateDecl>, entry: LogEntry) {
    && FindState(states, entry.state).Some? && TypedVal(FindState(states, entry.state).value.ty, entry.value)
    && match (FindState(states, entry.state).value.keyTy, entry.key)
       case (Some(t), Some(k)) => TypedVal(t, k)
       case (None, None) => true
       case _ => false
  }

  ghost predicate SoundState(states: seq<StateDecl>, s: LowerState, i: SourceState) {
    && TypedEnv(s.env, i.env)
    && (forall j :: 0 <= j < |i.log| ==> SoundEntry(states, i.log[j]))
    && (i.opening.Some? ==> TypedVal(Opened, i.opening.value))
  }

  ghost predicate SoundBody(states: seq<StateDecl>, s: LowerState, r: Result<SourceState, RuntimeError>) {
    match r
    case Err(e) => DataError(e)
    case Ok(i) => SoundState(states, s, i)
  }

  lemma SoundTarget(states: seq<StateDecl>, load: Loader, s: LowerState, i: SourceState, target: Expression,
      t: TypedRef, v: Eval)
    requires ProperStates(states) && TypedStore(states, load) && SoundState(states, s, i) && LiteralsFit(target)
    requires LowerAssignment(states, s, target, t).Ok? && TypedVal(t.ty, v.value)
    ensures SoundBody(states, LowerAssignment(states, s, target, t).value,
        InterpretAssign(states, Plain(load), i, target, v))
  {
    hide TypedStore, TypedVal, TypedEnv, LowerExpr, InterpretExpr, LiteralsFit, Plain, ProperStates;
    match target
    case Index(name, k) =>
      TargetFits(name, k);
      SoundExpr(states, load, s.env, i.env, k, |s.operators|, v.hostCalls);
    case Name(name) =>
    case _ =>
  }

  lemma TargetFits(name: string, k: Expression)
    requires LiteralsFit(Index(name, k))
    ensures LiteralsFit(k)
  {
  }

  lemma SoundStatement(states: seq<StateDecl>, load: Loader, s: LowerState, i: SourceState, st: Statement)
    requires ProperStates(states) && TypedStore(states, load) && SoundState(states, s, i) && StatementFits(st)
    requires LowerStatement(states, s, st).Ok?
    ensures SoundBody(states, LowerStatement(states, s, st).value, InterpretStatement(states, Plain(load), i, st))
  {
    hide TypedStore, WellFormed, LowerExpr, InterpretExpr, LiteralsFit, ProperStates, SoundEntry;
    hide LowerAssignment, InterpretAssign, TypedVal, PlainBackend;
    var e := if st.Require? then st.condition else st.value;
    SoundExpr(states, load, s.env, i.env, e, |s.operators|, i.hostCalls);
    var v := InterpretExpr(states, Plain(load), i.env, e, i.hostCalls);
    if v.Ok? {
      match st
      case Assign(target, _) =>
        var l := LowerExpr(states, s.env, e, |s.operators|).value;
        SoundTarget(states, load, s.(operators := s.operators + l.nodes), i, target, l.value, v.value);
      case Require(_) =>
        ForceTyped(SecretBool, v.value.value);
        UnarySound(Force(v.value.value).value);
      case _ =>
    }
  }

  // The inputs of an invocation as the runtime can construct them.
  ghost predicate ProperInvocation(params: seq<Param>, inv: Invocation) {
    && |inv.sender| == 20 && CheckInputs(params, inv.inputs).Ok?
    && forall x :: x in inv.inputs ==> WellFormed(inv.inputs[x])
  }

  lemma {:induction false} SoundEnv(params: seq<Param>, inv: Invocation, k: nat)
    requires k <= |params| && |inv.sender| == 20 && forall x :: x in inv.inputs ==> WellFormed(inv.inputs[x])
    requires forall j :: 0 <= j < k ==> params[j].name in inv.inputs && inv.inputs[params[j].name].ty == params[j].ty
    ensures TypedEnv(ParamEnv(params, k), StartEnv(params, inv, k))
  {
    hide WellFormed;
    if k == 0 {
      assert WellFormed(AddressValue(inv.sender)) by { SenderWell(inv.sender); }
    } else {
      SoundEnv(params, inv, k - 1);
    }
  }

  lemma SenderWell(a: seq<Byte>)
    requires |a| == 20
    ensures WellFormed(AddressValue(a))
  {
  }

  lemma {:induction false} SoundSteps(states: seq<StateDecl>, load: Loader, f: Function, inv: Invocation, k: nat)
    requires k <= |f.body| && ProperStates(states) && TypedStore(states, load) && BodyFits(f)
    requires |inv.sender| == 20 && forall x :: x in inv.inputs ==> WellFormed(inv.inputs[x])
    requires forall j ::
        0 <= j < |f.params| ==> f.params[j].name in inv.inputs && inv.inputs[f.params[j].name].ty == f.params[j].ty
    requires LowerBody(states, f, k).Ok?
    ensures SoundBody(states, LowerBody(states, f, k).value, InterpretBody(states, f, Plain(load), inv, k))
  {
    hide TypedStore, TypedEnv, WellFormed, LowerStatement, InterpretStatement, StatementFits, Plain;
    hide ProperStates, ParamEnv, StartEnv;
    if k == 0 {
      SoundEnv(f.params, inv, |f.params|);
    } else {
      SoundSteps(states, load, f, inv, k - 1);
      var i := InterpretBody(states, f, Plain(load), inv, k - 1);
      if i.Ok? {
        SoundStatement(states, load, LowerBody(states, f, k - 1).value, i.value, f.body[k - 1]);
      }
    }
  }

  // A write the runtime may persist: a declared state, a proper key, a well-formed typed value.
  ghost predicate ProperWrite(states: seq<StateDecl>, write: StateWrite) {
    && FindState(states, write.state).Some? && write.value.ty == FindState(states, write.state).value.ty
    && WellFormed(write.value)
    && |write.key| == if FindState(states, write.state).value.keyTy.Some? then 20 else 0
  }

  lemma SoundCheck(states: seq<StateDecl>, entry: LogEntry)
    requires ProperStates(states) && SoundEntry(states, entry)
    ensures CheckEntry(states, entry).Ok? && ProperWrite(states, CheckEntry(states, entry).value)
  {
    hide WellFormed;
    ForceTyped(FindState(states, entry.state).value.ty, entry.value);
    if entry.key.Some? {
      ForceTyped(Address, entry.key.value);
      AddressLength(Force(entry.key.value).value);
    }
  }

  lemma AddressLength(v: Value)
    requires WellFormed(v) && v.ty == Address
    ensures |v.bytes| == 20
  {
  }

  lemma {:induction false} SoundLog(states: seq<StateDecl>, log: seq<LogEntry>, k: nat)
    requires ProperStates(states) && k <= |log| && forall j :: 0 <= j < |log| ==> SoundEntry(states, log[j])
    ensures CheckLog(states, log, k).Ok?
    ensures forall j :: 0 <= j < k ==> ProperWrite(states, CheckLog(states, log, k).value[j])
  {
    hide ProperStates, SoundEntry, CheckEntry, ProperWrite;
    if k > 0 {
      SoundLog(states, log, k - 1);
      SoundCheck(states, log[k - 1]);
    }
  }

  ghost predicate SoundOutcome(states: seq<StateDecl>, r: Result<Outcome, RuntimeError>) {
    match r
    case Err(e) => DataError(e)
    case Ok(o) =>
      && (forall j :: 0 <= j < |o.writes| ==> ProperWrite(states, o.writes[j]))
      && (o.opening.Some? ==> o.opening.value.ty == Opened && WellFormed(o.opening.value))
  }

  lemma SoundFunction(states: seq<StateDecl>, load: Loader, f: Function, inv: Invocation)
    requires ProperStates(states) && TypedStore(states, load) && BodyFits(f) && ProperInvocation(f.params, inv)
    requires LowerFunction(states, f).Ok?
    ensures SoundOutcome(states, InterpretFunction(states, f, Plain(load), inv))
  {
    hide TypedStore, TypedEnv, WellFormed, LowerBody, InterpretBody, BodyFits, Plain, ProperStates, SoundEntry;
    hide ProperWrite, CheckInputs;
    CheckedInputs(f.params, inv.inputs);
    SoundSteps(states, load, f, inv, |f.body|);
    var r := InterpretBody(states, f, Plain(load), inv, |f.body|);
    if r.Ok? {
      SoundLog(states, r.value.log, |r.value.log|);
      if r.value.opening.Some? {
        ForceTyped(Opened, r.value.opening.value);
      }
    }
  }

  // Executing compiled code on the development backend: the outcome is proper, or the error is
  // one of the four that depend on data.
  lemma CompiledSound(p: Program, name: string, load: Loader, inv: Invocation)
    requires Compile(p).Ok? && TypedStore(p.states, load)
    requires FindSource(p.functions, name).Some?
    requires BodyFits(FindSource(p.functions, name).value)
        && ProperInvocation(FindSource(p.functions, name).value.params, inv)
    ensures SoundOutcome(p.states, Evaluate(Compile(p).value, name, Plain(load), inv))
  {
    hide TypedStore, Compile, BodyFits, ProperInvocation, Evaluate, LowerFunctions, LowerFunction;
    hide InterpretFunction, ProperStates, SoundOutcome;
    MeaningPreserved(p, name, Plain(load), inv);
    CompiledProper(p);
    FindLowered(p, |p.functions|, name);
    assert p.functions[..|p.functions|] == p.functions;
    SoundFunction(p.states, load, FindSource(p.functions, name).value, inv);
  }
}
