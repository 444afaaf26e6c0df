/** What the operations of the language mean under their source names, on the development backend:
    in the interpreter and, by the simulation, in compiled code. */
module Operations {
  import opened Wrappers
  import opened Bytes
  import opened Language
  import opened Manifests
  import opened Executor
  import opened Interpreter
  import opened Lowering
  import opened Plaintext
  import opened Preservation

  // The value an operation gives on two numbers, a and b, and a bit; none when the arguments are
  // not the encodings it takes.
  ghost predicate Gives(op: string, vs: seq<Value>, a: nat, b: nat, bit: bool, r: Result<Value, RuntimeError>)
    requires a < U128 && b < U128
  {
    && (op == "FHE.encrypt" && vs == [PublicUint(a)] ==> r == Ok(EncodeUint(FheUint, a)))
    && (op == "FHE.add" && vs == [EncodeUint(FheUint, a), EncodeUint(FheUint, b)] ==>
        r == if a + b < U128 then Ok(EncodeUint(FheUint, a + b)) else Err(Overflow))
    && (op == "FHE.sub" && vs == [EncodeUint(FheUint, a), EncodeUint(FheUint, b)] ==>
        r == if a >= b then Ok(EncodeUint(FheUint, a - b)) else Err(Underflow))
    && (op == "FHE.ge" && vs == [EncodeUint(FheUint, a), EncodeUint(FheUint, b)] ==>
        r == Ok(EncodeBool(FheBool, a >= b)))
    && (op == "MPC.add" && vs == [EncodeUint(Sint, a), EncodeUint(Sint, b)] ==>
        r == if a + b < U128 then Ok(EncodeUint(Sint, a + b)) else Err(Overflow))
    && (op == "MPC.sub" && vs == [EncodeUint(Sint, a), EncodeUint(Sint, b)] ==>
        r == if a >= b then Ok(EncodeUint(Sint, a - b)) else Err(Underflow))
    && (op == "MPC.ge" && vs == [EncodeUint(Sint, a), EncodeUint(Sint, b)] ==>
        r == Ok(EncodeBool(SecretBool, a >= b)))
    && (op == "H2S" && vs == [EncodeUint(FheUint, a)] ==> r == Ok(EncodeUint(Sint, a)))
    && (op == "H2S" && vs == [EncodeBool(FheBool, bit)] ==> r == Ok(EncodeBool(SecretBool, bit)))
    && (op == "S2H" && vs == [EncodeUint(Sint, a)] ==> r == Ok(EncodeUint(FheUint, a)))
    && (op == "Pick" && vs == [EncodeUint(Sint, a)] ==> r == Ok(EncodeUint(Opened, a)))
  }

  predicate CryptoName(op: string) {
    || op == "FHE.encrypt" || op == "FHE.add" || op == "FHE.sub" || op == "FHE.ge"
    || op == "MPC.add" || op == "MPC.sub" || op == "MPC.ge" || op == "H2S" || op == "S2H" || op == "Pick"
  }

  // Every operation has one name.
  lemma NamesExactly(op: string)
    ensures BuiltinNamed(op) == Some(FheEncrypt) <==> op == "FHE.encrypt"
    ensures BuiltinNamed(op) == Some(FheAdd) <==> op == "FHE.add"
    ensures BuiltinNamed(op) == Some(FheSub) <==> op == "FHE.sub"
    ensures BuiltinNamed(op) == Some(FheGe) <==> op == "FHE.ge"
    ensures BuiltinNamed(op) == Some(MpcAdd) <==> op == "MPC.add"
    ensures BuiltinNamed(op) == Some(MpcSub) <==> op == "MPC.sub"
    ensures BuiltinNamed(op) == Some(MpcGe) <==> op == "MPC.ge"
    ensures BuiltinNamed(op) == Some(H2S) <==> op == "H2S"
    ensures BuiltinNamed(op) == Some(S2H) <==> op == "S2H"
    ensures BuiltinNamed(op) == Some(Pick) <==> op == "Pick"
    ensures BuiltinNamed(op) == Some(ReceiveEncryptedToken) <==> op == "receiveEncryptedToken"
    ensures BuiltinNamed(op) == Some(SendEncryptedToken) <==> op == "sendEncryptedToken"
  {
  }

  // The value an evaluated expression stands for.
  function ValueOf(r: Result<Eval, RuntimeError>): (v: Result<Value, RuntimeError>) {
    var e :- r;
    Force(e.value)
  }

  // A call to the host is recorded with its arguments and gives nothing.
  function Recorded(opcode: Opcode, vs: seq<Value>, before: seq<HostCall>): (r: Result<Eval, RuntimeError>) {
    Ok(Eval(Known(Value(Void, [])), before + [HostCall(opcode, vs)]))
  }

  // What a call means, given its argument values and the host calls made before it.
  ghost predicate Meant(op: string, vs: seq<Value>, a: nat, b: nat, bit: bool, before: seq<HostCall>,
      r: Result<Eval, RuntimeError>)
    requires a < U128 && b < U128
  {
    && (CryptoName(op) ==> Gives(op, vs, a, b, bit, ValueOf(r)) && (r.Ok? ==> r.value.hostCalls == before))
    && (op == "receiveEncryptedToken" ==> r == Recorded(HostReceive, vs, before))
    && (op == "sendEncryptedToken" ==> r == Recorded(HostSend, vs, before))
    && (!CryptoName(op) && op != "receiveEncryptedToken" && op != "sendEncryptedToken" ==>
        r == Err(UnsupportedOperator))
  }

  lemma ApplyMeant(op: string, k: Builtin, w: World, vs: seq<Value>, a: nat, b: nat, bit: bool, before: seq<HostCall>)
    requires a < U128 && b < U128 && w.backend == PlainBackend() && CryptoName(op) && BuiltinNamed(op) == Some(k)
    ensures var r := Apply(k, w, vs, before);
      && Gives(op, vs, a, b, bit, if r.Ok? then Ok(r.value.output) else Err(r.error))
      && (r.Ok? ==> r.value.hostCalls == before)
  {
    hide EvaluatePlain, PickPlain, Tag, BigEndian, Ascii, BuiltinNamed;
    NamesExactly(op);
    ArithmeticMeaning(a, b);
    ConversionMeaning(a, bit);
  }

  // In the interpreter, for any arguments that evaluate.
  lemma InterpretedMeaning(states: seq<StateDecl>, w: World, env: map<string, Val>, op: string, args: seq<Expression>,
      calls: seq<HostCall>, vs: seq<Value>, a: nat, b: nat, bit: bool)
    requires a < U128 && b < U128 && w.backend == PlainBackend()
    requires var vals := InterpretArgs(states, w, env, args, calls); vals.Ok? && ForceAll(vals.value.values) == Ok(vs)
    ensures Meant(op, vs, a, b, bit, InterpretArgs(states, w, env, args, calls).value.hostCalls,
        InterpretExpr(states, w, env, Call(op, args), calls))
  {
    hide Gives, EvaluatePlain, PickPlain, ApplyCrypto, BuiltinNamed;
    NamesExactly(op);
    var k := BuiltinNamed(op);
    if CryptoName(op) {
      ApplyMeant(op, k.value, w, vs, a, b, bit, InterpretArgs(states, w, env, args, calls).value.hostCalls);
    }
  }

  // ---- compiled code ----

  // The operator a call is lowered to, with the types it takes and gives.
  ghost predicate Emits(op: string, types: seq<ValueType>, node: OperatorNode) {
    || (op == "FHE.encrypt" && types == [Uint] && Is(node, EvalFheEncrypt, "fhe.encrypt", Fhe, FheUint))
    || (op == "FHE.add" && types == [FheUint, FheUint] && Is(node, EvalFheAdd, "fhe.add", Fhe, FheUint))
    || (op == "FHE.sub" && types == [FheUint, FheUint] && Is(node, EvalFheSub, "fhe.sub", Fhe, FheUint))
    || (op == "FHE.ge" && types == [FheUint, FheUint] && Is(node, EvalFheGe, "fhe.ge", Fhe, FheBool))
    || (op == "MPC.add" && types == [Sint, Sint] && Is(node, EvalMpcAdd, "mpc.add", SecretSharing, Sint))
    || (op == "MPC.sub" && types == [Sint, Sint] && Is(node, EvalMpcSub, "mpc.sub", SecretSharing, Sint))
    || (op == "MPC.ge" && types == [Sint, Sint] && Is(node, EvalMpcGe, "mpc.ge", SecretSharing, SecretBool))
    || (op == "H2S" && types == [FheUint] && Is(node, ConvertH2S, "convert.h2s", SecretSharing, Sint))
    || (op == "H2S" && types == [FheBool] && Is(node, ConvertH2S, "convert.h2s", SecretSharing, SecretBool))
    || (op == "S2H" && types == [Sint] && Is(node, ConvertS2H, "convert.s2h", Fhe, FheUint))
    || (op == "Pick" && types == [Sint] && Is(node, OpeningPick, "opening.pick", Public, Opened))
    || (op == "receiveEncryptedToken" && types == [FheUint]
        && Is(node, HostReceive, "host.receive_encrypted_token", Fhe, Void))
    || (op == "sendEncryptedToken" && types == [Address, FheUint]
        && Is(node, HostSend, "host.send_encrypted_token", Fhe, Void))
  }

  // The operator of an opcode, which the manifest spells out.
  predicate Is(node: OperatorNode, opcode: Opcode, text: string, domain: Representation, output: ValueType) {
    node.opcode == opcode && OpcodeText(opcode) == text && node.domain == domain && node.outputType == output
  }

  ghost predicate Typable(op: string, types: seq<ValueType>) { exists node :: Emits(op, types, node) }

  function TypesOf(args: seq<TypedRef>): (t: seq<ValueType>)
    ensures |t| == |args|
  {
    seq(|args|, i requires 0 <= i < |args| => args[i].ty)
  }

  // A call compiles exactly when its arguments do, with types the operation takes; it becomes one
  // more operator, reading the arguments' values.
  lemma EmittedExactly(states: seq<StateDecl>, env: Env, op: string, args: seq<Expression>, n: nat)
    requires LowerArgs(states, env, args, n).Ok?
    ensures var l := LowerArgs(states, env, args, n).value; var r := LowerExpr(states, env, Call(op, args), n);
      && (r.Ok? <==> Typable(op, TypesOf(l.values)))
      && (r.Ok? ==>
        && |r.value.nodes| == |l.nodes| + 1 && r.value.nodes[..|l.nodes|] == l.nodes
        && var node := r.value.nodes[|l.nodes|];
          && Emits(op, TypesOf(l.values), node) && node.id == r.value.value.reference == Op(n + |l.nodes|)
          && r.value.value.ty == node.outputType && |node.inputs| == |args|
          && forall i :: 0 <= i < |args| ==> node.inputs[i] == l.values[i].reference)
  {
    hide LowerArgs, CheckArgs, SignatureOf;
    var l := LowerArgs(states, env, args, n).value;
    SignatureExactly(op, l.values);
  }

  lemma SignatureExactly(op: string, args: seq<TypedRef>)
    ensures var s := SignatureOf(op, args);
      && (s.Ok? && CheckArgs(op, args, s.value.expected).Ok? <==> Typable(op, TypesOf(args)))
      && (s.Ok? && CheckArgs(op, args, s.value.expected).Ok? ==>
        forall node: OperatorNode {:trigger Emits(op, TypesOf(args), node)} ::
          Emits(op, TypesOf(args), node) <==>
            Is(node, s.value.opcode, OpcodeText(s.value.opcode), s.value.domain, s.value.output))
  {
    hide CheckArgs, TypesOf, OpcodeText, BuiltinSignature, BuiltinNamed, Emits;
    var s := SignatureOf(op, args);
    var types := TypesOf(args);
    if s.Ok? {
      ArgsExactly(op, args, s.value.expected);
      if types == s.value.expected {
        SignatureEmits(op, args);
        assert Emits(op, types, OperatorNode(Sender, s.value.opcode, s.value.domain, [], s.value.output, None));
      }
    }
    forall node | Emits(op, types, node) ensures s.Ok? && types == s.value.expected {
      EmitsSignature(op, args, node);
    }
  }

  lemma SignatureEmits(op: string, args: seq<TypedRef>)
    requires SignatureOf(op, args).Ok? && TypesOf(args) == SignatureOf(op, args).value.expected
    ensures var s := SignatureOf(op, args).value;
      forall node: OperatorNode {:trigger Emits(op, TypesOf(args), node)} ::
        Emits(op, TypesOf(args), node) <==> Is(node, s.opcode, OpcodeText(s.opcode), s.domain, s.output)
  {
    hide TypesOf, BuiltinNamed;
    NamesExactly(op);
    FirstType(args);
  }

  lemma EmitsSignature(op: string, args: seq<TypedRef>, node: OperatorNode)
    requires Emits(op, TypesOf(args), node)
    ensures SignatureOf(op, args).Ok? && SignatureOf(op, args).value.expected == TypesOf(args)
  {
    hide TypesOf, Is, BuiltinNamed;
    NamesExactly(op);
    FirstType(args);
  }

  lemma FirstType(args: seq<TypedRef>)
    ensures args == [] <==> TypesOf(args) == []
    ensures args != [] ==> args[0].ty == TypesOf(args)[0]
  {
  }

  lemma ArgsExactly(op: string, args: seq<TypedRef>, expected: seq<ValueType>)
    ensures CheckArgs(op, args, expected).Ok? <==> TypesOf(args) == expected
  {
  }

  // The representation of a type, as manifests name it.
  predicate Represented(ty: ValueType, domain: Representation) {
    match ty
    case FheUint | FheBool => domain == Fhe
    case Sint | SecretBool => domain == SecretSharing
    case _ => domain == Public
  }

  // Reading a state compiles exactly when it is declared with a key of the key's type; it becomes
  // one more operator, a load of that state under the key in the state's representation.
  lemma LoadExactly(states: seq<StateDecl>, env: Env, s: string, key: Expression, n: nat)
    requires LowerExpr(states, env, key, n).Ok?
    ensures var k := LowerExpr(states, env, key, n).value; var r := LowerExpr(states, env, Index(s, key), n);
      var d := FindState(states, s);
      && (r.Ok? <==> d.Some? && d.value.keyTy == Some(k.value.ty))
      && (r.Ok? ==>
        && |r.value.nodes| == |k.nodes| + 1 && r.value.nodes[..|k.nodes|] == k.nodes
        && var node := r.value.nodes[|k.nodes|];
          && Is(node, LoadState, "load_state", node.domain, d.value.ty) && Represented(d.value.ty, node.domain)
          && node.inputs == [k.value.reference] && node.state == Some(s) && r.value.value.ty == d.value.ty
          && node.id == r.value.value.reference == Op(n + |k.nodes|))
      && (d.None? ==> r == Err(UnknownState(s)))
      && (d.Some? && d.value.keyTy == None ==> r == Err(ScalarIndexed))
  {
    hide FindState;
  }

  // A local compiles exactly when its value does with the declared type, and binds the name to it; a
  // return when its value is opened. Otherwise the error names the expected type, then the actual one.
  lemma LocalExactly(states: seq<StateDecl>, s: LowerState, ty: ValueType, name: string, e: Expression)
    ensures var v := LowerExpr(states, s.env, e, |s.operators|);
      var r, o := LowerStatement(states, s, Local(ty, name, e)), LowerStatement(states, s, Return(e));
      && (v.Err? ==> r == Err(v.error) && o == Err(v.error))
      && (v.Ok? && v.value.value.ty != ty ==> r == Err(TypeClash("local declaration", ty, v.value.value.ty)))
      && (v.Ok? && v.value.value.ty == ty ==>
          r == Ok(s.(operators := s.operators + v.value.nodes, env := s.env[name := v.value.value])))
      && (v.Ok? && v.value.value.ty != Opened ==> o == Err(NotOpened))
      && (v.Ok? && v.value.value.ty == Opened ==>
          o == Ok(s.(operators := s.operators + v.value.nodes, opening := Some(v.value.value.reference))))
  {
    hide LowerExpr;
  }

  // A requirement compiles exactly when its condition does, as a secret bit, which one more operator
  // checks.
  lemma RequireExactly(states: seq<StateDecl>, s: LowerState, e: Expression)
    ensures var v := LowerExpr(states, s.env, e, |s.operators|); var r := LowerStatement(states, s, Require(e));
      && (r.Ok? <==> v.Ok? && v.value.value.ty == SecretBool)
      && (v.Ok? && v.value.value.ty != SecretBool ==> r == Err(TypeClash("require", SecretBool, v.value.value.ty)))
      && (r.Ok? ==>
        && r.value.operators[..|r.value.operators| - 1] == s.operators + v.value.nodes
        && var node := r.value.operators[|r.value.operators| - 1];
          && Is(node, RequireSecret, "require_secret", SecretSharing, Void)
          && node.inputs == [v.value.value.reference] && node.id == Op(|r.value.operators| - 1)
          && r.value.env == s.env && r.value.writes == s.writes && r.value.opening == s.opening)
  {
    hide LowerExpr;
  }

  predicate KnownName(op: string) { CryptoName(op) || op == "receiveEncryptedToken" || op == "sendEncryptedToken" }

  // The types an operation takes.
  function Wanted(op: string, types: seq<ValueType>): (w: seq<ValueType>) {
    if op == "FHE.encrypt" then [Uint]
    else if op in {"FHE.add", "FHE.sub", "FHE.ge"} then [FheUint, FheUint]
    else if op in {"MPC.add", "MPC.sub", "MPC.ge"} then [Sint, Sint]
    else if op == "H2S" then if types == [] then [] else types[..1]
    else if op == "receiveEncryptedToken" then [FheUint]
    else if op == "sendEncryptedToken" then [Address, FheUint]
    else [Sint]
  }

  // A call that does not compile is refused for its name, for the operand of H2S, for the number of
  // its arguments or for the first argument of a wrong type, in that order.
  lemma RefusedExactly(states: seq<StateDecl>, env: Env, op: string, args: seq<Expression>, n: nat, k: nat)
    requires LowerArgs(states, env, args, n).Ok?
    ensures var types := TypesOf(LowerArgs(states, env, args, n).value.values); var wanted := Wanted(op, types);
      var r := LowerExpr(states, env, Call(op, args), n);
      && (!KnownName(op) ==> r == Err(UnknownOperation(op)))
      && (op == "H2S" && (types == [] || (types[0] != FheUint && types[0] != FheBool)) ==> r == Err(H2SOperand))
      && (KnownName(op) && (op == "H2S" ==> types != [] && (types[0] == FheUint || types[0] == FheBool)) ==>
        && (|types| != |wanted| ==> r == Err(WrongArity(op, |wanted|, |types|)))
        && (k < |types| == |wanted| && types[k] != wanted[k] && types[..k] == wanted[..k] ==>
          r == Err(WrongArgument(op, k + 1, wanted[k], types[k]))))
  {
    hide LowerArgs, CheckArgs, TypesOf;
    var l := LowerArgs(states, env, args, n).value;
    var types := TypesOf(l.values);
    FirstType(l.values);
    if KnownName(op) { SignatureTypes(op, l.values); }
    if k < |types| == |Wanted(op, types)| && types[k] != Wanted(op, types)[k] && types[..k] == Wanted(op, types)[..k] {
      WrongAt(op, l.values, Wanted(op, types), k, 0);
    }
    if |types| != |Wanted(op, types)| { WrongCount(op, l.values, Wanted(op, types)); }
  }

  lemma SignatureTypes(op: string, args: seq<TypedRef>)
    requires KnownName(op)
    ensures var types := TypesOf(args); var s := SignatureOf(op, args);
      if op == "H2S" && (types == [] || (types[0] != FheUint && types[0] != FheBool)) then s == Err(H2SOperand)
      else s.Ok? && s.value.expected == Wanted(op, types)
  {
    FirstType(args);
  }

  lemma WrongCount(op: string, args: seq<TypedRef>, expected: seq<ValueType>)
    requires |args| != |expected|
    ensures CheckArgs(op, args, expected) == Err(WrongArity(op, |expected|, |args|))
  {
  }

  lemma {:induction false} WrongAt(op: string, args: seq<TypedRef>, expected: seq<ValueType>, k: nat, i: nat)
    requires i <= k < |args| == |expected| && TypesOf(args)[k] != expected[k]
    requires TypesOf(args)[..k] == expected[..k]
    ensures CheckTypes(op, args, expected, i) == Err(WrongArgument(op, k + 1, expected[k], TypesOf(args)[k]))
    ensures CheckArgs(op, args, expected) == CheckTypes(op, args, expected, 0)
    decreases k - i
  {
    if i < k {
      assert TypesOf(args)[..k][i] == expected[..k][i];
      WrongAt(op, args, expected, k, i + 1);
    }
  }

  // In compiled code, run from any state that agrees with the interpreter's environment.
  lemma CompiledMeaning(m: Machine, ops: seq<OperatorNode>, x: ExecState, env: Env, ienv: map<string, Val>, op: string,
      args: seq<Expression>, vs: seq<Value>, a: nat, b: nat, bit: bool)
    requires a < U128 && b < U128 && m.w.backend == PlainBackend()
    requires Reached(m, ops, x) && AddressKeys(m.states) && EnvRel(env, x.values, ienv)
    requires LowerExpr(m.states, env, Call(op, args), |ops|).Ok?
    requires var vals := InterpretArgs(m.states, m.w, ienv, args, x.hostCalls);
      vals.Ok? && ForceAll(vals.value.values) == Ok(vs)
    ensures var l := LowerExpr(m.states, env, Call(op, args), |ops|).value;
      var before := InterpretArgs(m.states, m.w, ienv, args, x.hostCalls).value.hostCalls;
      var run := m.Run(ops + l.nodes);
      && (run.Err? ==> Meant(op, vs, a, b, bit, before, Err(run.error)))
      && (run.Ok? ==> l.value.reference in run.value.values && Meant(op, vs, a, b, bit, before,
          Ok(Eval(Known(run.value.values[l.value.reference]), run.value.hostCalls))))
  {
    hide Gives, LowerArgs, InterpretArgs, InterpretExpr, EnvRel, Reached, ForceAll;
    SimExpr(m, ops, x, env, ienv, Call(op, args));
    InterpretedMeaning(m.states, m.w, ienv, op, args, x.hostCalls, vs, a, b, bit);
  }
}
