/** The manifest executor: validates the inputs, runs the operators in order, and only at the end
    resolves the write set that a caller may commit. */
module Executor {
  import opened Wrappers
  import opened Bytes
  import opened Language
  import opened Manifests

  datatype Value = Value(ty: ValueType, bytes: seq<Byte>)

  datatype RuntimeError =
    | FunctionNotFound
    | MissingInput
    | TypeMismatch
    | UnknownReference
    | InvalidManifest
    | InvalidStateKey
    | InvalidValue
    | StateNotFound
    | StateUnavailable
    | UnsupportedOperator
    | PolicyRejected
    | Overflow
    | Underflow
    | PersistenceFailure
    | CorruptPersistence
    | CursorMismatch

  datatype StateWrite = StateWrite(state: string, key: seq<Byte>, value: Value)

  datatype HostCall = HostCall(opcode: Opcode, arguments: seq<Value>)

  datatype Outcome = Outcome(writes: seq<StateWrite>, hostCalls: seq<HostCall>, opening: Option<Value>)

  // The cryptographic engine and the state reader are parameters: any functions will do.
  datatype Backend = Backend(
    evaluate: (Opcode, seq<Value>) -> Result<Value, RuntimeError>,
    secretBool: Value -> Result<bool, RuntimeError>,
    pick: Value -> Result<Value, RuntimeError>)

  type Loader = (string, seq<Byte>) -> Result<Value, RuntimeError>

  datatype World = World(load: Loader, backend: Backend)

  datatype Invocation = Invocation(sender: seq<Byte>, inputs: map<string, Value>)

  const U128: int := 0x1_0000_0000_0000_0000_0000_0000_0000_0000 // 2^128

  function AddressValue(a: seq<Byte>): (v: Value) { Value(Address, a) }

  function PublicUint(n: nat): (v: Value) { Value(Uint, BigEndian(n, 16)) }

  function VoidValue(): (v: Value) { Value(Void, []) }

  function StateKey(v: Value): (r: Result<seq<Byte>, RuntimeError>) {
    if v.ty != Address || |v.bytes| != 20 then Err(InvalidStateKey) else Ok(v.bytes)
  }

  predicate IsDigit(c: char) { '0' <= c <= '9' }

  predicate AllDigits(s: string) { forall i :: 0 <= i < |s| ==> IsDigit(s[i]) }

  // The number a digit string spells.
  function DigitsValue(s: string): (n: nat)
    requires AllDigits(s)
  {
    if s == [] then 0
    else
      var last := s[|s| - 1];
      assert IsDigit(last);
      10 * DigitsValue(s[..|s| - 1]) + (last as int - '0' as int)
  }

  // Decimal parsing of a 128-bit number; one leading plus sign is accepted.
  function ParseU128(s: string): (r: Option<nat>) {
    var digits := if s != [] && s[0] == '+' then s[1..] else s;
    if digits == [] || !AllDigits(digits) then None
    else if DigitsValue(digits) < U128 then Some(DigitsValue(digits))
    else None
  }

  function LiteralValue(digits: string): (r: Result<Value, RuntimeError>) {
    match ParseU128(digits)
    case Some(n) => Ok(PublicUint(n))
    case None => Err(InvalidManifest)
  }

  function Resolve(r: Ref, values: map<Ref, Value>): (v: Result<Value, RuntimeError>) {
    if r in values then Ok(values[r]) else Err(UnknownReference)
  }

  function ResolveOwned(r: Ref, values: map<Ref, Value>): (v: Result<Value, RuntimeError>) {
    match r
    case Const(d) => LiteralValue(d)
    case _ => Resolve(r, values)
  }

  function ResolveAll(refs: seq<Ref>, values: map<Ref, Value>): (r: Result<seq<Value>, RuntimeError>)
    ensures r.Ok? ==> |r.value| == |refs|
  {
    if refs == [] then Ok([])
    else
      var init :- ResolveAll(refs[..|refs| - 1], values);
      var last :- ResolveOwned(refs[|refs| - 1], values);
      Ok(init + [last])
  }

  function ManifestState(states: seq<StateDecl>, name: string): (r: Result<StateDecl, RuntimeError>) {
    match FindState(states, name)
    case Some(d) => Ok(d)
    case None => Err(InvalidManifest)
  }

  function Typed(r: Result<Value, RuntimeError>, ty: ValueType): (v: Result<Value, RuntimeError>)
    ensures v.Ok? <==> r.Ok? && r.value.ty == ty
    ensures v.Ok? ==> v == r
  {
    if r.Ok? && r.value.ty != ty then Err(TypeMismatch) else r
  }

  datatype Effect = Effect(output: Value, hostCalls: seq<HostCall>)

  function LoadOperator(states: seq<StateDecl>, w: World, op: OperatorNode,
      arguments: seq<Value>): (r: Result<Value, RuntimeError>)
  {
    if op.state == None then Err(InvalidManifest)
    else
      var declaration :- ManifestState(states, op.state.value);
      var key :- (match declaration.keyTy
                  case Some(Address) => if arguments == [] then Err(InvalidManifest) else StateKey(arguments[0])
                  case None => if arguments == [] then Ok([]) else Err(InvalidStateKey)
                  case _ => Err(InvalidStateKey));
      Typed(w.load(op.state.value, key), op.outputType)
  }

  function ExecuteOperator(states: seq<StateDecl>, w: World, op: OperatorNode, values: map<Ref, Value>,
      hostCalls: seq<HostCall>)
    : (r: Result<Effect, RuntimeError>)
  {
    var arguments :- ResolveAll(op.inputs, values);
    Perform(states, w, op, arguments, hostCalls)
  }

  function Perform(states: seq<StateDecl>, w: World, op: OperatorNode, arguments: seq<Value>, hostCalls: seq<HostCall>)
    : (r: Result<Effect, RuntimeError>)
  {
    match op.opcode
    case LoadState =>
      var v :- LoadOperator(states, w, op, arguments);
      Ok(Effect(v, hostCalls))
    case RequireSecret =>
      if arguments == [] then Err(InvalidManifest)
      else
        var holds :- w.backend.secretBool(arguments[0]);
        if holds then Ok(Effect(VoidValue(), hostCalls)) else Err(PolicyRejected)
    case OpeningPick =>
      if arguments == [] then Err(InvalidManifest)
      else
        var shown :- Typed(w.backend.pick(arguments[0]), Opened);
        Ok(Effect(shown, hostCalls))
    case HostReceive | HostSend =>
      Ok(Effect(VoidValue(), hostCalls + [HostCall(op.opcode, arguments)]))
    case _ =>
      if op.domain == Public then Err(UnsupportedOperator)
      else
        var v :- Typed(w.backend.evaluate(op.opcode, arguments), op.outputType);
        Ok(Effect(v, hostCalls))
  }

  datatype ExecState = ExecState(values: map<Ref, Value>, hostCalls: seq<HostCall>)

  function StepOperator(states: seq<StateDecl>, w: World, op: OperatorNode,
      x: ExecState): (r: Result<ExecState, RuntimeError>)
  {
    var e :- ExecuteOperator(states, w, op, x.values, x.hostCalls);
    Ok(ExecState(x.values[op.id := e.output], e.hostCalls))
  }

  // Runs the operators in order from a starting state.
  function RunOperators(states: seq<StateDecl>, w: World, ops: seq<OperatorNode>,
      start: ExecState): (r: Result<ExecState, RuntimeError>)
  {
    if ops == [] then Ok(start)
    else
      var x :- RunOperators(states, w, ops[..|ops| - 1], start);
      StepOperator(states, w, ops[|ops| - 1], x)
  }

  function ValidateInputs(inputs: seq<Param>, supplied: map<string, Value>, k: nat): (r: Result<(), RuntimeError>)
    requires k <= |inputs|
    ensures r.Ok? <==> forall i ::
        0 <= i < k ==> inputs[i].name in supplied && supplied[inputs[i].name].ty == inputs[i].ty
  {
    if k == 0 then Ok(())
    else
      var _ :- ValidateInputs(inputs, supplied, k - 1);
      var p := inputs[k - 1];
      if p.name !in supplied then Err(MissingInput)
      else if supplied[p.name].ty != p.ty then Err(TypeMismatch)
      else Ok(())
  }

  function CheckInputs(inputs: seq<Param>, supplied: map<string, Value>): (r: Result<(), RuntimeError>) {
    if |supplied| != |inputs| then Err(MissingInput) else ValidateInputs(inputs, supplied, |inputs|)
  }

  // The table before the first operator: the caller and the first k inputs.
  function InitialValues(inputs: seq<Param>, inv: Invocation, k: nat): (values: map<Ref, Value>)
    requires k <= |inputs| && forall i :: 0 <= i < k ==> inputs[i].name in inv.inputs
  {
    if k == 0 then map[Sender := AddressValue(inv.sender)]
    else InitialValues(inputs, inv, k - 1)[Input(inputs[k - 1].name) := inv.inputs[inputs[k - 1].name]]
  }

  function ResolveWrite(states: seq<StateDecl>, write: WriteNode,
      values: map<Ref, Value>): (r: Result<StateWrite, RuntimeError>)
  {
    var state :- ManifestState(states, write.state);
    var key :- (match (write.key, state.keyTy)
                case (Some(reference), Some(Address)) =>
                  (match Resolve(reference, values)
                   case Ok(v) => StateKey(v)
                   case Err(e) => Err(e))
                case (None, None) => Ok([])
                case _ => Err(InvalidStateKey));
    var value :- Resolve(write.value, values);
    if value.ty != state.ty then Err(TypeMismatch) else Ok(StateWrite(write.state, key, value))
  }

  // The first k entries of the write set.
  function ResolveWrites(states: seq<StateDecl>, writes: seq<WriteNode>, values: map<Ref, Value>,
      k: nat): (r: Result<seq<StateWrite>, RuntimeError>)
    requires k <= |writes|
    ensures r.Ok? ==> |r.value| == k
  {
    if k == 0 then Ok([])
    else
      var init :- ResolveWrites(states, writes, values, k - 1);
      var last :- ResolveWrite(states, writes[k - 1], values);
      Ok(init + [last])
  }

  function ResolveOpening(opening: Option<Ref>, values: map<Ref, Value>): (r: Result<Option<Value>, RuntimeError>) {
    match opening
    case None => Ok(None)
    case Some(reference) =>
      var v :- Resolve(reference, values);
      Ok(Some(v))
  }

  function FindFunction(functions: seq<FunctionManifest>, name: string): (r: Option<FunctionManifest>) {
    if functions == [] then None
    else if functions[0].name == name then Some(functions[0])
    else FindFunction(functions[1..], name)
  }

  function Finish(states: seq<StateDecl>, f: FunctionManifest, x: ExecState): (r: Result<Outcome, RuntimeError>) {
    var writes :- ResolveWrites(states, f.writes, x.values, |f.writes|);
    var opening :- ResolveOpening(f.opening, x.values);
    Ok(Outcome(writes, x.hostCalls, opening))
  }

  function EvaluateFunction(states: seq<StateDecl>, f: FunctionManifest, w: World,
      inv: Invocation): (r: Result<Outcome, RuntimeError>)
  {
    var _ :- CheckInputs(f.inputs, inv.inputs);
    var x :- RunOperators(states, w, f.operators, ExecState(InitialValues(f.inputs, inv, |f.inputs|), []));
    Finish(states, f, x)
  }

  function Evaluate(m: ContractManifest, name: string, w: World, inv: Invocation): (r: Result<Outcome, RuntimeError>) {
    match FindFunction(m.functions, name)
    case None => Err(FunctionNotFound)
    case Some(f) => EvaluateFunction(m.state, f, w, inv)
  }

  // ---- the executor's loops ----

  lemma {:induction false} RunFails(states: seq<StateDecl>, w: World, a: seq<OperatorNode>, b: seq<OperatorNode>,
      start: ExecState)
    requires RunOperators(states, w, a, start).Err?
    ensures RunOperators(states, w, a + b, start) == RunOperators(states, w, a, start)
    decreases |b|
  {
    hide StepOperator;
    if b == [] {
      assert a + b == a;
    } else {
      assert (a + b)[..|a + b| - 1] == a + b[..|b| - 1];
      RunFails(states, w, a, b[..|b| - 1], start);
    }
  }

  lemma RunSnoc(states: seq<StateDecl>, w: World, a: seq<OperatorNode>, op: OperatorNode, start: ExecState)
    ensures RunOperators(states, w, a + [op], start)
            == match RunOperators(states, w, a, start)
               case Err(e) => Err(e)
               case Ok(x) => StepOperator(states, w, op, x)
  {
    hide StepOperator;
    assert (a + [op])[..|a|] == a;
  }

  lemma {:induction false} ResolveWritesFails(states: seq<StateDecl>, writes: seq<WriteNode>, values: map<Ref, Value>,
      k: nat, m: nat)
    requires k <= m <= |writes| && ResolveWrites(states, writes, values, k).Err?
    ensures ResolveWrites(states, writes, values, m) == ResolveWrites(states, writes, values, k)
    decreases m
  {
    hide ResolveWrite;
    if k < m {
      ResolveWritesFails(states, writes, values, k, m - 1);
    }
  }

  method RunLoop(states: seq<StateDecl>, w: World, ops: seq<OperatorNode>, start: ExecState)
    returns (r: Result<ExecState, RuntimeError>)
    ensures r == RunOperators(states, w, ops, start)
  {
    hide ExecuteOperator;
    var values, hostCalls := start.values, start.hostCalls;
    for i := 0 to |ops|
      invariant RunOperators(states, w, ops[..i], start) == Ok(ExecState(values, hostCalls))
    {
      RunSnoc(states, w, ops[..i], ops[i], start);
      assert ops[..i + 1] == ops[..i] + [ops[i]] && ops == ops[..i + 1] + ops[i + 1..];
      var e := ExecuteOperator(states, w, ops[i], values, hostCalls);
      if e.Err? {
        RunFails(states, w, ops[..i + 1], ops[i + 1..], start);
        return Err(e.error);
      }
      values := values[ops[i].id := e.value.output];
      hostCalls := e.value.hostCalls;
    }
    assert ops[..|ops|] == ops;
    return Ok(ExecState(values, hostCalls));
  }

  method EvaluateLoop(states: seq<StateDecl>, f: FunctionManifest, w: World, inv: Invocation)
    returns (r: Result<Outcome, RuntimeError>)
    ensures r == EvaluateFunction(states, f, w, inv)
  {
    hide RunOperators, ResolveWrite, CheckInputs;
    var check := CheckInputs(f.inputs, inv.inputs);
    if check.Err? { return Err(check.error); }
    CheckedInputs(f.inputs, inv.inputs);
    var values: map<Ref, Value> := map[Sender := AddressValue(inv.sender)];
    for k := 0 to |f.inputs|
      invariant values == InitialValues(f.inputs, inv, k)
    {
      values := values[Input(f.inputs[k].name) := inv.inputs[f.inputs[k].name]];
    }
    var run := RunLoop(states, w, f.operators, ExecState(values, []));
    if run.Err? { return Err(run.error); }
    var writes := [];
    for k := 0 to |f.writes|
      invariant ResolveWrites(states, f.writes, run.value.values, k) == Ok(writes)
    {
      var write := ResolveWrite(states, f.writes[k], run.value.values);
      if write.Err? {
        ResolveWritesFails(states, f.writes, run.value.values, k + 1, |f.writes|);
        return Err(write.error);
      }
      writes := writes + [write.value];
    }
    var opening := ResolveOpening(f.opening, run.value.values);
    if opening.Err? { return Err(opening.error); }
    return Ok(Outcome(writes, run.value.hostCalls, opening.value));
  }

  lemma CheckedInputs(inputs: seq<Param>, supplied: map<string, Value>)
    requires CheckInputs(inputs, supplied).Ok?
    ensures |supplied| == |inputs|
    ensures forall i :: 0 <= i < |inputs| ==> inputs[i].name in supplied && supplied[inputs[i].name].ty == inputs[i].ty
  {
  }

  // ---- what the executor accepts and what it writes ----

  // s is a decimal spelling of n.
  ghost predicate Spells(s: string, n: nat) {
    && s != [] && 48 <= s[|s| - 1] as int <= 57
    && var last := s[|s| - 1] as int - 48;
      if |s| == 1 then n == last else n >= last && (n - last) % 10 == 0 && Spells(s[..|s| - 1], (n - last) / 10)
  }

  lemma {:induction false} DigitsSpell(s: string, n: nat)
    ensures Spells(s, n) <==> s != [] && AllDigits(s) && DigitsValue(s) == n
  {
    if |s| > 1 && IsDigit(s[|s| - 1]) {
      var init, last := s[..|s| - 1], s[|s| - 1] as int - 48;
      if n >= last && (n - last) % 10 == 0 { DigitsSpell(init, (n - last) / 10); }
      if AllDigits(s) {
        DigitsSpell(init, DigitsValue(init));
        assert DigitsValue(s) == 10 * DigitsValue(init) + last;
      }
    }
  }

  // A literal is a number exactly when it spells one below 2^128, after at most one plus sign.
  lemma LiteralExactly(s: string, n: nat)
    ensures ParseU128(s) == Some(n) <==>
      n < U128 && (Spells(s, n) || (s != [] && s[0] == '+' && Spells(s[1..], n)))
    ensures LiteralValue(s) == if ParseU128(s).Some? then Ok(PublicUint(ParseU128(s).value)) else Err(InvalidManifest)
  {
    DigitsSpell(s, n);
    if s != [] && s[0] == '+' {
      DigitsSpell(s[1..], n);
      assert !IsDigit(s[0]);
    }
  }

  predicate GoodInput(inputs: seq<Param>, supplied: map<string, Value>, k: nat)
    requires k < |inputs|
  {
    inputs[k].name in supplied && supplied[inputs[k].name].ty == inputs[k].ty
  }

  lemma GoodInputs(inputs: seq<Param>, supplied: map<string, Value>, k: nat)
    requires k <= |inputs|
    ensures ValidateInputs(inputs, supplied, k).Ok? <==> forall j :: 0 <= j < k ==> GoodInput(inputs, supplied, j)
  {
    if forall j :: 0 <= j < k ==> GoodInput(inputs, supplied, j) {
      forall j | 0 <= j < k ensures inputs[j].name in supplied && supplied[inputs[j].name].ty == inputs[j].ty {
        assert GoodInput(inputs, supplied, j);
      }
    }
  }

  // Parameter k is the first without its input.
  predicate FirstBad(inputs: seq<Param>, supplied: map<string, Value>, k: nat) {
    && k < |inputs| && !GoodInput(inputs, supplied, k)
    && forall j :: 0 <= j < k ==> GoodInput(inputs, supplied, j)
  }

  lemma {:induction false} FirstBadInput(inputs: seq<Param>, supplied: map<string, Value>, k: nat, m: nat)
    requires k < m <= |inputs| && FirstBad(inputs, supplied, k)
    ensures ValidateInputs(inputs, supplied, m)
            == Err(if inputs[k].name in supplied then TypeMismatch else MissingInput)
    decreases m
  {
    if m > k + 1 { FirstBadInput(inputs, supplied, k, m - 1); } else { GoodInputs(inputs, supplied, k); }
  }

  // Inputs are accepted exactly when they are as many as the parameters, each there with its type;
  // otherwise the first parameter that fails decides the error.
  lemma InputsExactly(inputs: seq<Param>, supplied: map<string, Value>, k: nat)
    ensures CheckInputs(inputs, supplied).Ok? <==>
      |supplied| == |inputs| && forall j :: 0 <= j < |inputs| ==> GoodInput(inputs, supplied, j)
    ensures |supplied| != |inputs| ==> CheckInputs(inputs, supplied) == Err(MissingInput)
    ensures |supplied| == |inputs| && FirstBad(inputs, supplied, k) ==>
      CheckInputs(inputs, supplied) == Err(if inputs[k].name in supplied then TypeMismatch else MissingInput)
  {
    hide ValidateInputs, GoodInput;
    GoodInputs(inputs, supplied, |inputs|);
    if FirstBad(inputs, supplied, k) { FirstBadInput(inputs, supplied, k, |inputs|); }
  }

  // A write fits a declaration: a value of its type, at the one cell of a scalar or at a 20-byte key.
  ghost predicate Declared(states: seq<StateDecl>, w: StateWrite) {
    exists d :: d in states && d.name == w.state && w.value.ty == d.ty
      && (d.keyTy == None ==> w.key == []) && (d.keyTy.Some? ==> d.keyTy == Some(Address) && |w.key| == 20)
  }

  lemma {:induction false} WritesDeclared(states: seq<StateDecl>, writes: seq<WriteNode>, values: map<Ref, Value>,
      k: nat)
    requires k <= |writes|
    ensures var r := ResolveWrites(states, writes, values, k);
      r.Ok? ==> forall i :: 0 <= i < |r.value| ==> Declared(states, r.value[i])
  {
    hide Declared;
    if k > 0 && ResolveWrites(states, writes, values, k).Ok? {
      WritesDeclared(states, writes, values, k - 1);
      WriteDeclared(states, writes[k - 1], values);
    }
  }

  lemma WriteDeclared(states: seq<StateDecl>, write: WriteNode, values: map<Ref, Value>)
    ensures var r := ResolveWrite(states, write, values); r.Ok? ==> Declared(states, r.value)
  {
    var r := ResolveWrite(states, write, values);
    if r.Ok? {
      var d := FindState(states, write.state).value;
      assert d in states && d.name == r.value.state;
    }
  }

  // Whatever the manifest, the backend and the store: every write of an outcome fits a declared state.
  lemma OutcomeDeclared(m: ContractManifest, name: string, w: World, inv: Invocation)
    ensures var r := Evaluate(m, name, w, inv);
      r.Ok? ==> forall i :: 0 <= i < |r.value.writes| ==> Declared(m.state, r.value.writes[i])
  {
    hide Declared, RunOperators, ResolveWrites, CheckInputs;
    var f := FindFunction(m.functions, name);
    if f.Some? && Evaluate(m, name, w, inv).Ok? {
      CheckedInputs(f.value.inputs, inv.inputs);
      var x := RunOperators(m.state, w, f.value.operators,
          ExecState(InitialValues(f.value.inputs, inv, |f.value.inputs|), []));
      WritesDeclared(m.state, f.value.writes, x.value.values, |f.value.writes|);
    }
  }

  // A key for an address-keyed state, none for a scalar.
  predicate KeyFits(d: StateDecl, write: WriteNode) {
    (d.keyTy == None && write.key == None) || (d.keyTy == Some(Address) && write.key.Some?)
  }

  predicate AddressBytes(v: Value) { v.ty == Address && |v.bytes| == 20 }

  // A write of an undeclared state, under a key that is missing, not wanted or not an address, or of
  // a value of another type, is refused for the first of these.
  lemma WriteRefused(states: seq<StateDecl>, write: WriteNode, values: map<Ref, Value>)
    ensures var r := ResolveWrite(states, write, values); var d := FindState(states, write.state);
      && (d.None? ==> r == Err(InvalidManifest))
      && (d.Some? && !KeyFits(d.value, write) ==> r == Err(InvalidStateKey))
      && (d.Some? && write.key.Some? && d.value.keyTy == Some(Address) ==>
        && (write.key.value !in values ==> r == Err(UnknownReference))
        && (write.key.value in values && !AddressBytes(values[write.key.value]) ==> r == Err(InvalidStateKey)))
      && (d.Some? && write.key.None? && d.value.keyTy.None? ==>
        && (write.value !in values ==> r == Err(UnknownReference))
        && (write.value in values && values[write.value].ty != d.value.ty ==> r == Err(TypeMismatch)))
  {
  }
}
