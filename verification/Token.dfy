/** Histories of contract executions, and the transfer of the confidential token contract. */
module Token {
  import opened Wrappers
  import opened Bytes
  import opened Language
  import opened Manifests
  import opened Lowering
  import opened Executor
  import opened Interpreter
  import opened Preservation
  import opened Plaintext
  import opened Soundness
  import opened StateStore
  import opened Deferred

  // ---- histories on the development backend ----

  datatype Request = Request(name: string, inv: Invocation)

  function After(m: ContractManifest, history: seq<Request>, cells: Cells): (after: Cells)
    decreases |history|
  {
    if history == [] then cells
    else
      var last := history[|history| - 1];
      ExecuteOn(m, last.name, PlainBackend(), last.inv, After(m, history[..|history| - 1], cells)).1
  }

  ghost predicate ProperRequest(p: Program, r: Request) {
    && FindSource(p.functions, r.name).Some?
    && BodyFits(FindSource(p.functions, r.name).value)
    && ProperInvocation(FindSource(p.functions, r.name).value.params, r.inv)
  }

  lemma {:induction false} CommitTyped(states: seq<StateDecl>, cells: Cells, writes: seq<StateWrite>, k: nat)
    requires k <= |writes| && TypedStore(states, LoadFrom(cells))
    requires forall j :: 0 <= j < |writes| ==> ProperWrite(states, writes[j])
    ensures TypedStore(states, LoadFrom(CommitTo(cells, writes, k)))
  {
    hide TypedStore, ProperWrite;
    if k > 0 {
      CommitTyped(states, cells, writes, k - 1);
      WriteTyped(states, CommitTo(cells, writes, k - 1), writes[k - 1]);
    }
  }

  lemma WriteTyped(states: seq<StateDecl>, before: Cells, w: StateWrite)
    requires TypedStore(states, LoadFrom(before)) && ProperWrite(states, w)
    ensures TypedStore(states, LoadFrom(before[(w.state, w.key) := w.value]))
  {
    hide WellFormed;
    var after: Cells := before[(w.state, w.key) := w.value];
    forall s: string, c: seq<Byte> | FindState(states, s).Some? && (s, c) in after
      ensures after[(s, c)].ty == FindState(states, s).value.ty && WellFormed(after[(s, c)])
    {
      if (s, c) != (w.state, w.key) {
        assert LoadFrom(before)(s, c) == Ok(after[(s, c)]);
      }
    }
  }

  // Whole histories: the store stays typed, and every execution on it ends in a proper outcome or
  // in one of the four errors that depend on data.
  lemma {:induction false} HistorySound(p: Program, history: seq<Request>, cells: Cells, next: Request)
    requires Compile(p).Ok? && TypedStore(p.states, LoadFrom(cells))
    requires forall i :: 0 <= i < |history| ==> ProperRequest(p, history[i])
    requires ProperRequest(p, next)
    ensures TypedStore(p.states, LoadFrom(After(Compile(p).value, history, cells)))
    ensures SoundOutcome(p.states, ExecuteOn(Compile(p).value, next.name, PlainBackend(), next.inv,
        After(Compile(p).value, history, cells)).0)
    decreases |history|
  {
    hide TypedStore, SoundOutcome, Compile, Evaluate, LoadFrom, BodyFits, ProperInvocation, PlainBackend, Commit;
    var m := Compile(p).value;
    if history != [] {
      var last := history[|history| - 1];
      var before := After(m, history[..|history| - 1], cells);
      HistorySound(p, history[..|history| - 1], cells, last);
      var r := ExecuteOn(m, last.name, PlainBackend(), last.inv, before).0;
      if r.Ok? {
        OutcomeCommitted(p.states, before, r);
      }
    }
    CompiledSound(p, next.name, LoadFrom(After(m, history, cells)), next.inv);
    PlainWorld(LoadFrom(After(m, history, cells)));
  }

  lemma PlainWorld(load: Loader)
    ensures Plain(load) == World(load, PlainBackend())
  {
  }

  lemma OutcomeCommitted(states: seq<StateDecl>, cells: Cells, r: Result<Outcome, RuntimeError>)
    requires TypedStore(states, LoadFrom(cells)) && SoundOutcome(states, r) && r.Ok?
    ensures TypedStore(states, LoadFrom(Commit(cells, r.value.writes)))
  {
    hide TypedStore, ProperWrite;
    CommitTyped(states, cells, r.value.writes, |r.value.writes|);
  }

  // ---- the confidential token ----

  const BALANCE := "balance"
  const CALLER := "msg.sender"

  function BalanceOf(x: string): (e: Expression) { Index(BALANCE, Name(x)) }

  function TransferFunction(): (f: Function) {
    Function("transfer", [Param("to", Address), Param("amount", FheUint)], [
      Local(SecretBool, "sufficient", Call("H2S", [Call("FHE.ge", [BalanceOf(CALLER), Name("amount")])])),
      Require(Name("sufficient")),
      Assign(BalanceOf(CALLER), Call("FHE.sub", [BalanceOf(CALLER), Name("amount")])),
      Assign(BalanceOf("to"), Call("FHE.add", [BalanceOf("to"), Name("amount")]))])
  }

  function TokenStates(): (states: seq<StateDecl>) { [StateDecl(BALANCE, FheUint, Some(Address))] }

  function TransferInvocation(from: seq<Byte>, to: seq<Byte>, amount: nat): (inv: Invocation) {
    Invocation(from, map["to" := AddressValue(to), "amount" := EncodeUint(FheUint, amount)])
  }

  // The balance cell of an address holds n.
  predicate Holds(cells: Cells, a: seq<Byte>, n: nat) {
    |a| == 20 && n < U128 && (BALANCE, a) in cells && cells[(BALANCE, a)] == EncodeUint(FheUint, n)
  }

  lemma TokenNames()
    ensures BuiltinNamed("H2S") == Some(H2S) && BuiltinNamed("FHE.ge") == Some(FheGe)
    ensures BuiltinNamed("FHE.sub") == Some(FheSub) && BuiltinNamed("FHE.add") == Some(FheAdd)
  {
  }

  lemma EvalBalance(w: World, env: map<string, Val>, x: string, a: seq<Byte>, n: nat, calls: seq<HostCall>)
    requires x in env && env[x] == Known(AddressValue(a)) && |a| == 20
    requires w.load(BALANCE, a) == Ok(EncodeUint(FheUint, n))
    ensures InterpretExpr(TokenStates(), w, env, BalanceOf(x), calls) == Ok(Eval(Known(EncodeUint(FheUint, n)), calls))
  {
  }

  lemma EvalOne(states: seq<StateDecl>, w: World, env: map<string, Val>, f: string, b: Builtin, e: Expression, v: Value,
      calls: seq<HostCall>)
    requires BuiltinNamed(f) == Some(b) && InterpretExpr(states, w, env, e, calls) == Ok(Eval(Known(v), calls))
    ensures InterpretExpr(states, w, env, Call(f, [e]), calls)
            == match Apply(b, w, [v], calls)
               case Err(err) => Err(err)
               case Ok(effect) => Ok(Eval(Known(effect.output), effect.hostCalls))
  {
    hide BuiltinNamed, Apply;
    var vals := [Known(v)];
    ArgsOne(states, w, env, e, v, calls);
    assert vals[..0] == [];
    assert ForceAll(vals) == Ok([] + [v]) && [] + [v] == [v];
  }

  lemma ArgsOne(states: seq<StateDecl>, w: World, env: map<string, Val>, e: Expression, v: Value, calls: seq<HostCall>)
    requires InterpretExpr(states, w, env, e, calls) == Ok(Eval(Known(v), calls))
    ensures InterpretArgs(states, w, env, [e], calls) == Ok(EvalArgs([Known(v)], calls))
  {
    hide InterpretExpr;
    assert [e][..0] == [];
    assert [] + [Known(v)] == [Known(v)];
  }

  lemma EvalTwo(states: seq<StateDecl>, w: World, env: map<string, Val>, f: string, b: Builtin, e1: Expression,
      e2: Expression, v1: Value, v2: Value, calls: seq<HostCall>)
    requires BuiltinNamed(f) == Some(b)
    requires InterpretExpr(states, w, env, e1, calls) == Ok(Eval(Known(v1), calls))
    requires InterpretExpr(states, w, env, e2, calls) == Ok(Eval(Known(v2), calls))
    ensures InterpretExpr(states, w, env, Call(f, [e1, e2]), calls)
            == match Apply(b, w, [v1, v2], calls)
               case Err(err) => Err(err)
               case Ok(effect) => Ok(Eval(Known(effect.output), effect.hostCalls))
  {
    hide BuiltinNamed, Apply;
    ArgsTwo(states, w, env, e1, e2, v1, v2, calls);
    ForceTwo(v1, v2);
  }

  lemma ForceTwo(v1: Value, v2: Value)
    ensures ForceAll([Known(v1), Known(v2)]) == Ok([v1, v2])
  {
    var vals := [Known(v1), Known(v2)];
    assert vals[..1] == [Known(v1)] && vals[..1][..0] == [];
    assert ForceAll(vals[..1]) == Ok([] + [v1]) && [] + [v1] == [v1];
    assert vals[1] == Known(v2) && Force(vals[1]) == Ok(v2);
    assert [v1] + [v2] == [v1, v2];
  }

  lemma ArgsTwo(states: seq<StateDecl>, w: World, env: map<string, Val>, e1: Expression, e2: Expression, v1: Value,
      v2: Value, calls: seq<HostCall>)
    requires InterpretExpr(states, w, env, e1, calls) == Ok(Eval(Known(v1), calls))
    requires InterpretExpr(states, w, env, e2, calls) == Ok(Eval(Known(v2), calls))
    ensures InterpretArgs(states, w, env, [e1, e2], calls) == Ok(EvalArgs([Known(v1), Known(v2)], calls))
  {
    hide InterpretExpr;
    ArgsOne(states, w, env, e1, v1, calls);
    assert [e1, e2][..1] == [e1];
    assert [Known(v1)] + [Known(v2)] == [Known(v1), Known(v2)];
  }

  // The bindings of a transfer.
  ghost predicate TransferEnv(env: map<string, Val>, from: seq<Byte>, to: seq<Byte>, amount: nat) {
    && CALLER in env && env[CALLER] == Known(AddressValue(from))
    && "to" in env && env["to"] == Known(AddressValue(to))
    && "amount" in env && env["amount"] == Known(EncodeUint(FheUint, amount))
  }

  lemma EvalOp(cells: Cells, env: map<string, Val>, op: string, b: Builtin, x: string, a: seq<Byte>, n: nat,
      amount: nat)
    requires x in env && env[x] == Known(AddressValue(a)) && Holds(cells, a, n) && amount < U128
    requires "amount" in env && env["amount"] == Known(EncodeUint(FheUint, amount))
    requires BuiltinNamed(op) == Some(b)
    ensures InterpretExpr(TokenStates(), Plain(LoadFrom(cells)), env, Call(op, [BalanceOf(x), Name("amount")]), [])
            == match Apply(b, Plain(LoadFrom(cells)), [EncodeUint(FheUint, n), EncodeUint(FheUint, amount)], [])
               case Err(err) => Err(err)
               case Ok(effect) => Ok(Eval(Known(effect.output), effect.hostCalls))
  {
    hide BuiltinNamed, Apply, EncodeUint, PlainBackend;
    var w := Plain(LoadFrom(cells));
    EvalBalance(w, env, x, a, n, []);
    EvalTwo(TokenStates(), w, env, op, b, BalanceOf(x), Name("amount"), EncodeUint(FheUint, n),
        EncodeUint(FheUint, amount), []);
  }

  lemma ApplyArithmetic(load: Loader, a: nat, b: nat)
    requires a < U128 && b < U128
    ensures var args := [EncodeUint(FheUint, a), EncodeUint(FheUint, b)];
      && Apply(FheGe, Plain(load), args, []) == Ok(Effect(EncodeBool(FheBool, a >= b), []))
      && Apply(FheSub, Plain(load), args, [])
          == (if a >= b then Ok(Effect(EncodeUint(FheUint, a - b), [])) else Err(Underflow))
      && Apply(FheAdd, Plain(load), args, [])
          == (if a + b < U128 then Ok(Effect(EncodeUint(FheUint, a + b), [])) else Err(Overflow))
    ensures Apply(H2S, Plain(load), [EncodeBool(FheBool, a >= b)], []) == Ok(Effect(EncodeBool(SecretBool, a >= b), []))
  {
    hide EvaluatePlain, EncodeUint, EncodeBool;
    ArithmeticMeaning(a, b);
    ConversionMeaning(a, a >= b);
    EncodedTypes(if a >= b then a - b else 0, a >= b);
    EncodedTypes(a + b, a >= b);
  }

  function Enough(n: nat, amount: nat): (v: Val) { Known(EncodeBool(SecretBool, n >= amount)) }

  // The first two statements: the comparison, and the requirement.
  lemma TransferGuard(cells: Cells, from: seq<Byte>, to: seq<Byte>, amount: nat, n: nat, env: map<string, Val>)
    requires TransferEnv(env, from, to, amount) && Holds(cells, from, n) && amount < U128
    ensures var w := Plain(LoadFrom(cells)); var body := TransferFunction().body;
        var s := SourceState(env, [], [], None);
      var s1 := s.(env := env["sufficient" := Enough(n, amount)]);
      && InterpretStatement(TokenStates(), w, s, body[0]) == Ok(s1)
      && InterpretStatement(TokenStates(), w, s1, body[1]) == if n >= amount then Ok(s1) else Err(PolicyRejected)
  {
    hide BuiltinNamed, Apply, EncodeUint, EncodeBool, TokenStates, LoadFrom, DecodeBool;
    var w := Plain(LoadFrom(cells));
    TokenNames();
    EvalOp(cells, env, "FHE.ge", FheGe, CALLER, from, n, amount);
    ApplyArithmetic(LoadFrom(cells), n, amount);
    EvalOne(TokenStates(), w, env, "H2S", H2S, Call("FHE.ge", [BalanceOf(CALLER), Name("amount")]),
        EncodeBool(FheBool, n >= amount), []);
    ConversionMeaning(0, n >= amount);
  }

  // An assignment of the result of an operation to a balance cell.
  lemma TransferAssign(cells: Cells, s: SourceState, x: string, a: seq<Byte>, op: string, b: Builtin, n: nat,
      amount: nat)
    requires x in s.env && s.env[x] == Known(AddressValue(a)) && Holds(cells, a, n) && amount < U128
        && s.hostCalls == []
    requires "amount" in s.env && s.env["amount"] == Known(EncodeUint(FheUint, amount))
    requires BuiltinNamed(op) == Some(b)
    ensures InterpretStatement(TokenStates(), Plain(LoadFrom(cells)), s,
        Assign(BalanceOf(x), Call(op, [BalanceOf(x), Name("amount")])))
            == match Apply(b, Plain(LoadFrom(cells)), [EncodeUint(FheUint, n), EncodeUint(FheUint, amount)], [])
               case Err(err) => Err(err)
               case Ok(effect) =>
                 Ok(s.(hostCalls := effect.hostCalls,
                     log := s.log + [LogEntry(BALANCE, Some(Known(AddressValue(a))), Known(effect.output))]))
  {
    hide BuiltinNamed, Apply, EncodeUint, EncodeBool, TokenStates, LoadFrom;
    EvalOp(cells, s.env, op, b, x, a, n, amount);
  }

  lemma TransferStart(from: seq<Byte>, to: seq<Byte>, amount: nat)
    ensures var f, inv := TransferFunction(), TransferInvocation(from, to, amount);
      HasInputs(f, inv) && CheckInputs(f.params, inv.inputs).Ok?
          && TransferEnv(StartEnv(f.params, inv, 2), from, to, amount)
  {
    hide EncodeUint;
    EncodedTypes(amount, true);
    var f, inv := TransferFunction(), TransferInvocation(from, to, amount);
    assert inv.inputs.Keys == {"to", "amount"} && |inv.inputs.Keys| == 2;
    assert StartEnv(f.params, inv, 0) == map[CALLER := Known(AddressValue(from))];
    assert StartEnv(f.params, inv, 1) == StartEnv(f.params, inv, 0)["to" := Known(AddressValue(to))];
    assert StartEnv(f.params, inv, 2) == StartEnv(f.params, inv, 1)["amount" := Known(EncodeUint(FheUint, amount))];
  }

  function BalanceWrite(a: seq<Byte>, n: nat): (w: StateWrite) { StateWrite(BALANCE, a, EncodeUint(FheUint, n)) }

  function BalanceEntry(a: seq<Byte>, n: nat): (e: LogEntry) {
    LogEntry(BALANCE, Some(Known(AddressValue(a))), Known(EncodeUint(FheUint, n)))
  }

  // The log checks to the writes it describes.
  lemma EntryChecks(a: seq<Byte>, n: nat)
    requires |a| == 20
    ensures CheckEntry(TokenStates(), BalanceEntry(a, n)) == Ok(BalanceWrite(a, n))
  {
    hide EncodeUint;
    EncodedTypes(n, true);
  }

  lemma TwoEntriesCheck(a: seq<Byte>, x: nat, b: seq<Byte>, y: nat)
    requires |a| == 20 && |b| == 20
    ensures CheckLog(TokenStates(), [BalanceEntry(a, x), BalanceEntry(b, y)], 2)
        == Ok([BalanceWrite(a, x), BalanceWrite(b, y)])
    ensures CheckLog(TokenStates(), [BalanceEntry(a, x)], 1) == Ok([BalanceWrite(a, x)])
  {
    hide CheckEntry, EncodeUint;
    EntryChecks(a, x);
    EntryChecks(b, y);
    var one, log := [BalanceEntry(a, x)], [BalanceEntry(a, x), BalanceEntry(b, y)];
    assert CheckLog(TokenStates(), one, 0) == Ok([]) && CheckLog(TokenStates(), log, 0) == Ok([]);
    assert [] + [BalanceWrite(a, x)] == [BalanceWrite(a, x)];
    assert CheckLog(TokenStates(), one, 1) == Ok([BalanceWrite(a, x)]);
    assert CheckLog(TokenStates(), log, 1) == Ok([BalanceWrite(a, x)]);
    assert [BalanceWrite(a, x)] + [BalanceWrite(b, y)] == [BalanceWrite(a, x), BalanceWrite(b, y)];
  }

  // The two assignments of a transfer, from any log.
  lemma TransferDebit(cells: Cells, s: SourceState, from: seq<Byte>, n: nat, amount: nat)
    requires CALLER in s.env && s.env[CALLER] == Known(AddressValue(from)) && Holds(cells, from, n) && amount <= n
        && s.hostCalls == []
    requires "amount" in s.env && s.env["amount"] == Known(EncodeUint(FheUint, amount))
    ensures InterpretStatement(TokenStates(), Plain(LoadFrom(cells)), s, TransferFunction().body[2])
            == Ok(s.(log := s.log + [BalanceEntry(from, n - amount)]))
  {
    hide InterpretStatement, Apply, EncodeUint, BuiltinNamed, LoadFrom;
    TokenNames();
    TransferAssign(cells, s, CALLER, from, "FHE.sub", FheSub, n, amount);
    ApplyArithmetic(LoadFrom(cells), n, amount);
  }

  lemma TransferCredit(cells: Cells, s: SourceState, to: seq<Byte>, m: nat, amount: nat)
    requires "to" in s.env && s.env["to"] == Known(AddressValue(to)) && Holds(cells, to, m) && amount < U128
        && s.hostCalls == []
    requires "amount" in s.env && s.env["amount"] == Known(EncodeUint(FheUint, amount))
    ensures InterpretStatement(TokenStates(), Plain(LoadFrom(cells)), s, TransferFunction().body[3])
            == if m + amount < U128 then Ok(s.(log := s.log + [BalanceEntry(to, m + amount)])) else Err(Overflow)
  {
    hide InterpretStatement, Apply, EncodeUint, BuiltinNamed, LoadFrom;
    TokenNames();
    TransferAssign(cells, s, "to", to, "FHE.add", FheAdd, m, amount);
    ApplyArithmetic(LoadFrom(cells), m, amount);
  }

  // The bindings once the comparison has run.
  function GuardedEnv(from: seq<Byte>, to: seq<Byte>, amount: nat, n: nat): (env: map<string, Val>) {
    map[CALLER := Known(AddressValue(from)), "to" := Known(AddressValue(to)),
        "amount" := Known(EncodeUint(FheUint, amount)),
        "sufficient" := Enough(n, amount)]
  }

  lemma StartIs(from: seq<Byte>, to: seq<Byte>, amount: nat)
    ensures var f, inv := TransferFunction(), TransferInvocation(from, to, amount);
      HasInputs(f, inv) && CheckInputs(f.params, inv.inputs).Ok?
      && StartEnv(f.params, inv, 2) == map[CALLER := Known(AddressValue(from)), "to" := Known(AddressValue(to)),
          "amount" := Known(EncodeUint(FheUint, amount))]
  {
    hide EncodeUint, CheckInputs;
    TransferStart(from, to, amount);
    var f, inv := TransferFunction(), TransferInvocation(from, to, amount);
    assert StartEnv(f.params, inv, 0) == map[CALLER := Known(AddressValue(from))];
    assert StartEnv(f.params, inv, 1) == StartEnv(f.params, inv, 0)["to" := Known(AddressValue(to))];
  }

  // After the requirement.
  lemma BodyGuard(cells: Cells, from: seq<Byte>, to: seq<Byte>, amount: nat, n: nat)
    requires Holds(cells, from, n) && amount < U128
    ensures HasInputs(TransferFunction(), TransferInvocation(from, to, amount))
    ensures InterpretBody(TokenStates(), TransferFunction(), Plain(LoadFrom(cells)),
        TransferInvocation(from, to, amount), 2)
            == if n >= amount then Ok(SourceState(GuardedEnv(from, to, amount, n), [], [], None))
                else Err(PolicyRejected)
  {
    hide InterpretStatement, EncodeUint, EncodeBool, CheckInputs, LoadFrom;
    StartIs(from, to, amount);
    var env := StartEnv(TransferFunction().params, TransferInvocation(from, to, amount), 2);
    var f, inv, w := TransferFunction(), TransferInvocation(from, to, amount), Plain(LoadFrom(cells));
    TransferGuard(cells, from, to, amount, n, env);
    assert env["sufficient" := Enough(n, amount)] == GuardedEnv(from, to, amount, n);
    assert InterpretBody(TokenStates(), f, w, inv, 0) == Ok(SourceState(env, [], [], None));
    assert InterpretBody(TokenStates(), f, w, inv, 1)
        == InterpretStatement(TokenStates(), w, SourceState(env, [], [], None), f.body[0]);
  }

  // The exact outcome of a transfer on the development backend.
  lemma TransferOutcome(cells: Cells, from: seq<Byte>, to: seq<Byte>, amount: nat, n: nat, m: nat)
    requires Holds(cells, from, n) && Holds(cells, to, m) && amount < U128
    ensures InterpretFunction(TokenStates(), TransferFunction(), Plain(LoadFrom(cells)),
        TransferInvocation(from, to, amount))
            == if n < amount then Err(PolicyRejected)
               else if m + amount >= U128 then Err(Overflow)
               else Ok(Outcome([BalanceWrite(from, n - amount), BalanceWrite(to, m + amount)], [], None))
  {
    hide InterpretStatement, EncodeUint, EncodeBool, CheckInputs, LoadFrom, CheckLog, TokenStates;
    var f, inv, w := TransferFunction(), TransferInvocation(from, to, amount), Plain(LoadFrom(cells));
    StartIs(from, to, amount);
    BodyGuard(cells, from, to, amount, n);
    assert InterpretBody(TokenStates(), f, w, inv, 2).Err?
        ==> InterpretBody(TokenStates(), f, w, inv, 3) == InterpretBody(TokenStates(), f, w, inv, 2);
    if n >= amount {
      var s2 := SourceState(GuardedEnv(from, to, amount, n), [], [], None);
      TransferDebit(cells, s2, from, n, amount);
      var s3 := s2.(log := [BalanceEntry(from, n - amount)]);
      assert s2.log + [BalanceEntry(from, n - amount)] == s3.log;
      assert InterpretBody(TokenStates(), f, w, inv, 3) == Ok(s3);
      TransferCredit(cells, s3, to, m, amount);
      assert s3.log + [BalanceEntry(to, m + amount)] == [BalanceEntry(from, n - amount), BalanceEntry(to, m + amount)];
      TwoEntriesCheck(from, n - amount, to, m + amount);
    }
  }

  // ---- totals ----

  function BalanceIn(cells: Cells, a: seq<Byte>): (n: nat) {
    if (BALANCE, a) !in cells then 0
    else match DecodeU128(cells[(BALANCE, a)], Tag(FheUint))
         case Ok(n) => n
         case Err(_) => 0
  }

  function Total(cells: Cells, accounts: seq<seq<Byte>>): (t: nat) {
    if accounts == [] then 0 else Total(cells, accounts[..|accounts| - 1]) + BalanceIn(cells, accounts[|accounts| - 1])
  }

  // Writing one balance changes the total by the difference, once per listing of the account.
  lemma {:induction false} TotalWrite(cells: Cells, accounts: seq<seq<Byte>>, a: seq<Byte>, n: nat)
    requires n < U128 && forall i, j :: 0 <= i < j < |accounts| ==> accounts[i] != accounts[j]
    ensures var after := cells[(BALANCE, a) := EncodeUint(FheUint, n)];
      Total(after, accounts) + (if a in accounts then BalanceIn(cells, a) else 0)
          == Total(cells, accounts) + (if a in accounts then n else 0)
    decreases |accounts|
  {
    hide DecodeU128, EncodeUint;
    DecodeEncode(FheUint, n);
    if accounts != [] {
      var init, last := accounts[..|accounts| - 1], accounts[|accounts| - 1];
      TotalWrite(cells, init, a, n);
      assert accounts == init + [last];
    }
  }

  // A successful transfer keeps the total of any listing of accounts that has both parties exactly
  // when the parties differ or nothing is moved; a transfer to oneself creates the amount.
  lemma TransferTotal(cells: Cells, accounts: seq<seq<Byte>>, from: seq<Byte>, to: seq<Byte>, amount: nat, n: nat,
      m: nat)
    requires Holds(cells, from, n) && Holds(cells, to, m) && amount <= n && m + amount < U128
    requires from in accounts && to in accounts && forall i, j :: 0 <= i < j < |accounts| ==> accounts[i] != accounts[j]
    ensures var after := Commit(cells, [BalanceWrite(from, n - amount), BalanceWrite(to, m + amount)]);
      Total(after, accounts) == Total(cells, accounts) + (if from == to then amount else 0)
  {
    hide DecodeU128, EncodeUint, Tag;
    DecodeEncode(FheUint, n);
    DecodeEncode(FheUint, m);
    DecodeEncode(FheUint, n - amount);
    var middle: Cells := cells[(BALANCE, from) := EncodeUint(FheUint, n - amount)];
    TotalWrite(cells, accounts, from, n - amount);
    TotalWrite(middle, accounts, to, m + amount);
    TwoCommits(cells, BalanceWrite(from, n - amount), BalanceWrite(to, m + amount));
  }

  lemma TwoCommits(cells: Cells, a: StateWrite, b: StateWrite)
    ensures Commit(cells, [a, b]) == cells[(a.state, a.key) := a.value][(b.state, b.key) := b.value]
  {
    assert CommitTo(cells, [a, b], 0) == cells;
    assert CommitTo(cells, [a, b], 1) == cells[(a.state, a.key) := a.value];
  }

  // The compiled contract: a transfer that is refused leaves every cell as it was, one that is
  // accepted leaves exactly the two new balances, and the total is kept unless it is a transfer
  // of something to oneself.
  lemma CompiledTransfer(p: Program, cells: Cells, accounts: seq<seq<Byte>>, from: seq<Byte>, to: seq<Byte>,
      amount: nat, n: nat, m: nat)
    requires Compile(p).Ok? && p.states == TokenStates()
        && FindSource(p.functions, "transfer") == Some(TransferFunction())
    requires Holds(cells, from, n) && Holds(cells, to, m) && amount < U128
    requires from in accounts && to in accounts && forall i, j :: 0 <= i < j < |accounts| ==> accounts[i] != accounts[j]
    ensures var run := ExecuteOn(Compile(p).value, "transfer", PlainBackend(), TransferInvocation(from, to, amount),
        cells);
      && (run.0.Ok? <==> amount <= n && m + amount < U128)
      && (run.0.Err? ==> run.1 == cells && run.0.error == if n < amount then PolicyRejected else Overflow)
      && (run.0.Ok? ==>
        && run.1 == cells[(BALANCE, from) := EncodeUint(FheUint, n - amount)][(BALANCE, to) := EncodeUint(FheUint,
            m + amount)]
        && (Total(run.1, accounts) == Total(cells, accounts) <==> from != to || amount == 0))
  {
    hide Compile, Evaluate, InterpretFunction, EncodeUint, LoadFrom, Total, TokenStates, TransferFunction;
    hide PlainBackend, Commit;
    PlainWorld(LoadFrom(cells));
    MeaningPreserved(p, "transfer", Plain(LoadFrom(cells)), TransferInvocation(from, to, amount));
    TransferOutcome(cells, from, to, amount, n, m);
    if amount <= n && m + amount < U128 {
      TransferTotal(cells, accounts, from, to, amount, n, m);
      TwoCommits(cells, BalanceWrite(from, n - amount), BalanceWrite(to, m + amount));
    }
  }

  // ---- the contract is accepted ----

  ghost predicate Lowers(env: Env, e: Expression, t: ValueType) {
    forall n: nat {:trigger LowerExpr(TokenStates(), env, e, n)} ::
      LowerExpr(TokenStates(), env, e, n).Ok? && LowerExpr(TokenStates(), env, e, n).value.value.ty == t
  }

  lemma LowersBalance(env: Env, x: string)
    requires x in env && env[x].ty == Address
    ensures Lowers(env, BalanceOf(x), FheUint)
  {
  }

  lemma LowersOne(env: Env, e: Expression, t: ValueType, n: nat)
    requires Lowers(env, e, t)
    ensures var l := LowerArgs(TokenStates(), env, [e], n); l.Ok? && l.value.values[0].ty == t
  {
    assert [e][..0] == [];
    assert LowerArgs(TokenStates(), env, [], n) == Ok(LoweredArgs([], []));
    assert LowerExpr(TokenStates(), env, e, n).Ok?;
  }

  lemma LowersCall(env: Env, f: string, b: Builtin, e1: Expression, e2: Expression)
    requires BuiltinNamed(f) == Some(b) && Lowers(env, e1, FheUint) && Lowers(env, e2, FheUint)
    requires b == FheAdd || b == FheSub || b == FheGe
    ensures Lowers(env, Call(f, [e1, e2]), if b == FheGe then FheBool else FheUint)
  {
    hide BuiltinNamed, TokenStates;
    forall n: nat
      ensures LowerExpr(TokenStates(), env, Call(f, [e1, e2]), n).Ok?
      ensures LowerExpr(TokenStates(), env, Call(f, [e1, e2]), n).value.value.ty == if b == FheGe then FheBool
          else FheUint
    {
      LowersPair(env, e1, e2, n);
      var l := LowerArgs(TokenStates(), env, [e1, e2], n).value;
      assert SignatureOf(f, l.values).Ok?;
    }
  }

  lemma LowersPair(env: Env, e1: Expression, e2: Expression, n: nat)
    requires Lowers(env, e1, FheUint) && Lowers(env, e2, FheUint)
    ensures var l := LowerArgs(TokenStates(), env, [e1, e2], n);
      l.Ok? && l.value.values[0].ty == FheUint && l.value.values[1].ty == FheUint
  {
    hide TokenStates;
    var args := [e1, e2];
    assert args[..1] == [e1];
    LowersOne(env, e1, FheUint, n);
    var init := LowerArgs(TokenStates(), env, [e1], n).value;
    assert LowerExpr(TokenStates(), env, e2, n + |init.nodes|).Ok?;
    var l := LowerArgs(TokenStates(), env, args, n);
    assert l.value.values[0].ty == FheUint && l.value.values[1].ty == FheUint;
  }

  lemma LowersConversion(env: Env, e: Expression)
    requires Lowers(env, e, FheBool)
    ensures Lowers(env, Call("H2S", [e]), SecretBool)
  {
    TokenNames();
    hide BuiltinNamed;
    forall n: nat
      ensures LowerExpr(TokenStates(), env, Call("H2S", [e]), n).Ok?
      ensures LowerExpr(TokenStates(), env, Call("H2S", [e]), n).value.value.ty == SecretBool
    {
      LowersOne(env, e, FheBool, n);
      var l := LowerArgs(TokenStates(), env, [e], n);
      assert SignatureOf("H2S", l.value.values).Ok?;
    }
  }

  // The compiler accepts the token's transfer function.
  lemma TokenAccepted()
    ensures Compile(Program("ConfidentialToken", TokenStates(), [TransferFunction()])).Ok?
    ensures FindSource([TransferFunction()], "transfer") == Some(TransferFunction())
  {
    var p := Program("ConfidentialToken", TokenStates(), [TransferFunction()]);
    assert CheckStates(p.states, 0).Ok? && CheckStates(p.states, 1).Ok?;
    TransferLowers();
    hide LowerFunction;
    assert LowerFunctions(p, 0).Ok? && LowerFunctions(p, 1).Ok?;
  }

  lemma TransferLowers()
    ensures LowerFunction(TokenStates(), TransferFunction()).Ok?
  {
    hide LowerExpr, BuiltinNamed;
    var f := TransferFunction();
    var env := ParamEnv(f.params, 2);
    assert ParamEnv(f.params, 0) == map[CALLER := TypedRef(Address, Sender)];
    assert ParamEnv(f.params, 1) == ParamEnv(f.params, 0)["to" := TypedRef(Address, Input("to"))];
    assert env == ParamEnv(f.params, 1)["amount" := TypedRef(FheUint, Input("amount"))];
    GuardLowers(env);
    var s1 := LowerBody(TokenStates(), f, 1).value;
    assert LowerBody(TokenStates(), f, 0).Ok? && LowerBody(TokenStates(), f, 1).Ok?;
    AssignLowers(s1);
    assert LowerBody(TokenStates(), f, 2).Ok?;
    assert LowerBody(TokenStates(), f, 3).Ok?;
  }

  lemma GuardLowers(env: Env)
    requires CALLER in env && env[CALLER].ty == Address && "amount" in env && env["amount"].ty == FheUint
    ensures Lowers(env, Call("H2S", [Call("FHE.ge", [BalanceOf(CALLER), Name("amount")])]), SecretBool)
  {
    TokenNames();
    hide BuiltinNamed;
    LowersBalance(env, CALLER);
    assert Lowers(env, Name("amount"), FheUint);
    LowersCall(env, "FHE.ge", FheGe, BalanceOf(CALLER), Name("amount"));
    LowersConversion(env, Call("FHE.ge", [BalanceOf(CALLER), Name("amount")]));
  }

  lemma AssignLowers(s: LowerState)
    requires CALLER in s.env && s.env[CALLER].ty == Address && "amount" in s.env && s.env["amount"].ty == FheUint
    requires "to" in s.env && s.env["to"].ty == Address && "sufficient" in s.env && s.env["sufficient"].ty == SecretBool
    ensures forall t: LowerState {:trigger t.env} :: t.env == s.env ==>
      && (forall i {:trigger TransferFunction().body[i]} :: 1 <= i <= 3 ==>
        LowerStatement(TokenStates(), t, TransferFunction().body[i]).Ok?
            && LowerStatement(TokenStates(), t, TransferFunction().body[i]).value.env == s.env)
  {
    forall t: LowerState, i | t.env == s.env && 1 <= i <= 3
      ensures LowerStatement(TokenStates(), t, TransferFunction().body[i]).Ok?
          && LowerStatement(TokenStates(), t, TransferFunction().body[i]).value.env == s.env
    {
      OneLowers(t, i);
    }
  }

  lemma OneLowers(t: LowerState, i: nat)
    requires 1 <= i <= 3
    requires CALLER in t.env && t.env[CALLER].ty == Address && "amount" in t.env && t.env["amount"].ty == FheUint
    requires "to" in t.env && t.env["to"].ty == Address && "sufficient" in t.env && t.env["sufficient"].ty == SecretBool
    ensures LowerStatement(TokenStates(), t, TransferFunction().body[i]).Ok?
    ensures LowerStatement(TokenStates(), t, TransferFunction().body[i]).value.env == t.env
  {
    TokenNames();
    hide BuiltinNamed;
    LowersBalance(t.env, CALLER);
    LowersBalance(t.env, "to");
    assert Lowers(t.env, Name("amount"), FheUint) && Lowers(t.env, Name("sufficient"), SecretBool);
    LowersCall(t.env, "FHE.sub", FheSub, BalanceOf(CALLER), Name("amount"));
    LowersCall(t.env, "FHE.add", FheAdd, BalanceOf("to"), Name("amount"));
  }

  // ---- deferred against immediate assignment ----

  lemma CheckNothing()
    ensures CheckLog(TokenStates(), [], 0) == Ok([])
  {
  }

  lemma SeqUnfold(cells: Cells, q: SeqState, st: Statement)
    ensures SeqStatement(TokenStates(), PlainBackend(), q, st)
            == match InterpretStatement(TokenStates(), Plain(LoadFrom(q.cells)),
                SourceState(q.env, q.hostCalls, [], q.opening), st)
               case Err(e) => Err(e)
               case Ok(i) =>
                 match CheckLog(TokenStates(), i.log, |i.log|)
                 case Err(e) => Err(e)
                 case Ok(ws) => Ok(SeqState(i.env, i.hostCalls, Commit(q.cells, ws), i.opening))
  {
    PlainWorld(LoadFrom(q.cells));
    hide InterpretStatement, CheckLog, TokenStates, Commit;
  }

  // The guard reads and writes nothing that matters.
  lemma SeqGuard(cells: Cells, from: seq<Byte>, to: seq<Byte>, amount: nat, n: nat)
    requires Holds(cells, from, n) && amount <= n
    ensures HasInputs(TransferFunction(), TransferInvocation(from, to, amount))
    ensures SeqBody(TokenStates(), TransferFunction(), PlainBackend(), cells, TransferInvocation(from, to, amount), 2)
            == Ok(SeqState(GuardedEnv(from, to, amount, n), [], cells, None))
  {
    hide InterpretStatement, EncodeUint, EncodeBool, CheckInputs, LoadFrom, SeqStatement, CheckLog, PlainBackend;
    StartIs(from, to, amount);
    var f, inv := TransferFunction(), TransferInvocation(from, to, amount);
    var env := StartEnv(f.params, inv, 2);
    TransferGuard(cells, from, to, amount, n, env);
    assert env["sufficient" := Enough(n, amount)] == GuardedEnv(from, to, amount, n);
    var q0, q1 := SeqState(env, [], cells, None), SeqState(GuardedEnv(from, to, amount, n), [], cells, None);
    SeqUnfold(cells, q0, f.body[0]);
    SeqUnfold(cells, q1, f.body[1]);
    CheckNothing();
    CommitNothing(cells);
    assert SeqBody(TokenStates(), f, PlainBackend(), cells, inv, 0) == Ok(q0);
    assert SeqBody(TokenStates(), f, PlainBackend(), cells, inv, 1) == Ok(q1);
  }

  lemma SingleCommit(cells: Cells, a: StateWrite)
    ensures Commit(cells, [a]) == cells[(a.state, a.key) := a.value]
  {
    assert CommitTo(cells, [a], 0) == cells;
  }

  // Performing the assignments one after another: the credit sees the debit.
  lemma SequentialTransfer(cells: Cells, from: seq<Byte>, to: seq<Byte>, amount: nat, n: nat, m: nat)
    requires Holds(cells, from, n) && Holds(cells, to, m) && amount <= n && m + amount < U128
    ensures HasInputs(TransferFunction(), TransferInvocation(from, to, amount))
    ensures var debited := cells[(BALANCE, from) := EncodeUint(FheUint, n - amount)];
      RunSequential(TokenStates(), TransferFunction(), PlainBackend(), cells, TransferInvocation(from, to, amount))
      == Ok(Visible([], None, debited[(BALANCE, to) := EncodeUint(FheUint, if from == to then n else m + amount)]))
  {
    hide InterpretStatement, EncodeUint, EncodeBool, CheckInputs, LoadFrom, SeqStatement, CheckLog;
    hide PlainBackend, TokenStates, Commit;
    var f, inv := TransferFunction(), TransferInvocation(from, to, amount);
    SeqGuard(cells, from, to, amount, n);
    var env := GuardedEnv(from, to, amount, n);
    var q2 := SeqState(env, [], cells, None);
    TransferDebit(cells, SourceState(env, [], [], None), from, n, amount);
    SeqUnfold(cells, q2, f.body[2]);
    TwoEntriesCheck(from, n - amount, to, 0);
    SingleCommit(cells, BalanceWrite(from, n - amount));
    var debited: Cells := cells[(BALANCE, from) := EncodeUint(FheUint, n - amount)];
    var q3 := SeqState(env, [], debited, None);
    assert [] + [BalanceEntry(from, n - amount)] == [BalanceEntry(from, n - amount)];
    assert SeqBody(TokenStates(), f, PlainBackend(), cells, inv, 3) == Ok(q3);
    var before := if from == to then n - amount else m;
    TransferCredit(debited, SourceState(env, [], [], None), to, before, amount);
    SeqUnfold(debited, q3, f.body[3]);
    TwoEntriesCheck(to, before + amount, to, 0);
    SingleCommit(debited, BalanceWrite(to, before + amount));
    assert [] + [BalanceEntry(to, before + amount)] == [BalanceEntry(to, before + amount)];
  }

  lemma SameEncoding(cells: Cells, from: seq<Byte>, to: seq<Byte>, n: nat, m: nat)
    requires Holds(cells, from, n) && Holds(cells, to, m) && from == to
    ensures n == m
  {
    DecodeEncode(FheUint, n);
    DecodeEncode(FheUint, m);
  }

  lemma DeferredUnfold(states: seq<StateDecl>, f: Function, cells: Cells, inv: Invocation)
    requires HasInputs(f, inv) && CheckInputs(f.params, inv.inputs).Ok?
    ensures RunDeferred(states, f, PlainBackend(), cells, inv)
            == match InterpretFunction(states, f, Plain(LoadFrom(cells)), inv)
               case Err(e) => Err(e)
               case Ok(o) => Ok(Visible(o.hostCalls, o.opening, Commit(cells, o.writes)))
  {
    PlainWorld(LoadFrom(cells));
    hide InterpretBody, Commit, CheckInputs, Conclude, PlainBackend, LoadFrom;
  }

  lemma EncodingsDiffer(a: nat, b: nat)
    requires a < U128 && b < U128
    ensures EncodeUint(FheUint, a) == EncodeUint(FheUint, b) <==> a == b
  {
    DecodeEncode(FheUint, a);
    DecodeEncode(FheUint, b);
  }

  // The order of loads and assignments shows exactly in a transfer of something to oneself.
  lemma TransferOrder(cells: Cells, from: seq<Byte>, to: seq<Byte>, amount: nat, n: nat, m: nat)
    requires Holds(cells, from, n) && Holds(cells, to, m) && amount <= n && m + amount < U128
    ensures HasInputs(TransferFunction(), TransferInvocation(from, to, amount))
    ensures var f, inv := TransferFunction(), TransferInvocation(from, to, amount);
      RunDeferred(TokenStates(), f, PlainBackend(), cells, inv)
          == RunSequential(TokenStates(), f, PlainBackend(), cells, inv)
      <==> from != to || amount == 0
  {
    hide InterpretFunction, RunDeferred, RunSequential, EncodeUint, LoadFrom, TokenStates, TransferFunction;
    hide PlainBackend, Commit;
    StartIs(from, to, amount);
    SequentialTransfer(cells, from, to, amount, n, m);
    TransferOutcome(cells, from, to, amount, n, m);
    DeferredUnfold(TokenStates(), TransferFunction(), cells, TransferInvocation(from, to, amount));
    TwoCommits(cells, BalanceWrite(from, n - amount), BalanceWrite(to, m + amount));
    if from == to {
      SameEncoding(cells, from, to, n, m);
      EncodingsDiffer(m + amount, n);
      var debited: Cells := cells[(BALANCE, from) := EncodeUint(FheUint, n - amount)];
      assert debited[(BALANCE, to) := EncodeUint(FheUint, n)][(BALANCE, to)] == EncodeUint(FheUint, n);
      assert debited[(BALANCE, to) := EncodeUint(FheUint, m + amount)][(BALANCE, to)]
          == EncodeUint(FheUint, m + amount);
    }
  }
}
