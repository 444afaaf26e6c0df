/** The recursive-descent parser, and the printer it undoes. */
module Parser {
  import opened Wrappers
  import opened Language
  import opened Lexer

  // Token lists the parser is given: they end with the end marker.
  predicate Ended(ts: seq<Token>) { ts != [] && ts[|ts| - 1].kind == Eof }

  // A parsed value and the tokens after it.
  datatype Parsed<+T> = Parsed(value: T, rest: seq<Token>)

  type P<T> = Result<Parsed<T>, SyntaxError>

  // What every parser keeps: the tokens it leaves are no more and still have the end marker.
  ghost predicate Leaves<T>(ts: seq<Token>, r: P<T>) {
    r.Ok? ==> Ended(r.value.rest) && |r.value.rest| <= |ts|
  }

  function Fail<T>(ts: seq<Token>, f: SyntaxFault): (r: P<T>)
    requires Ended(ts)
  {
    Err(SyntaxError(f, ts[0].offset))
  }

  function TypeNamed(name: string): (r: Option<ValueType>) {
    if name == "address" then Some(Address)
    else if name == "uint" || name == "uint256" then Some(Uint)
    else if name == "FheUint" then Some(FheUint)
    else if name == "Sint" then Some(Sint)
    else if name == "SecretBool" then Some(SecretBool)
    else None
  }

  // The names of the types.
  lemma TypeNamesExactly(name: string)
    ensures TypeNamed(name) == Some(Address) <==> name == "address"
    ensures TypeNamed(name) == Some(Uint) <==> name == "uint" || name == "uint256"
    ensures TypeNamed(name) == Some(FheUint) <==> name == "FheUint"
    ensures TypeNamed(name) == Some(Sint) <==> name == "Sint"
    ensures TypeNamed(name) == Some(SecretBool) <==> name == "SecretBool"
    ensures TypeNamed(name) != Some(FheBool) && TypeNamed(name) != Some(Opened) && TypeNamed(name) != Some(Void)
  {
  }

  // ---- the grammar as functions on token lists ----

  function Next(ts: seq<Token>): (rest: seq<Token>)
    requires Ended(ts) && ts[0].kind != Eof
    ensures Ended(rest) && |rest| == |ts| - 1 && rest == ts[1..]
  {
    ts[1..]
  }

  function TakeIdent(ts: seq<Token>): (r: P<string>)
    requires Ended(ts)
    ensures Leaves(ts, r) && (r.Ok? ==> |r.value.rest| < |ts|)
  {
    match ts[0].kind
    case Ident(s) => Ok(Parsed(s, Next(ts)))
    case _ => Fail(ts, ExpectedIdentifier)
  }

  function TakeSymbol(ts: seq<Token>, c: char): (r: P<()>)
    requires Ended(ts)
    ensures Leaves(ts, r) && (r.Ok? ==> |r.value.rest| < |ts|)
  {
    if ts[0].kind == Symbol(c) then Ok(Parsed((), Next(ts))) else Fail(ts, ExpectedSymbol(c))
  }

  function TakeKeyword(ts: seq<Token>, word: string): (r: P<()>)
    requires Ended(ts)
    ensures Leaves(ts, r) && (r.Ok? ==> |r.value.rest| < |ts|)
  {
    if ts[0].kind == Ident(word) then Ok(Parsed((), Next(ts))) else Fail(ts, ExpectedKeyword(word))
  }

  function TakeType(ts: seq<Token>): (r: P<ValueType>)
    requires Ended(ts)
    ensures Leaves(ts, r) && (r.Ok? ==> |r.value.rest| < |ts|)
  {
    var name :- TakeIdent(ts);
    match TypeNamed(name.value)
    case Some(t) => Ok(Parsed(t, name.rest))
    case None => Fail(ts, UnknownType(name.value))
  }

  function TakeExpr(ts: seq<Token>): (r: P<Expression>)
    requires Ended(ts)
    ensures Leaves(ts, r) && (r.Ok? ==> |r.value.rest| < |ts|)
    decreases |ts|, 1
  {
    match ts[0].kind
    case NumberToken(d) => Ok(Parsed(Number(d), Next(ts)))
    case Ident(name) =>
      var rest := Next(ts);
      if rest[0].kind == Symbol('(') then
        if Next(rest)[0].kind == Symbol(')') then Ok(Parsed(Call(name, []), Next(Next(rest))))
        else
          var args :- TakeArgs(Next(rest));
          Ok(Parsed(Call(name, args.value), args.rest))
      else if rest[0].kind == Symbol('[') then
        var key :- TakeExpr(Next(rest));
        var close :- TakeSymbol(key.rest, ']');
        Ok(Parsed(Index(name, key.value), close.rest))
      else Ok(Parsed(Name(name), rest))
    case _ => Fail(ts, ExpectedExpression)
  }

  // One or more arguments and the closing parenthesis.
  function TakeArgs(ts: seq<Token>): (r: P<seq<Expression>>)
    requires Ended(ts)
    ensures Leaves(ts, r) && (r.Ok? ==> |r.value.rest| < |ts|)
    decreases |ts|, 2
  {
    var e :- TakeExpr(ts);
    if e.rest[0].kind == Symbol(')') then Ok(Parsed([e.value], Next(e.rest)))
    else
      var comma :- TakeSymbol(e.rest, ',');
      var more :- TakeArgs(comma.rest);
      Ok(Parsed([e.value] + more.value, more.rest))
  }

  function TakeRequire(ts: seq<Token>): (r: P<Statement>)
    requires Ended(ts)
    ensures Leaves(ts, r)
  {
    var o :- TakeSymbol(ts, '(');
    var e :- TakeExpr(o.rest);
    var c :- TakeSymbol(e.rest, ')');
    var s :- TakeSymbol(c.rest, ';');
    Ok(Parsed(Require(e.value), s.rest))
  }

  function TakeReturn(ts: seq<Token>): (r: P<Statement>)
    requires Ended(ts)
    ensures Leaves(ts, r)
  {
    var e :- TakeExpr(ts);
    var s :- TakeSymbol(e.rest, ';');
    Ok(Parsed(Return(e.value), s.rest))
  }

  function TakeLocal(ts: seq<Token>, ty: ValueType): (r: P<Statement>)
    requires Ended(ts)
    ensures Leaves(ts, r)
  {
    var name :- TakeIdent(ts);
    var eq :- TakeSymbol(name.rest, '=');
    var e :- TakeExpr(eq.rest);
    var s :- TakeSymbol(e.rest, ';');
    Ok(Parsed(Local(ty, name.value, e.value), s.rest))
  }

  function TakeAssignOrExpr(ts: seq<Token>): (r: P<Statement>)
    requires Ended(ts)
    ensures Leaves(ts, r) && (r.Ok? ==> |r.value.rest| < |ts|)
  {
    var left :- TakeExpr(ts);
    if left.rest[0].kind == Symbol('=') then
      var right :- TakeExpr(Next(left.rest));
      var s :- TakeSymbol(right.rest, ';');
      Ok(Parsed(Assign(left.value, right.value), s.rest))
    else
      var s :- TakeSymbol(left.rest, ';');
      Ok(Parsed(ExprStatement(left.value), s.rest))
  }

  function TakeStatement(ts: seq<Token>): (r: P<Statement>)
    requires Ended(ts)
    ensures Leaves(ts, r) && (r.Ok? ==> |r.value.rest| < |ts|)
  {
    if ts[0].kind == Ident("require") then TakeRequire(Next(ts))
    else if ts[0].kind == Ident("return") then TakeReturn(Next(ts))
    else if ts[0].kind.Ident? && TypeNamed(ts[0].kind.name).Some?
        then TakeLocal(Next(ts), TypeNamed(ts[0].kind.name).value)
    else TakeAssignOrExpr(ts)
  }

  // Statements up to and including the closing brace.
  function TakeBody(ts: seq<Token>): (r: P<seq<Statement>>)
    requires Ended(ts)
    ensures Leaves(ts, r) && (r.Ok? ==> |r.value.rest| < |ts|)
    decreases |ts|
  {
    if ts[0].kind == Symbol('}') then Ok(Parsed([], Next(ts)))
    else
      var st :- TakeStatement(ts);
      var more :- TakeBody(st.rest);
      Ok(Parsed([st.value] + more.value, more.rest))
  }

  function TakeParam(ts: seq<Token>): (r: P<Param>)
    requires Ended(ts)
    ensures Leaves(ts, r) && (r.Ok? ==> |r.value.rest| < |ts|)
  {
    var ty :- TakeType(ts);
    var name :- TakeIdent(ty.rest);
    Ok(Parsed(Param(name.value, ty.value), name.rest))
  }

  // One or more parameters and the closing parenthesis.
  function TakeParams(ts: seq<Token>): (r: P<seq<Param>>)
    requires Ended(ts)
    ensures Leaves(ts, r) && (r.Ok? ==> |r.value.rest| < |ts|)
    decreases |ts|
  {
    var p :- TakeParam(ts);
    if p.rest[0].kind == Symbol(')') then Ok(Parsed([p.value], Next(p.rest)))
    else
      var comma :- TakeSymbol(p.rest, ',');
      var more :- TakeParams(comma.rest);
      Ok(Parsed([p.value] + more.value, more.rest))
  }

  function TakeParamList(ts: seq<Token>): (r: P<seq<Param>>)
    requires Ended(ts)
    ensures Leaves(ts, r) && (r.Ok? ==> |r.value.rest| < |ts|)
  {
    if ts[0].kind == Symbol(')') then Ok(Parsed([], Next(ts))) else TakeParams(ts)
  }

  function TakeFunction(ts: seq<Token>): (r: P<Function>)
    requires Ended(ts)
    ensures Leaves(ts, r)
  {
    var name :- TakeIdent(ts);
    var o :- TakeSymbol(name.rest, '(');
    var params :- TakeParamList(o.rest);
    var public :- TakeKeyword(params.rest, "public");
    var brace :- TakeSymbol(public.rest, '{');
    var body :- TakeBody(brace.rest);
    Ok(Parsed(Function(name.value, params.value, body.value), body.rest))
  }

  function TakeKey(ts: seq<Token>): (r: P<Option<ValueType>>)
    requires Ended(ts)
    ensures Leaves(ts, r)
  {
    if ts[0].kind == Symbol('[') then
      var key :- TakeType(Next(ts));
      var close :- TakeSymbol(key.rest, ']');
      Ok(Parsed(Some(key.value), close.rest))
    else Ok(Parsed(None, ts))
  }

  function TakeState(ts: seq<Token>): (r: P<StateDecl>)
    requires Ended(ts)
    ensures Leaves(ts, r)
  {
    var ty :- TakeType(ts);
    var name :- TakeIdent(ty.rest);
    var key :- TakeKey(name.rest);
    var s :- TakeSymbol(key.rest, ';');
    Ok(Parsed(StateDecl(name.value, ty.value, key.value), s.rest))
  }

  datatype Members = Members(states: seq<StateDecl>, functions: seq<Function>)

  // Members up to and including the closing brace.
  function TakeMembers(ts: seq<Token>): (r: P<Members>)
    requires Ended(ts)
    ensures Leaves(ts, r)
    decreases |ts|
  {
    if ts[0].kind == Symbol('}') then Ok(Parsed(Members([], []), Next(ts)))
    else if ts[0].kind == Ident("private") then
      var d :- TakeState(Next(ts));
      var more :- TakeMembers(d.rest);
      Ok(Parsed(Members([d.value] + more.value.states, more.value.functions), more.rest))
    else if ts[0].kind == Ident("function") then
      var f :- TakeFunction(Next(ts));
      var more :- TakeMembers(f.rest);
      Ok(Parsed(Members(more.value.states, [f.value] + more.value.functions), more.rest))
    else Fail(ts, ExpectedMember)
  }

  function ParseTokens(ts: seq<Token>): (r: Result<Program, SyntaxError>)
    requires Ended(ts)
  {
    var p :- TakeKeyword(ts, "privacy");
    var c :- TakeKeyword(p.rest, "contract");
    var name :- TakeIdent(c.rest);
    var brace :- TakeSymbol(name.rest, '{');
    var members :- TakeMembers(brace.rest);
    if members.rest[0].kind != Eof then Err(SyntaxError(UnexpectedInput, members.rest[0].offset))
    else Ok(Program(name.value, members.value.states, members.value.functions))
  }

  function Parse(source: string): (r: Result<Program, SyntaxError>) {
    var ts :- Lex(source);
    ParseTokens(ts)
  }

  // ---- the printer ----

  function TypeName(t: ValueType): (s: string) {
    match t
    case Address => "address"
    case Uint => "uint"
    case FheUint => "FheUint"
    case Sint => "Sint"
    case SecretBool => "SecretBool"
    case _ => "bytes"
  }

  // Types a source program can name.
  predicate HasName(t: ValueType) { t == Address || t == Uint || t == FheUint || t == Sint || t == SecretBool }

  function ExprKinds(e: Expression): (ks: seq<Kind>)
    ensures ks != []
    decreases e
  {
    match e
    case Name(x) => [Ident(x)]
    case Number(d) => [NumberToken(d)]
    case Index(s, k) => [Ident(s), Symbol('[')] + ExprKinds(k) + [Symbol(']')]
    case Call(f, args) => [Ident(f), Symbol('(')] + (if args == [] then [Symbol(')')] else ArgKinds(args))
  }

  function ArgKinds(args: seq<Expression>): (ks: seq<Kind>)
    requires args != []
    ensures ks != []
    decreases args
  {
    ExprKinds(args[0]) + if |args| == 1 then [Symbol(')')] else [Symbol(',')] + ArgKinds(args[1..])
  }

  function StatementKinds(st: Statement): (ks: seq<Kind>) {
    match st
    case Local(ty, name, e) => [Ident(TypeName(ty)), Ident(name)] + ([Symbol('=')] + (ExprKinds(e) + [Symbol(';')]))
    case Assign(l, r) => ExprKinds(l) + [Symbol('=')] + (ExprKinds(r) + [Symbol(';')])
    case Require(e) => [Ident("require"), Symbol('(')] + (ExprKinds(e) + [Symbol(')')] + [Symbol(';')])
    case Return(e) => [Ident("return")] + (ExprKinds(e) + [Symbol(';')])
    case ExprStatement(e) => ExprKinds(e) + [Symbol(';')]
  }

  function BodyKinds(body: seq<Statement>): (ks: seq<Kind>) {
    if body == [] then [Symbol('}')] else StatementKinds(body[0]) + BodyKinds(body[1..])
  }

  function ParamKinds(params: seq<Param>): (ks: seq<Kind>)
    requires params != []
  {
    [Ident(TypeName(params[0].ty)), Ident(params[0].name)]
    + if |params| == 1 then [Symbol(')')] else [Symbol(',')] + ParamKinds(params[1..])
  }

  function ListKinds(params: seq<Param>): (ks: seq<Kind>) { if params == [] then [Symbol(')')] else ParamKinds(params) }

  function FunctionKinds(f: Function): (ks: seq<Kind>) {
    [Ident(f.name), Symbol('(')] + (ListKinds(f.params) + ([Ident("public"), Symbol('{')] + BodyKinds(f.body)))
  }

  function KeyKinds(k: Option<ValueType>): (ks: seq<Kind>) {
    match k
    case Some(t) => [Symbol('['), Ident(TypeName(t)), Symbol(']')]
    case None => []
  }

  function StateKinds(d: StateDecl): (ks: seq<Kind>) {
    [Ident(TypeName(d.ty)), Ident(d.name)] + (KeyKinds(d.keyTy) + [Symbol(';')])
  }

  // States first, then functions.
  function MemberKinds(states: seq<StateDecl>, functions: seq<Function>): (ks: seq<Kind>) {
    if states != [] then [Ident("private")] + (StateKinds(states[0]) + MemberKinds(states[1..], functions))
    else if functions != []
        then [Ident("function")] + (FunctionKinds(functions[0]) + MemberKinds(states, functions[1..]))
    else [Symbol('}')]
  }

  function ProgramKinds(p: Program): (ks: seq<Kind>) {
    [Ident("privacy"), Ident("contract")] + ([Ident(p.name), Symbol('{')] + MemberKinds(p.states, p.functions))
  }

  function Print(p: Program): (source: string) { Spell(ProgramKinds(p)) }

  // ---- printing and parsing again ----

  // The token list starts with these kinds.
  ghost predicate Starts(ts: seq<Token>, ks: seq<Kind>) {
    |ks| <= |ts| && forall i :: 0 <= i < |ks| ==> ts[i].kind == ks[i]
  }

  lemma StartsSplit(ts: seq<Token>, a: seq<Kind>, b: seq<Kind>)
    requires Starts(ts, a + b)
    ensures Starts(ts, a) && Starts(ts[|a|..], b) && |a + b| == |a| + |b|
    ensures ts[|a|..][|b|..] == ts[|a + b|..]
  {
    forall i | 0 <= i < |a| ensures ts[i].kind == a[i] { assert (a + b)[i] == a[i]; }
    forall i | 0 <= i < |b| ensures ts[|a|..][i].kind == b[i] { assert (a + b)[|a| + i] == b[i]; }
  }

  // Kinds that are not the end marker leave an ended list.
  lemma EndedAfter(ts: seq<Token>, ks: seq<Kind>)
    requires Ended(ts) && Starts(ts, ks) && forall i :: 0 <= i < |ks| ==> ks[i] != Eof
    ensures |ks| < |ts| && Ended(ts[|ks|..])
  {
    assert forall i {:trigger ts[i]} :: 0 <= i < |ks| ==> ts[i].kind != Eof;
    assert ts[|ts| - 1].kind == Eof;
  }

  lemma {:induction false} ExprNoEof(e: Expression)
    ensures forall i :: 0 <= i < |ExprKinds(e)| ==> ExprKinds(e)[i] != Eof
    decreases e
  {
    match e
    case Name(_) =>
    case Number(_) =>
    case Index(s, k) => ExprNoEof(k);
    case Call(f, args) => if args != [] { ArgsNoEof(args); }
  }

  lemma {:induction false} ArgsNoEof(args: seq<Expression>)
    requires args != []
    ensures forall i :: 0 <= i < |ArgKinds(args)| ==> ArgKinds(args)[i] != Eof
    decreases args
  {
    ExprNoEof(args[0]);
    if |args| > 1 { ArgsNoEof(args[1..]); }
  }

  // What follows an expression does not continue it.
  ghost predicate Delimited(ts: seq<Token>) {
    Ended(ts) && ts[0].kind != Symbol('(') && ts[0].kind != Symbol('[')
  }

  // After the first two kinds of a list.
  lemma StartsTwo(ts: seq<Token>, a: Kind, b: Kind, ks: seq<Kind>)
    requires Ended(ts) && Starts(ts, [a, b] + ks) && a != Eof && b != Eof
    ensures |ts| > 2 && ts[0].kind == a && Ended(ts[1..]) && ts[1..][0].kind == b && Ended(ts[2..])
        && ts[1..][1..] == ts[2..]
    ensures Starts(ts[2..], ks) && ts[2..][|ks|..] == ts[2 + |ks|..]
  {
    StartsSplit(ts, [a, b], ks);
    assert ts[0].kind == [a, b][0] && ts[1].kind == [a, b][1];
    EndedAfter(ts, [a, b]);
  }

  lemma {:induction false} ParsePrintedExpr(e: Expression, ts: seq<Token>)
    requires Ended(ts) && Starts(ts, ExprKinds(e)) && |ExprKinds(e)| < |ts| && Delimited(ts[|ExprKinds(e)|..])
    ensures TakeExpr(ts) == Ok(Parsed(e, ts[|ExprKinds(e)|..]))
    decreases e, 1
  {
    match e
    case Name(_) =>
    case Number(_) =>
    case Index(s, k) => ParsePrintedIndex(s, k, ts);
    case Call(f, args) => ParsePrintedCall(f, args, ts);
  }

  lemma {:induction false} ParsePrintedIndex(s: string, k: Expression, ts: seq<Token>)
    requires Ended(ts) && Starts(ts, ExprKinds(Index(s, k)))
    ensures TakeExpr(ts) == Ok(Parsed(Index(s, k), ts[|ExprKinds(Index(s, k))|..]))
    decreases Index(s, k), 0
  {
    var ks := ExprKinds(k);
    assert ExprKinds(Index(s, k)) == [Ident(s), Symbol('[')] + (ks + [Symbol(']')]);
    hide *;
    StartsTwo(ts, Ident(s), Symbol('['), ks + [Symbol(']')]);
    ParseClosed(k, ts[2..], Symbol(']'));
    IndexUnfold(ts, s, k, ts[2..][|ks|..]);
  }

  lemma IndexUnfold(ts: seq<Token>, s: string, k: Expression, rest: seq<Token>)
    requires Ended(ts) && ts[0].kind == Ident(s) && Ended(ts[1..]) && ts[1..][0].kind == Symbol('[')
        && ts[1..][1..] == ts[2..] && Ended(ts[2..])
    requires TakeExpr(ts[2..]) == Ok(Parsed(k, rest)) && Ended(rest) && rest[0].kind == Symbol(']') && Ended(rest[1..])
    ensures TakeExpr(ts) == Ok(Parsed(Index(s, k), rest[1..]))
  {
    hide TakeArgs;
  }

  // A list of kinds and one closing kind.
  lemma CloseAfter(ts: seq<Token>, ks: seq<Kind>, close: Kind)
    requires Starts(ts, ks + [close])
    ensures Starts(ts, ks) && |ks| < |ts| && ts[|ks|..][0].kind == close && ts[|ks|..][1..] == ts[|ks| + 1..]
  {
    StartsSplit(ts, ks, [close]);
    assert ts[|ks|..][0].kind == [close][0];
  }

  lemma {:induction false} ParsePrintedCall(f: string, args: seq<Expression>, ts: seq<Token>)
    requires Ended(ts) && Starts(ts, ExprKinds(Call(f, args)))
    ensures TakeExpr(ts) == Ok(Parsed(Call(f, args), ts[|ExprKinds(Call(f, args))|..]))
    decreases Call(f, args), 0
  {
    hide TakeArgs, Starts;
    if args == [] {
      StartsTwo(ts, Ident(f), Symbol('('), [Symbol(')')]);
      CloseAfter(ts[2..], [], Symbol(')'));
      assert ts[2..][0..] == ts[2..];
    } else {
      var ks := ArgKinds(args);
      StartsTwo(ts, Ident(f), Symbol('('), ks);
      ParsePrintedArgs(args, ts[2..]);
      ArgFirst(args, ts[2..]);
      CallUnfold(ts, f, args, ts[2..][|ks|..]);
    }
  }

  lemma ArgFirst(args: seq<Expression>, ts: seq<Token>)
    requires args != [] && Starts(ts, ArgKinds(args))
    ensures ts != [] && ts[0].kind != Symbol(')')
  {
    ExprFirst(args[0]);
    assert ts[0].kind == ArgKinds(args)[0] && ArgKinds(args)[0] == ExprKinds(args[0])[0];
  }

  lemma CallUnfold(ts: seq<Token>, f: string, args: seq<Expression>, rest: seq<Token>)
    requires Ended(ts) && ts[0].kind == Ident(f) && Ended(ts[1..]) && ts[1..][0].kind == Symbol('(') && Ended(ts[2..])
        && ts[2..][0].kind != Symbol(')')
    requires TakeArgs(ts[2..]) == Ok(Parsed(args, rest))
    ensures TakeExpr(ts) == Ok(Parsed(Call(f, args), rest))
  {
    assert ts[1..][1..] == ts[2..];
    hide TakeArgs;
  }

  lemma ArgsUnfold(ts: seq<Token>, e: Expression, rest: seq<Token>, more: seq<Expression>, after: seq<Token>)
    requires Ended(ts) && TakeExpr(ts) == Ok(Parsed(e, rest)) && Ended(rest)
    ensures rest[0].kind == Symbol(')') ==> TakeArgs(ts) == Ok(Parsed([e], rest[1..]))
    ensures rest[0].kind == Symbol(',') && Ended(rest[1..]) && TakeArgs(rest[1..]) == Ok(Parsed(more, after))
        ==> TakeArgs(ts) == Ok(Parsed([e] + more, after))
  {
    hide TakeExpr;
  }

  lemma ExprFirst(e: Expression)
    ensures ExprKinds(e)[0].Ident? || ExprKinds(e)[0].NumberToken?
  {
  }

  lemma {:induction false} ParsePrintedArgs(args: seq<Expression>, ts: seq<Token>)
    requires args != [] && Ended(ts) && Starts(ts, ArgKinds(args))
    ensures TakeArgs(ts) == Ok(Parsed(args, ts[|ArgKinds(args)|..]))
    decreases args
  {
    hide TakeExpr, TakeArgs, Starts, Ended, ExprKinds;
    var ks := ExprKinds(args[0]);
    if |args| == 1 {
      ParseClosed(args[0], ts, Symbol(')'));
      ArgsUnfold(ts, args[0], ts[|ks|..], [], []);
      assert args == [args[0]];
    } else {
      var more := ArgKinds(args[1..]);
      assert ArgKinds(args) == (ks + [Symbol(',')]) + more;
      StartsSplit(ts, ks + [Symbol(',')], more);
      ParseClosed(args[0], ts, Symbol(','));
      ParsePrintedArgs(args[1..], ts[|ks| + 1..]);
      ArgsUnfold(ts, args[0], ts[|ks|..], args[1..], ts[|ks| + 1..][|more|..]);
      assert args == [args[0]] + args[1..];
    }
  }

  // An expression and the symbol that closes it.
  lemma {:induction false} ParseClosed(e: Expression, ts: seq<Token>, close: Kind)
    requires Ended(ts) && Starts(ts, ExprKinds(e) + [close]) && close.Symbol? && close.c != '(' && close.c != '['
    ensures var n := |ExprKinds(e)|;
      && n < |ts| && TakeExpr(ts) == Ok(Parsed(e, ts[n..])) && Ended(ts[n..]) && ts[n..][0].kind == close
      && Ended(ts[n + 1..]) && ts[n..][1..] == ts[n + 1..]
    decreases e, 2
  {
    hide TakeExpr, Starts, Ended, ExprKinds;
    var ks := ExprKinds(e);
    ExprNoEof(e);
    CloseAfter(ts, ks, close);
    EndedAfter(ts, ks);
    AfterSymbol(ts[|ks|..]);
    ParsePrintedExpr(e, ts);
  }

  lemma AfterSymbol(ts: seq<Token>)
    requires Ended(ts) && ts[0].kind != Eof
    ensures Ended(ts[1..])
    ensures ts[0].kind != Symbol('(') && ts[0].kind != Symbol('[') ==> Delimited(ts)
  {
  }

  // ---- statements ----

  // An expression whose first word does not make a statement of another form.
  predicate PlainLead(e: Expression) {
    var k := ExprKinds(e)[0];
    k.Ident? ==> k.name != "require" && k.name != "return" && TypeNamed(k.name) == None
  }

  predicate Writable(st: Statement) {
    match st
    case Local(ty, _, _) => HasName(ty)
    case Assign(l, _) => PlainLead(l)
    case ExprStatement(e) => PlainLead(e)
    case _ => true
  }

  lemma TypeNames(t: ValueType)
    requires HasName(t)
    ensures TypeNamed(TypeName(t)) == Some(t) && TypeName(t) != "require" && TypeName(t) != "return"
  {
  }

  // Fixed words in front of something.
  lemma StartsOne(ts: seq<Token>, a: Kind, ks: seq<Kind>)
    requires Ended(ts) && Starts(ts, [a] + ks) && a != Eof
    ensures |ts| > 1 && ts[0].kind == a && Ended(ts[1..]) && Starts(ts[1..], ks) && ts[1..][|ks|..] == ts[1 + |ks|..]
  {
    StartsSplit(ts, [a], ks);
    assert ts[0].kind == [a][0];
    EndedAfter(ts, [a]);
  }

  // The rest of the kinds after a closed expression.
  lemma StartsClosed(ts: seq<Token>, e: Expression, close: Kind, ks: seq<Kind>)
    requires Ended(ts) && Starts(ts, ExprKinds(e) + [close] + ks) && close.Symbol? && close.c != '(' && close.c != '['
    ensures var n := |ExprKinds(e)|;
      && n < |ts| && TakeExpr(ts) == Ok(Parsed(e, ts[n..])) && Ended(ts[n..]) && ts[n..][0].kind == close
      && Ended(ts[n + 1..]) && ts[n..][1..] == ts[n + 1..]
      && Starts(ts[n + 1..], ks) && ts[n + 1..][|ks|..] == ts[n + 1 + |ks|..]
  {
    hide TakeExpr, Starts, Ended, ExprKinds;
    StartsSplit(ts, ExprKinds(e) + [close], ks);
    ParseClosed(e, ts, close);
  }

  lemma PrintedRequire(e: Expression, ts: seq<Token>)
    requires Ended(ts) && Starts(ts, StatementKinds(Require(e)))
    ensures TakeStatement(ts) == Ok(Parsed(Require(e), ts[|StatementKinds(Require(e))|..]))
  {
    hide TakeExpr, Starts, Ended, ExprKinds, TypeNamed;
    var tail := ExprKinds(e) + [Symbol(')')] + [Symbol(';')];
    StartsTwo(ts, Ident("require"), Symbol('('), tail);
    StartsClosed(ts[2..], e, Symbol(')'), [Symbol(';')]);
    StartsSemi(ts[2..][|ExprKinds(e)| + 1..]);
  }

  lemma StartsSemi(ts: seq<Token>)
    requires Ended(ts) && Starts(ts, [Symbol(';')])
    ensures ts[0].kind == Symbol(';') && Ended(ts[1..])
  {
    assert ts[0].kind == [Symbol(';')][0];
  }

  lemma PrintedReturn(e: Expression, ts: seq<Token>)
    requires Ended(ts) && Starts(ts, StatementKinds(Return(e)))
    ensures TakeStatement(ts) == Ok(Parsed(Return(e), ts[|StatementKinds(Return(e))|..]))
  {
    hide TakeExpr, Starts, Ended, ExprKinds, TypeNamed;
    var tail := ExprKinds(e) + [Symbol(';')];
    StartsOne(ts, Ident("return"), tail);
    ParseClosed(e, ts[1..], Symbol(';'));
    NotReturn();
  }

  lemma NotReturn()
    ensures "return" != "require"
  {
  }

  lemma PrintedLocal(ty: ValueType, name: string, e: Expression, ts: seq<Token>)
    requires Ended(ts) && Starts(ts, StatementKinds(Local(ty, name, e))) && HasName(ty)
    ensures TakeStatement(ts) == Ok(Parsed(Local(ty, name, e), ts[|StatementKinds(Local(ty, name, e))|..]))
  {
    var tail := ExprKinds(e) + [Symbol(';')];
    assert StatementKinds(Local(ty, name, e)) == [Ident(TypeName(ty)), Ident(name)] + ([Symbol('=')] + tail);
    hide *;
    StartsTwo(ts, Ident(TypeName(ty)), Ident(name), [Symbol('=')] + tail);
    StartsOne(ts[2..], Symbol('='), tail);
    var us := ts[2..][1..];
    ParseClosed(e, us, Symbol(';'));
    LocalUnfold(ts, ty, name, e, us[|ExprKinds(e)|..]);
  }

  lemma LocalUnfold(ts: seq<Token>, ty: ValueType, name: string, e: Expression, rest: seq<Token>)
    requires Ended(ts) && HasName(ty) && ts[0].kind == Ident(TypeName(ty)) && Ended(ts[1..])
        && ts[1..][0].kind == Ident(name)
    requires |ts| > 2 && ts[1..][1..] == ts[2..] && Ended(ts[2..]) && ts[2..][0].kind == Symbol('=')
        && Ended(ts[2..][1..])
    requires TakeExpr(ts[2..][1..]) == Ok(Parsed(e, rest)) && Ended(rest) && rest[0].kind == Symbol(';')
        && Ended(rest[1..])
    ensures TakeStatement(ts) == Ok(Parsed(Local(ty, name, e), rest[1..]))
  {
    TypeNames(ty);
    hide TakeExpr, TypeNamed, TypeName, Ended, HasName;
  }

  lemma LeadStatement(ts: seq<Token>, e: Expression)
    requires Ended(ts) && Starts(ts, ExprKinds(e)) && PlainLead(e)
    ensures TakeStatement(ts) == TakeAssignOrExpr(ts)
  {
    ExprFirst(e);
    assert ts[0].kind == ExprKinds(e)[0];
    hide TakeRequire, TakeReturn, TakeLocal, TakeAssignOrExpr, TypeNamed;
  }

  lemma PrintedExprStatement(e: Expression, ts: seq<Token>)
    requires Ended(ts) && Starts(ts, StatementKinds(ExprStatement(e))) && PlainLead(e)
    ensures TakeStatement(ts) == Ok(Parsed(ExprStatement(e), ts[|StatementKinds(ExprStatement(e))|..]))
  {
    hide TakeExpr, TakeStatement, Starts, Ended, ExprKinds, TypeNamed, PlainLead;
    StartsSplit(ts, ExprKinds(e), [Symbol(';')]);
    LeadStatement(ts, e);
    ParseClosed(e, ts, Symbol(';'));
  }

  lemma PrintedAssign(l: Expression, r: Expression, ts: seq<Token>)
    requires Ended(ts) && Starts(ts, StatementKinds(Assign(l, r))) && PlainLead(l)
    ensures TakeStatement(ts) == Ok(Parsed(Assign(l, r), ts[|StatementKinds(Assign(l, r))|..]))
  {
    hide TakeExpr, TakeStatement, Starts, Ended, ExprKinds, TypeNamed, PlainLead;
    var right := ExprKinds(r) + [Symbol(';')];
    assert StatementKinds(Assign(l, r)) == ExprKinds(l) + ([Symbol('=')] + right);
    StartsSplit(ts, ExprKinds(l), [Symbol('=')] + right);
    LeadStatement(ts, l);
    StartsClosed(ts, l, Symbol('='), right);
    ParseClosed(r, ts[|ExprKinds(l)| + 1..], Symbol(';'));
  }

  lemma PrintedStatement(st: Statement, ts: seq<Token>)
    requires Ended(ts) && Starts(ts, StatementKinds(st)) && Writable(st)
    ensures TakeStatement(ts) == Ok(Parsed(st, ts[|StatementKinds(st)|..]))
  {
    hide TakeStatement, StatementKinds, Starts, Ended, PlainLead;
    match st
    case Local(ty, name, e) => PrintedLocal(ty, name, e, ts);
    case Assign(l, r) => PrintedAssign(l, r, ts);
    case Require(e) => PrintedRequire(e, ts);
    case Return(e) => PrintedReturn(e, ts);
    case ExprStatement(e) => PrintedExprStatement(e, ts);
  }

  lemma StatementNoEof(st: Statement)
    ensures forall i :: 0 <= i < |StatementKinds(st)| ==> StatementKinds(st)[i] != Eof
    ensures StatementKinds(st) != [] && StatementKinds(st)[0] != Symbol('}')
  {
    hide TypeName;
    match st
    case Local(_, _, e) => ExprNoEof(e);
    case Assign(l, r) => ExprNoEof(l); ExprNoEof(r); ExprFirst(l);
    case Require(e) => ExprNoEof(e);
    case Return(e) => ExprNoEof(e);
    case ExprStatement(e) => ExprNoEof(e); ExprFirst(e);
  }

  lemma {:induction false} PrintedBody(body: seq<Statement>, ts: seq<Token>)
    requires Ended(ts) && Starts(ts, BodyKinds(body)) && forall i :: 0 <= i < |body| ==> Writable(body[i])
    ensures TakeBody(ts) == Ok(Parsed(body, ts[|BodyKinds(body)|..]))
    decreases |body|
  {
    hide TakeStatement, StatementKinds, Starts, Ended, Writable;
    if body == [] {
      assert [Symbol('}')] + [] == [Symbol('}')];
      StartsOne(ts, Symbol('}'), []);
    } else {
      var ks, more := StatementKinds(body[0]), BodyKinds(body[1..]);
      StartsSplit(ts, ks, more);
      StatementNoEof(body[0]);
      EndedAfter(ts, ks);
      FirstKindIs(ts, ks);
      PrintedStatement(body[0], ts);
      PrintedBody(body[1..], ts[|ks|..]);
      assert body == [body[0]] + body[1..];
    }
  }

  lemma FirstKindIs(ts: seq<Token>, ks: seq<Kind>)
    requires Starts(ts, ks) && ks != []
    ensures ts != [] && ts[0].kind == ks[0]
  {
  }

  // ---- declarations ----

  lemma PrintedType(t: ValueType, ts: seq<Token>)
    requires Ended(ts) && HasName(t) && ts[0].kind == Ident(TypeName(t)) && Ended(ts[1..])
    ensures TakeType(ts) == Ok(Parsed(t, ts[1..]))
  {
    hide TypeName, TypeNamed;
    TypeNames(t);
  }

  predicate ParamNamed(p: Param) { HasName(p.ty) }

  lemma {:induction false} PrintedParams(params: seq<Param>, ts: seq<Token>)
    requires params != [] && Ended(ts) && Starts(ts, ParamKinds(params)) && forall i ::
        0 <= i < |params| ==> ParamNamed(params[i])
    ensures TakeParams(ts) == Ok(Parsed(params, ts[|ParamKinds(params)|..]))
    ensures ts[0].kind.Ident?
    decreases |params|
  {
    hide TakeParam, TakeType, Starts, Ended, TypeName, ParamKinds;
    ParamKindsUnfold(params);
    var tail := if |params| == 1 then [Symbol(')')] else [Symbol(',')] + ParamKinds(params[1..]);
    StartsTwo(ts, Ident(TypeName(params[0].ty)), Ident(params[0].name), tail);
    PrintedType(params[0].ty, ts);
    ParamUnfold(params[0], ts);
    if |params| == 1 {
      StartsOne(ts[2..], Symbol(')'), []);
      assert params == [params[0]];
    } else {
      StartsOne(ts[2..], Symbol(','), ParamKinds(params[1..]));
      assert ts[2..][1..] == ts[3..];
      PrintedParams(params[1..], ts[3..]);
      assert params == [params[0]] + params[1..];
    }
  }

  lemma ParamUnfold(p: Param, ts: seq<Token>)
    requires Ended(ts) && TakeType(ts) == Ok(Parsed(p.ty, ts[1..])) && |ts| > 2 && ts[1..][1..] == ts[2..]
    requires Ended(ts[1..]) && ts[1..][0].kind == Ident(p.name)
    ensures TakeParam(ts) == Ok(Parsed(p, ts[2..]))
  {
    hide TakeType;
  }

  lemma ParamKindsUnfold(params: seq<Param>)
    requires params != []
    ensures ParamKinds(params)
            == [Ident(TypeName(params[0].ty)), Ident(params[0].name)]
               + if |params| == 1 then [Symbol(')')] else [Symbol(',')] + ParamKinds(params[1..])
  {
    hide TypeName;
  }

  lemma {:induction false} ParamsNoEof(params: seq<Param>)
    requires params != []
    ensures forall i :: 0 <= i < |ParamKinds(params)| ==> ParamKinds(params)[i] != Eof
    decreases |params|
  {
    hide TypeName;
    if |params| > 1 { ParamsNoEof(params[1..]); }
  }

  lemma PrintedParamList(params: seq<Param>, ts: seq<Token>)
    requires Ended(ts) && Starts(ts, ListKinds(params)) && forall i :: 0 <= i < |params| ==> ParamNamed(params[i])
    ensures TakeParamList(ts) == Ok(Parsed(params, ts[|ListKinds(params)|..])) && Ended(ts[|ListKinds(params)|..])
  {
    hide TakeParams, Starts, Ended, ParamKinds, ParamNamed;
    if params == [] {
      assert [Symbol(')')] + [] == [Symbol(')')];
      StartsOne(ts, Symbol(')'), []);
    } else {
      PrintedParams(params, ts);
      ParamsNoEof(params);
      EndedAfter(ts, ParamKinds(params));
    }
  }

  predicate FunctionWritable(f: Function) {
    (forall i :: 0 <= i < |f.params| ==> ParamNamed(f.params[i])) && forall i ::
        0 <= i < |f.body| ==> Writable(f.body[i])
  }

  lemma PrintedFunction(f: Function, ts: seq<Token>)
    requires Ended(ts) && Starts(ts, FunctionKinds(f)) && FunctionWritable(f)
    ensures TakeFunction(ts) == Ok(Parsed(f, ts[|FunctionKinds(f)|..]))
  {
    hide TakeFunction, TakeParamList, TakeBody, Starts, Ended, ListKinds, BodyKinds, ParamNamed, Writable;
    var ps, body := ListKinds(f.params), BodyKinds(f.body);
    StartsTwo(ts, Ident(f.name), Symbol('('), ps + ([Ident("public"), Symbol('{')] + body));
    StartsSplit(ts[2..], ps, [Ident("public"), Symbol('{')] + body);
    PrintedParamList(f.params, ts[2..]);
    var us := ts[2..][|ps|..];
    StartsTwo(us, Ident("public"), Symbol('{'), body);
    PrintedBody(f.body, us[2..]);
    FunctionUnfold(f, ts, us, ts[|FunctionKinds(f)|..]);
  }

  lemma FunctionUnfold(f: Function, ts: seq<Token>, us: seq<Token>, rest: seq<Token>)
    requires Ended(ts) && ts[0].kind == Ident(f.name) && Ended(ts[1..]) && ts[1..][0].kind == Symbol('(')
    requires |ts| > 2 && ts[1..][1..] == ts[2..] && Ended(ts[2..]) && TakeParamList(ts[2..]) == Ok(Parsed(f.params, us))
    requires Ended(us) && us[0].kind == Ident("public") && Ended(us[1..]) && us[1..][0].kind == Symbol('{')
    requires |us| > 2 && us[1..][1..] == us[2..] && Ended(us[2..]) && TakeBody(us[2..]) == Ok(Parsed(f.body, rest))
    ensures TakeFunction(ts) == Ok(Parsed(f, rest))
  {
    hide TakeParamList, TakeBody, Ended;
  }

  predicate StateWritable(d: StateDecl) { HasName(d.ty) && (d.keyTy.Some? ==> HasName(d.keyTy.value)) }

  lemma PrintedKey(k: Option<ValueType>, ts: seq<Token>, ks: seq<Kind>)
    requires Ended(ts) && Starts(ts, KeyKinds(k) + ([Symbol(';')] + ks)) && (k.Some? ==> HasName(k.value))
    ensures TakeKey(ts) == Ok(Parsed(k, ts[|KeyKinds(k)|..])) && Ended(ts[|KeyKinds(k)|..])
        && Starts(ts[|KeyKinds(k)|..], [Symbol(';')] + ks)
  {
    hide TakeType, Starts, Ended, TypeName;
    var tail := [Symbol(';')] + ks;
    if k.Some? {
      assert KeyKinds(k) + tail == [Symbol('['), Ident(TypeName(k.value))] + ([Symbol(']')] + tail);
      StartsTwo(ts, Symbol('['), Ident(TypeName(k.value)), [Symbol(']')] + tail);
      assert ts[1..][1..] == ts[2..];
      PrintedType(k.value, ts[1..]);
      StartsOne(ts[2..], Symbol(']'), tail);
    } else {
      assert KeyKinds(k) + tail == tail && ts[0..] == ts;
      StartsOne(ts, Symbol(';'), ks);
    }
  }

  lemma PrintedState(d: StateDecl, ts: seq<Token>)
    requires Ended(ts) && Starts(ts, StateKinds(d)) && StateWritable(d)
    ensures TakeState(ts) == Ok(Parsed(d, ts[|StateKinds(d)|..]))
  {
    hide TakeType, TakeKey, Starts, Ended, TypeName, KeyKinds;
    var tail := KeyKinds(d.keyTy) + [Symbol(';')];
    assert [Symbol(';')] + [] == [Symbol(';')];
    StartsTwo(ts, Ident(TypeName(d.ty)), Ident(d.name), tail);
    PrintedType(d.ty, ts);
    PrintedKey(d.keyTy, ts[2..], []);
    StartsOne(ts[2..][|KeyKinds(d.keyTy)|..], Symbol(';'), []);
  }

  lemma {:induction false} BodyNoEof(body: seq<Statement>)
    ensures forall i :: 0 <= i < |BodyKinds(body)| ==> BodyKinds(body)[i] != Eof
    decreases |body|
  {
    hide StatementKinds;
    if body != [] {
      StatementNoEof(body[0]);
      BodyNoEof(body[1..]);
    }
  }

  lemma FunctionNoEof(f: Function)
    ensures forall i :: 0 <= i < |FunctionKinds(f)| ==> FunctionKinds(f)[i] != Eof
  {
    hide BodyKinds, ParamKinds;
    BodyNoEof(f.body);
    if f.params != [] { ParamsNoEof(f.params); }
  }

  lemma StateNoEof(d: StateDecl)
    ensures forall i :: 0 <= i < |StateKinds(d)| ==> StateKinds(d)[i] != Eof
  {
    hide TypeName;
  }

  lemma {:induction false} PrintedMembers(states: seq<StateDecl>, functions: seq<Function>, ts: seq<Token>)
    requires Ended(ts) && Starts(ts, MemberKinds(states, functions))
    requires (forall i :: 0 <= i < |states| ==> StateWritable(states[i])) && forall i ::
        0 <= i < |functions| ==> FunctionWritable(functions[i])
    ensures TakeMembers(ts) == Ok(Parsed(Members(states, functions), ts[|MemberKinds(states, functions)|..]))
    decreases |states| + |functions|
  {
    hide TakeMembers, TakeState, TakeFunction, Starts, Ended, StateKinds, FunctionKinds, StateWritable;
    hide FunctionWritable, MemberKinds;
    MemberKindsUnfold(states, functions);
    if states != [] {
      var ks, more := StateKinds(states[0]), MemberKinds(states[1..], functions);
      StartsOne(ts, Ident("private"), ks + more);
      StartsSplit(ts[1..], ks, more);
      PrintedState(states[0], ts[1..]);
      StateNoEof(states[0]);
      EndedAfter(ts[1..], ks);
      var us := ts[1..][|ks|..];
      PrintedMembers(states[1..], functions, us);
      MembersPrivate(ts, states[0], us, Members(states[1..], functions), us[|more|..]);
      assert states == [states[0]] + states[1..];
    } else if functions != [] {
      var ks, more := FunctionKinds(functions[0]), MemberKinds(states, functions[1..]);
      StartsOne(ts, Ident("function"), ks + more);
      StartsSplit(ts[1..], ks, more);
      PrintedFunction(functions[0], ts[1..]);
      FunctionNoEof(functions[0]);
      EndedAfter(ts[1..], ks);
      var us := ts[1..][|ks|..];
      PrintedMembers(states, functions[1..], us);
      MembersFunction(ts, functions[0], us, Members(states, functions[1..]), us[|more|..]);
      assert functions == [functions[0]] + functions[1..];
    } else {
      assert [Symbol('}')] + [] == [Symbol('}')];
      StartsOne(ts, Symbol('}'), []);
      MembersEnd(ts);
    }
  }

  lemma MembersPrivate(ts: seq<Token>, d: StateDecl, rest: seq<Token>, more: Members, after: seq<Token>)
    requires Ended(ts) && ts[0].kind == Ident("private") && Ended(ts[1..])
    requires TakeState(ts[1..]) == Ok(Parsed(d, rest)) && Ended(rest) && TakeMembers(rest) == Ok(Parsed(more, after))
    ensures TakeMembers(ts) == Ok(Parsed(Members([d] + more.states, more.functions), after))
  {
    hide TakeState, TakeFunction;
  }

  lemma MembersFunction(ts: seq<Token>, f: Function, rest: seq<Token>, more: Members, after: seq<Token>)
    requires Ended(ts) && ts[0].kind == Ident("function") && Ended(ts[1..])
    requires TakeFunction(ts[1..]) == Ok(Parsed(f, rest)) && Ended(rest) && TakeMembers(rest) == Ok(Parsed(more, after))
    ensures TakeMembers(ts) == Ok(Parsed(Members(more.states, [f] + more.functions), after))
  {
    hide TakeState, TakeFunction;
    NotPrivate();
  }

  lemma MembersEnd(ts: seq<Token>)
    requires Ended(ts) && ts[0].kind == Symbol('}')
    ensures TakeMembers(ts) == Ok(Parsed(Members([], []), ts[1..]))
  {
    hide TakeState, TakeFunction;
  }

  lemma MemberKindsUnfold(states: seq<StateDecl>, functions: seq<Function>)
    ensures MemberKinds(states, functions)
            == if states != [] then [Ident("private")] + (StateKinds(states[0]) + MemberKinds(states[1..], functions))
               else if functions != []
                   then [Ident("function")] + (FunctionKinds(functions[0]) + MemberKinds(states, functions[1..]))
               else [Symbol('}')]
  {
    hide StateKinds, FunctionKinds;
  }

  lemma NotPrivate()
    ensures "function" != "private"
  {
  }

  predicate ProgramWritable(p: Program) {
    (forall i :: 0 <= i < |p.states| ==> StateWritable(p.states[i])) && forall i ::
        0 <= i < |p.functions| ==> FunctionWritable(p.functions[i])
  }

  // Parsing the tokens of a printed program gives the program.
  lemma PrintedProgram(p: Program, ts: seq<Token>)
    requires Ended(ts) && ProgramWritable(p) && |ts| == |ProgramKinds(p)| + 1 && Starts(ts, ProgramKinds(p))
    ensures ParseTokens(ts) == Ok(p)
  {
    hide TakeMembers, Starts, StateWritable, FunctionWritable, MemberKinds;
    var members := MemberKinds(p.states, p.functions);
    StartsTwo(ts, Ident("privacy"), Ident("contract"), [Ident(p.name), Symbol('{')] + members);
    StartsTwo(ts[2..], Ident(p.name), Symbol('{'), members);
    PrintedMembers(p.states, p.functions, ts[2..][2..]);
    assert ts[2..][2..][|members|..] == [ts[|ts| - 1]];
  }

  // ---- the text ----

  predicate ExprSpelled(e: Expression) {
    match e
    case Name(x) => IdentText(x)
    case Number(d) => NumberText(d)
    case Index(s, k) => IdentText(s) && ExprSpelled(k)
    case Call(f, args) => IdentText(f) && forall i :: 0 <= i < |args| ==> ExprSpelled(args[i])
  }

  predicate StatementSpelled(st: Statement) {
    match st
    case Local(_, name, e) => IdentText(name) && ExprSpelled(e)
    case Assign(l, r) => ExprSpelled(l) && ExprSpelled(r)
    case Require(e) => ExprSpelled(e)
    case Return(e) => ExprSpelled(e)
    case ExprStatement(e) => ExprSpelled(e)
  }

  predicate FunctionSpelled(f: Function) {
    && IdentText(f.name) && (forall i :: 0 <= i < |f.params| ==> IdentText(f.params[i].name))
    && forall i :: 0 <= i < |f.body| ==> StatementSpelled(f.body[i])
  }

  // Names are identifiers and numbers are digits.
  predicate ProgramSpelled(p: Program) {
    && IdentText(p.name) && (forall i :: 0 <= i < |p.states| ==> IdentText(p.states[i].name))
    && forall i :: 0 <= i < |p.functions| ==> FunctionSpelled(p.functions[i])
  }

  ghost predicate AllSpell(ks: seq<Kind>) { forall i :: 0 <= i < |ks| ==> Spellable(ks[i]) }

  lemma SpellJoin(a: seq<Kind>, b: seq<Kind>)
    requires AllSpell(a) && AllSpell(b)
    ensures AllSpell(a + b)
  {
  }

  // The fixed words and symbols of the language.
  lemma FixedSpell(t: ValueType)
    ensures Spellable(Ident(TypeName(t))) && Spellable(Ident("require")) && Spellable(Ident("return"))
        && Spellable(Ident("public"))
    ensures Spellable(Ident("private")) && Spellable(Ident("function")) && Spellable(Ident("privacy"))
        && Spellable(Ident("contract"))
  {
    TypeSpells(t);
    WordsSpell();
    MoreWordsSpell();
    hide TypeName, IdentText;
  }

  lemma TypeSpells(t: ValueType)
    ensures IdentText(TypeName(t))
  {
    match t
    case Address =>
    case Uint =>
    case FheUint =>
    case Sint =>
    case SecretBool =>
    case _ =>
  }

  lemma WordsSpell()
    ensures IdentText("require") && IdentText("return") && IdentText("public") && IdentText("private")
  {
  }

  lemma MoreWordsSpell()
    ensures IdentText("function") && IdentText("privacy") && IdentText("contract")
  {
  }

  lemma SymbolSpells(c: char)
    requires c in "()[]{},;="
    ensures Spellable(Symbol(c))
  {
  }

  lemma {:induction false} ExprSpells(e: Expression)
    requires ExprSpelled(e)
    ensures AllSpell(ExprKinds(e))
    decreases e
  {
    hide IdentText, NumberText, IsSymbol, Spellable;
    SymbolSpells('(');
    SymbolSpells(')');
    SymbolSpells('[');
    SymbolSpells(']');
    match e
    case Name(x) => NameSpells(x);
    case Number(d) => DigitsSpell(d);
    case Index(s, k) =>
      NameSpells(s);
      ExprSpells(k);
    case Call(f, args) =>
      NameSpells(f);
      if args != [] { ArgsSpell(args); }
  }

  lemma DigitsSpell(d: string)
    requires NumberText(d)
    ensures Spellable(NumberToken(d))
  {
  }

  lemma {:induction false} ArgsSpell(args: seq<Expression>)
    requires args != [] && forall i :: 0 <= i < |args| ==> ExprSpelled(args[i])
    ensures AllSpell(ArgKinds(args))
    decreases args
  {
    hide IdentText, NumberText, IsSymbol, ExprSpelled;
    SymbolSpells(')');
    SymbolSpells(',');
    ExprSpells(args[0]);
    if |args| > 1 { ArgsSpell(args[1..]); }
  }

  lemma NameSpells(x: string)
    requires IdentText(x)
    ensures Spellable(Ident(x))
  {
  }

  lemma StatementSpells(st: Statement)
    requires StatementSpelled(st)
    ensures AllSpell(StatementKinds(st))
  {
    hide IdentText, NumberText, IsSymbol, ExprSpelled, TypeName, ExprKinds, Spellable;
    SymbolSpells('(');
    SymbolSpells(')');
    SymbolSpells('=');
    SymbolSpells(';');
    FixedSpell(Uint);
    match st
    case Local(ty, name, e) => LocalSpells(ty, name, e);
    case Assign(l, r) => ExprSpells(l); ExprSpells(r);
    case Require(e) => ExprSpells(e);
    case Return(e) => ExprSpells(e);
    case ExprStatement(e) => ExprSpells(e);
  }

  lemma LocalSpells(ty: ValueType, name: string, e: Expression)
    requires IdentText(name) && ExprSpelled(e)
    ensures AllSpell(StatementKinds(Local(ty, name, e)))
  {
    hide IdentText, IsSymbol, ExprSpelled, TypeName, ExprKinds, Spellable, AllSpell;
    SymbolSpells('=');
    SymbolSpells(';');
    FixedSpell(ty);
    NameSpells(name);
    ExprSpells(e);
    SpellOne(Symbol('='));
    SpellOne(Symbol(';'));
    SpellOne(Ident(TypeName(ty)));
    SpellOne(Ident(name));
    SpellJoin([Ident(TypeName(ty))], [Ident(name)]);
    assert [Ident(TypeName(ty))] + [Ident(name)] == [Ident(TypeName(ty)), Ident(name)];
    SpellJoin(ExprKinds(e), [Symbol(';')]);
    SpellJoin([Symbol('=')], ExprKinds(e) + [Symbol(';')]);
    SpellJoin([Ident(TypeName(ty)), Ident(name)], [Symbol('=')] + (ExprKinds(e) + [Symbol(';')]));
  }

  lemma SpellOne(k: Kind)
    requires Spellable(k)
    ensures AllSpell([k])
  {
  }

  lemma {:induction false} BodySpells(body: seq<Statement>)
    requires forall i :: 0 <= i < |body| ==> StatementSpelled(body[i])
    ensures AllSpell(BodyKinds(body))
    decreases |body|
  {
    hide StatementKinds, StatementSpelled, IsSymbol;
    SymbolSpells('}');
    if body != [] {
      StatementSpells(body[0]);
      BodySpells(body[1..]);
    }
  }

  lemma {:induction false} ParamsSpell(params: seq<Param>)
    requires params != [] && forall i :: 0 <= i < |params| ==> IdentText(params[i].name)
    ensures AllSpell(ParamKinds(params))
    decreases |params|
  {
    hide IdentText, IsSymbol, TypeName;
    SymbolSpells(')');
    SymbolSpells(',');
    FixedSpell(params[0].ty);
    if |params| > 1 { ParamsSpell(params[1..]); }
  }

  lemma FunctionSpells(f: Function)
    requires FunctionSpelled(f)
    ensures AllSpell(FunctionKinds(f))
  {
    hide IdentText, IsSymbol, BodyKinds, ParamKinds, StatementSpelled;
    assert Spellable(Ident(f.name));
    hide Spellable;
    SymbolSpells('(');
    SymbolSpells(')');
    SymbolSpells('{');
    FixedSpell(Uint);
    BodySpells(f.body);
    if f.params != [] { ParamsSpell(f.params); }
  }

  lemma StateSpells(d: StateDecl)
    requires IdentText(d.name)
    ensures AllSpell(StateKinds(d))
  {
    hide IdentText, IsSymbol, TypeName;
    SymbolSpells('[');
    SymbolSpells(']');
    SymbolSpells(';');
    FixedSpell(d.ty);
    if d.keyTy.Some? { FixedSpell(d.keyTy.value); }
  }

  lemma {:induction false} MembersSpell(states: seq<StateDecl>, functions: seq<Function>)
    requires (forall i :: 0 <= i < |states| ==> IdentText(states[i].name)) && forall i ::
        0 <= i < |functions| ==> FunctionSpelled(functions[i])
    ensures AllSpell(MemberKinds(states, functions))
    decreases |states| + |functions|
  {
    hide StateKinds, FunctionKinds, FunctionSpelled, IsSymbol, IdentText;
    SymbolSpells('}');
    FixedSpell(Uint);
    if states != [] {
      StateSpells(states[0]);
      MembersSpell(states[1..], functions);
    } else if functions != [] {
      FunctionSpells(functions[0]);
      MembersSpell(states, functions[1..]);
    }
  }

  lemma ProgramSpells(p: Program)
    requires ProgramSpelled(p)
    ensures AllSpell(ProgramKinds(p))
  {
    hide MemberKinds, IsSymbol, IdentText, FunctionSpelled;
    MembersSpell(p.states, p.functions);
    FixedSpell(Uint);
    SymbolSpells('{');
  }

  // Parsing undoes printing: for every program whose names and numbers are spelled as tokens,
  // whose types have source names and whose plain statements do not begin like another form.
  lemma ParsePrinted(p: Program)
    requires ProgramSpelled(p) && ProgramWritable(p)
    ensures Parse(Print(p)) == Ok(p)
  {
    hide ProgramKinds, ProgramSpelled, ProgramWritable, ParseTokens, Spellable;
    var ks := ProgramKinds(p);
    ProgramSpells(p);
    LexSpelled(ks, 0);
    PrintedProgram(p, Placed(ks, 0));
  }

  // Layout does not matter: with any spacing of the same tokens the source parses to the program.
  lemma ParseSpaced(p: Program, gaps: seq<string>)
    requires ProgramSpelled(p) && ProgramWritable(p) && Spacing(ProgramKinds(p), gaps)
    ensures Parse(Spaced(ProgramKinds(p), gaps)) == Ok(p)
  {
    hide ProgramKinds, ProgramSpelled, ProgramWritable, ParseTokens, Spellable, Spacing;
    var ks := ProgramKinds(p);
    ProgramSpells(p);
    LexSpaced(ks, gaps, 0);
    SpacingCount(ks, gaps);
    PrintedProgram(p, PlacedAmong(ks, gaps, 0));
  }

  lemma SpacingCount(ks: seq<Kind>, gaps: seq<string>)
    requires Spacing(ks, gaps)
    ensures |gaps| == |ks| + 1
  {
  }
}
