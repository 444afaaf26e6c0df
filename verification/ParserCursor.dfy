/** The parser as it is written: one cursor over the token list, moved in place. Every method
    terminates and leaves the cursor on a token, so the end marker is never passed. */
module ParserCursor {
  import opened Wrappers
  import opened Language
  import opened Lexer
  import opened Parser

  // A value already built in front of the rest of a list being parsed.
  function Before<T>(init: seq<T>, r: P<seq<T>>): (j: P<seq<T>>) {
    match r
    case Ok(p) => Ok(Parsed(init + p.value, p.rest))
    case Err(e) => Err(e)
  }

  function BeforeMembers(init: Members, r: P<Members>): (j: P<Members>) {
    match r
    case Ok(p) => Ok(Parsed(Members(init.states + p.value.states, init.functions + p.value.functions), p.rest))
    case Err(e) => Err(e)
  }

  lemma BeforeSnoc<T>(init: seq<T>, x: T, r: P<seq<T>>)
    ensures Before(init + [x], r) == Before(init, Before([x], r))
    ensures Before(init, r).Ok? <==> r.Ok?
  {
    if r.Ok? { assert (init + [x]) + r.value.value == init + ([x] + r.value.value); }
  }

  lemma BeforeNothing<T>(r: P<seq<T>>)
    ensures Before([], r) == r
  {
    if r.Ok? { assert [] + r.value.value == r.value.value; }
  }

  // What a method reports about the function it implements.
  ghost predicate Agrees<T>(p: P<T>, r: Result<T, SyntaxError>, rest: seq<Token>) {
    match p
    case Err(e) => r == Err(e)
    case Ok(v) => r == Ok(v.value) && rest == v.rest
  }

  class TokenParser {
    const tokens: seq<Token>
    var cursor: nat

    ghost predicate Valid()
      reads this
    {
      Ended(tokens) && cursor < |tokens|
    }

    ghost function Rest(): (ts: seq<Token>)
      requires Valid()
      reads this
      ensures Ended(ts) && |ts| == |tokens| - cursor && ts[0] == tokens[cursor]
    {
      tokens[cursor..]
    }

    constructor (tokens: seq<Token>)
      requires Ended(tokens)
      ensures Valid() && this.tokens == tokens && cursor == 0 && Rest() == tokens
    {
      this.tokens, cursor := tokens, 0;
    }

    method Advance()
      requires Valid() && tokens[cursor].kind != Eof
      modifies this`cursor
      ensures Valid() && cursor == old(cursor) + 1 && Rest() == old(Rest())[1..]
    {
      cursor := cursor + 1;
    }

    method FailHere<T>(f: SyntaxFault) returns (r: Result<T, SyntaxError>)
      requires Valid()
      ensures r == Err(SyntaxError(f, Rest()[0].offset))
    {
      return Err(SyntaxError(f, tokens[cursor].offset));
    }

    method ConsumeSymbol(c: char) returns (found: bool)
      requires Valid()
      modifies this`cursor
      ensures Valid() && found == (old(Rest())[0].kind == Symbol(c))
      ensures Rest() == if found then old(Rest())[1..] else old(Rest())
    {
      found := tokens[cursor].kind == Symbol(c);
      if found { Advance(); }
    }

    method ConsumeKeyword(word: string) returns (found: bool)
      requires Valid()
      modifies this`cursor
      ensures Valid() && found == (old(Rest())[0].kind == Ident(word))
      ensures Rest() == if found then old(Rest())[1..] else old(Rest())
    {
      found := tokens[cursor].kind == Ident(word);
      if found { Advance(); }
    }

    method SymbolNext(c: char) returns (r: Result<(), SyntaxError>)
      requires Valid()
      modifies this`cursor
      ensures Valid() && cursor >= old(cursor) && Agrees(TakeSymbol(old(Rest()), c), r, Rest())
    {
      var found := ConsumeSymbol(c);
      if found { return Ok(()); }
      r := FailHere(ExpectedSymbol(c));
    }

    method Keyword(word: string) returns (r: Result<(), SyntaxError>)
      requires Valid()
      modifies this`cursor
      ensures Valid() && cursor >= old(cursor) && Agrees(TakeKeyword(old(Rest()), word), r, Rest())
    {
      var found := ConsumeKeyword(word);
      if found { return Ok(()); }
      r := FailHere(ExpectedKeyword(word));
    }

    method IdentNext() returns (r: Result<string, SyntaxError>)
      requires Valid()
      modifies this`cursor
      ensures Valid() && cursor >= old(cursor) && Agrees(TakeIdent(old(Rest())), r, Rest())
    {
      match tokens[cursor].kind
      case Ident(s) => Advance(); return Ok(s);
      case _ => r := FailHere(ExpectedIdentifier);
    }

    method ValueTypeNext() returns (r: Result<ValueType, SyntaxError>)
      requires Valid()
      modifies this`cursor
      ensures Valid() && cursor >= old(cursor) && Agrees(TakeType(old(Rest())), r, Rest())
    {
      hide TypeNamed;
      var offset := tokens[cursor].offset;
      var name := IdentNext();
      if name.Err? { return Err(name.error); }
      match TypeNamed(name.value)
      case Some(t) => return Ok(t);
      case None => return Err(SyntaxError(UnknownType(name.value), offset));
    }

    method Expr() returns (r: Result<Expression, SyntaxError>)
      requires Valid()
      modifies this`cursor
      ensures Valid() && cursor >= old(cursor) && Agrees(TakeExpr(old(Rest())), r, Rest())
      decreases |tokens| - cursor, 1
    {
      hide TakeArgs, TakeSymbol, Ended;
      match tokens[cursor].kind
      case NumberToken(d) => Advance(); return Ok(Number(d));
      case Ident(name) => r := NameExpr();
      case _ => r := FailHere(ExpectedExpression);
    }

    // An expression that starts with a name.
    method NameExpr() returns (r: Result<Expression, SyntaxError>)
      requires Valid() && tokens[cursor].kind.Ident?
      modifies this`cursor
      ensures Valid() && cursor >= old(cursor) && Agrees(TakeExpr(old(Rest())), r, Rest())
      decreases |tokens| - cursor, 0
    {
      hide TakeArgs, TakeSymbol, Ended;
      var name := tokens[cursor].kind.name;
      Advance();
      var call := ConsumeSymbol('(');
      if call {
        var empty := ConsumeSymbol(')');
        if empty { return Ok(Call(name, [])); }
        var args := Args();
        if args.Err? { return Err(args.error); }
        return Ok(Call(name, args.value));
      }
      var index := ConsumeSymbol('[');
      if !index { return Ok(Name(name)); }
      var key := Expr();
      if key.Err? { return Err(key.error); }
      var close := SymbolNext(']');
      if close.Err? { return Err(close.error); }
      return Ok(Index(name, key.value));
    }

    method Args() returns (r: Result<seq<Expression>, SyntaxError>)
      requires Valid()
      modifies this`cursor
      ensures Valid() && cursor >= old(cursor) && Agrees(TakeArgs(old(Rest())), r, Rest())
      decreases |tokens| - cursor, 2
    {
      hide TakeExpr;
      var args: seq<Expression> := [];
      ghost var whole := TakeArgs(Rest());
      BeforeNothing(whole);
      while true
        invariant Valid() && cursor >= old(cursor)
        invariant Before(args, TakeArgs(Rest())) == whole
        decreases |tokens| - cursor
      {
        ArgsStep(args, Rest());
        var e := Expr();
        if e.Err? { return Err(e.error); }
        args := args + [e.value];
        var last := ConsumeSymbol(')');
        if last { return Ok(args); }
        var comma := SymbolNext(',');
        if comma.Err? { return Err(comma.error); }
      }
    }

    method RequireNext() returns (r: Result<Statement, SyntaxError>)
      requires Valid()
      modifies this`cursor
      ensures Valid() && cursor >= old(cursor) && Agrees(TakeRequire(old(Rest())), r, Rest())
    {
      hide TakeExpr, TakeSymbol, Ended;
      var o := SymbolNext('(');
      if o.Err? { return Err(o.error); }
      var e := Expr();
      if e.Err? { return Err(e.error); }
      var c := SymbolNext(')');
      if c.Err? { return Err(c.error); }
      var s := SymbolNext(';');
      if s.Err? { return Err(s.error); }
      return Ok(Require(e.value));
    }

    method ReturnNext() returns (r: Result<Statement, SyntaxError>)
      requires Valid()
      modifies this`cursor
      ensures Valid() && cursor >= old(cursor) && Agrees(TakeReturn(old(Rest())), r, Rest())
    {
      hide TakeExpr, TakeSymbol, Ended;
      var e := Expr();
      if e.Err? { return Err(e.error); }
      var s := SymbolNext(';');
      if s.Err? { return Err(s.error); }
      return Ok(Return(e.value));
    }

    method LocalNext(ty: ValueType) returns (r: Result<Statement, SyntaxError>)
      requires Valid()
      modifies this`cursor
      ensures Valid() && cursor >= old(cursor) && Agrees(TakeLocal(old(Rest()), ty), r, Rest())
    {
      hide TakeExpr, TakeSymbol, TakeIdent, Ended;
      var name := IdentNext();
      if name.Err? { return Err(name.error); }
      var eq := SymbolNext('=');
      if eq.Err? { return Err(eq.error); }
      var e := Expr();
      if e.Err? { return Err(e.error); }
      var s := SymbolNext(';');
      if s.Err? { return Err(s.error); }
      return Ok(Local(ty, name.value, e.value));
    }

    method AssignOrExpr() returns (r: Result<Statement, SyntaxError>)
      requires Valid()
      modifies this`cursor
      ensures Valid() && cursor >= old(cursor) && Agrees(TakeAssignOrExpr(old(Rest())), r, Rest())
    {
      hide TakeExpr, TakeSymbol, Ended;
      var left := Expr();
      if left.Err? { return Err(left.error); }
      var assigns := ConsumeSymbol('=');
      if assigns {
        var right := Expr();
        if right.Err? { return Err(right.error); }
        var s := SymbolNext(';');
        if s.Err? { return Err(s.error); }
        return Ok(Assign(left.value, right.value));
      }
      var s := SymbolNext(';');
      if s.Err? { return Err(s.error); }
      return Ok(ExprStatement(left.value));
    }

    method StatementNext() returns (r: Result<Statement, SyntaxError>)
      requires Valid()
      modifies this`cursor
      ensures Valid() && cursor >= old(cursor) && Agrees(TakeStatement(old(Rest())), r, Rest())
    {
      hide TakeRequire, TakeReturn, TakeLocal, TakeAssignOrExpr, TypeNamed, Ended;
      var isRequire := ConsumeKeyword("require");
      if isRequire { r := RequireNext(); return; }
      var isReturn := ConsumeKeyword("return");
      if isReturn { r := ReturnNext(); return; }
      if tokens[cursor].kind.Ident? {
        var ty := TypeNamed(tokens[cursor].kind.name);
        if ty.Some? {
          Advance();
          r := LocalNext(ty.value);
          return;
        }
      }
      r := AssignOrExpr();
    }

    method Body() returns (r: Result<seq<Statement>, SyntaxError>)
      requires Valid()
      modifies this`cursor
      ensures Valid() && cursor >= old(cursor) && Agrees(TakeBody(old(Rest())), r, Rest())
    {
      hide TakeStatement;
      var body: seq<Statement> := [];
      ghost var whole := TakeBody(Rest());
      BeforeNothing(whole);
      while true
        invariant Valid() && cursor >= old(cursor)
        invariant Before(body, TakeBody(Rest())) == whole
        decreases |tokens| - cursor
      {
        BodyStep(body, Rest());
        var done := ConsumeSymbol('}');
        if done { return Ok(body); }
        var st := StatementNext();
        if st.Err? { return Err(st.error); }
        body := body + [st.value];
      }
    }

    method ParamNext() returns (r: Result<Param, SyntaxError>)
      requires Valid()
      modifies this`cursor
      ensures Valid() && cursor >= old(cursor) && Agrees(TakeParam(old(Rest())), r, Rest())
    {
      hide TakeType, TakeIdent, Ended;
      var ty := ValueTypeNext();
      if ty.Err? { return Err(ty.error); }
      var name := IdentNext();
      if name.Err? { return Err(name.error); }
      return Ok(Param(name.value, ty.value));
    }

    method Params() returns (r: Result<seq<Param>, SyntaxError>)
      requires Valid()
      modifies this`cursor
      ensures Valid() && cursor >= old(cursor) && Agrees(TakeParamList(old(Rest())), r, Rest())
    {
      hide TakeParam;
      var none := ConsumeSymbol(')');
      if none { return Ok([]); }
      var params: seq<Param> := [];
      ghost var whole := TakeParams(Rest());
      BeforeNothing(whole);
      while true
        invariant Valid() && cursor >= old(cursor)
        invariant Before(params, TakeParams(Rest())) == whole
        decreases |tokens| - cursor
      {
        ParamsStep(params, Rest());
        var p := ParamNext();
        if p.Err? { return Err(p.error); }
        params := params + [p.value];
        var last := ConsumeSymbol(')');
        if last { return Ok(params); }
        var comma := SymbolNext(',');
        if comma.Err? { return Err(comma.error); }
      }
    }

    method FunctionNext() returns (r: Result<Function, SyntaxError>)
      requires Valid()
      modifies this`cursor
      ensures Valid() && cursor >= old(cursor) && Agrees(TakeFunction(old(Rest())), r, Rest())
    {
      hide TakeIdent, TakeSymbol, TakeKeyword, TakeParamList, TakeBody, Ended;
      var name := IdentNext();
      if name.Err? { return Err(name.error); }
      var o := SymbolNext('(');
      if o.Err? { return Err(o.error); }
      var params := Params();
      if params.Err? { return Err(params.error); }
      var public := Keyword("public");
      if public.Err? { return Err(public.error); }
      var brace := SymbolNext('{');
      if brace.Err? { return Err(brace.error); }
      var body := Body();
      if body.Err? { return Err(body.error); }
      return Ok(Function(name.value, params.value, body.value));
    }

    method StateNext() returns (r: Result<StateDecl, SyntaxError>)
      requires Valid()
      modifies this`cursor
      ensures Valid() && cursor >= old(cursor) && Agrees(TakeState(old(Rest())), r, Rest())
    {
      hide TakeType, TakeIdent, TakeSymbol, Ended;
      var ty := ValueTypeNext();
      if ty.Err? { return Err(ty.error); }
      var name := IdentNext();
      if name.Err? { return Err(name.error); }
      var keyTy: Option<ValueType> := None;
      var mapped := ConsumeSymbol('[');
      if mapped {
        var key := ValueTypeNext();
        if key.Err? { return Err(key.error); }
        var close := SymbolNext(']');
        if close.Err? { return Err(close.error); }
        keyTy := Some(key.value);
      }
      var s := SymbolNext(';');
      if s.Err? { return Err(s.error); }
      return Ok(StateDecl(name.value, ty.value, keyTy));
    }

    method MembersNext() returns (r: Result<Members, SyntaxError>)
      requires Valid()
      modifies this`cursor
      ensures Valid() && cursor >= old(cursor) && Agrees(TakeMembers(old(Rest())), r, Rest())
    {
      hide TakeState, TakeFunction;
      var states, functions := [], [];
      ghost var whole := TakeMembers(Rest());
      if whole.Ok? { assert [] + whole.value.value.states == whole.value.value.states
          && [] + whole.value.value.functions == whole.value.value.functions; }
      while true
        invariant Valid() && cursor >= old(cursor)
        invariant BeforeMembers(Members(states, functions), TakeMembers(Rest())) == whole
        decreases |tokens| - cursor
      {
        MembersStep(Members(states, functions), Rest());
        var done := ConsumeSymbol('}');
        if done { return Ok(Members(states, functions)); }
        var isPrivate := ConsumeKeyword("private");
        if isPrivate {
          var d := StateNext();
          if d.Err? { return Err(d.error); }
          states := states + [d.value];
        } else {
          var isFunction := ConsumeKeyword("function");
          if !isFunction { r := FailHere(ExpectedMember); return; }
          var f := FunctionNext();
          if f.Err? { return Err(f.error); }
          functions := functions + [f.value];
        }
      }
    }

    method ParseAll() returns (r: Result<Program, SyntaxError>)
      requires Valid() && cursor == 0
      modifies this`cursor
      ensures Valid() && r == ParseTokens(tokens)
    {
      hide TakeIdent, TakeSymbol, TakeKeyword, TakeMembers, Ended;
      assert Rest() == tokens;
      var privacy := Keyword("privacy");
      if privacy.Err? { return Err(privacy.error); }
      var contract := Keyword("contract");
      if contract.Err? { return Err(contract.error); }
      var name := IdentNext();
      if name.Err? { return Err(name.error); }
      var brace := SymbolNext('{');
      if brace.Err? { return Err(brace.error); }
      var members := MembersNext();
      if members.Err? { return Err(members.error); }
      if tokens[cursor].kind != Eof { r := FailHere(UnexpectedInput); return; }
      return Ok(Program(name.value, members.value.states, members.value.functions));
    }
  }

  method ParseSource(source: string) returns (r: Result<Program, SyntaxError>)
    ensures r == Parse(source)
  {
    var tokens := LexLoop(source);
    if tokens.Err? { return Err(tokens.error); }
    var parser := new TokenParser(tokens.value);
    r := parser.ParseAll();
  }

  // One turn of the statement loop.
  lemma BodyStep(body: seq<Statement>, ts: seq<Token>)
    requires Ended(ts)
    ensures if ts[0].kind == Symbol('}') then Before(body, TakeBody(ts)) == Ok(Parsed(body, ts[1..]))
            else
              match TakeStatement(ts)
              case Err(x) => Before(body, TakeBody(ts)) == Err(x)
              case Ok(p) => Before(body, TakeBody(ts)) == Before(body + [p.value], TakeBody(p.rest))
  {
    hide TakeStatement;
    var st := TakeStatement(ts);
    if ts[0].kind == Symbol('}') {
      assert body + [] == body;
    } else if st.Ok? {
      BeforeSnoc(body, st.value.value, TakeBody(st.value.rest));
    }
  }

  // One turn of the parameter loop.
  lemma ParamsStep(params: seq<Param>, ts: seq<Token>)
    requires Ended(ts)
    ensures match TakeParam(ts)
            case Err(x) => Before(params, TakeParams(ts)) == Err(x)
            case Ok(p) =>
              if p.rest[0].kind == Symbol(')')
                  then Before(params, TakeParams(ts)) == Ok(Parsed(params + [p.value], p.rest[1..]))
              else
                match TakeSymbol(p.rest, ',')
                case Err(x) => Before(params, TakeParams(ts)) == Err(x)
                case Ok(c) => Before(params, TakeParams(ts)) == Before(params + [p.value], TakeParams(c.rest))
  {
    hide TakeParam;
    var p := TakeParam(ts);
    if p.Ok? && TakeSymbol(p.value.rest, ',').Ok? {
      BeforeSnoc(params, p.value.value, TakeParams(TakeSymbol(p.value.rest, ',').value.rest));
    }
  }

  // One turn of the member loop.
  lemma MembersStep(m: Members, ts: seq<Token>)
    requires Ended(ts)
    ensures if ts[0].kind == Symbol('}') then BeforeMembers(m, TakeMembers(ts)) == Ok(Parsed(m, ts[1..]))
            else if ts[0].kind == Ident("private") then
              match TakeState(ts[1..])
              case Err(x) => BeforeMembers(m, TakeMembers(ts)) == Err(x)
              case Ok(d) =>
                BeforeMembers(m, TakeMembers(ts))
                == BeforeMembers(Members(m.states + [d.value], m.functions), TakeMembers(d.rest))
            else if ts[0].kind == Ident("function") then
              match TakeFunction(ts[1..])
              case Err(x) => BeforeMembers(m, TakeMembers(ts)) == Err(x)
              case Ok(f) =>
                BeforeMembers(m, TakeMembers(ts))
                == BeforeMembers(Members(m.states, m.functions + [f.value]), TakeMembers(f.rest))
            else BeforeMembers(m, TakeMembers(ts)) == Err(SyntaxError(ExpectedMember, ts[0].offset))
  {
    hide TakeState, TakeFunction;
    if ts[0].kind == Symbol('}') {
      assert m.states + [] == m.states && m.functions + [] == m.functions;
    } else if ts[0].kind == Ident("private") {
      var d := TakeState(ts[1..]);
      if d.Ok? && TakeMembers(d.value.rest).Ok? {
        var more := TakeMembers(d.value.rest).value.value;
        assert m.states + ([d.value.value] + more.states) == (m.states + [d.value.value]) + more.states;
      }
    } else if ts[0].kind == Ident("function") {
      var f := TakeFunction(ts[1..]);
      if f.Ok? && TakeMembers(f.value.rest).Ok? {
        var more := TakeMembers(f.value.rest).value.value;
        assert m.functions + ([f.value.value] + more.functions) == (m.functions + [f.value.value]) + more.functions;
      }
    }
  }

  // One turn of the argument loop.
  lemma ArgsStep(args: seq<Expression>, ts: seq<Token>)
    requires Ended(ts)
    ensures var e := TakeExpr(ts);
      match e
      case Err(x) => Before(args, TakeArgs(ts)) == Err(x)
      case Ok(p) =>
        if p.rest[0].kind == Symbol(')') then Before(args, TakeArgs(ts)) == Ok(Parsed(args + [p.value], p.rest[1..]))
        else
          match TakeSymbol(p.rest, ',')
          case Err(x) => Before(args, TakeArgs(ts)) == Err(x)
          case Ok(c) => Before(args, TakeArgs(ts)) == Before(args + [p.value], TakeArgs(c.rest))
  {
    hide TakeExpr;
    var e := TakeExpr(ts);
    if e.Ok? && TakeSymbol(e.value.rest, ',').Ok? {
      BeforeSnoc(args, e.value.value, TakeArgs(TakeSymbol(e.value.rest, ',').value.rest));
    }
  }
}
