/** Every program the parser returns can be printed and parsed back, so the conditions of the
    round trip are exact. */
module Printable {
  import opened Wrappers
  import opened Language
  import opened Lexer
  import opened Parser

  // Tokens with a spelling, apart from the end marker.
  ghost predicate Spelled(ts: seq<Token>) {
    forall i :: 0 <= i < |ts| ==> ts[i].kind == Eof || Spellable(ts[i].kind)
  }

  lemma FirstSpells(s: string)
    requires s != [] && Lexable(s)
    ensures FirstKind(s).Some? ==> Spellable(FirstKind(s).value)
  {
    hide LineLength;
    if !IsSpace(s[0]) && !StartsComment(s) {
      var n := FirstLength(s);
      if StartsIdent(s[0]) {
        forall i | 1 <= i < n ensures ContinuesIdent(s[..n][i]) { assert s[1..][i - 1] == s[i]; }
      } else if IsDigit(s[0]) {
        forall i | 0 <= i < n ensures IsDigit(s[..n][i]) { if i > 0 { assert s[1..][i - 1] == s[i]; } }
      }
    }
  }

  lemma {:induction false} LexedSpelled(s: string, offset: nat)
    requires LexRest(s, offset).Ok?
    ensures Spelled(LexRest(s, offset).value)
    decreases |s|
  {
    hide FirstKind, FirstLength, Lexable, Spellable;
    if s != [] {
      FirstSpells(s);
      LexedSpelled(s[FirstLength(s)..], offset + FirstLength(s));
    }
  }

  // The parse succeeded with a value of the given quality and left spelled tokens.
  lemma NextSpelled(ts: seq<Token>)
    requires Spelled(ts) && Ended(ts) && ts[0].kind != Eof
    ensures Spelled(ts[1..]) && Spellable(ts[0].kind)
  {
  }

  lemma IdentRead(ts: seq<Token>)
    requires Ended(ts) && Spelled(ts)
    ensures var r := TakeIdent(ts); r.Ok? ==> IdentText(r.value.value) && Spelled(r.value.rest)
  {
    hide IdentText;
    if ts[0].kind.Ident? { NextSpelled(ts); }
  }

  lemma SymbolRead(ts: seq<Token>, c: char)
    requires Ended(ts) && Spelled(ts)
    ensures var r := TakeSymbol(ts, c); r.Ok? ==> Spelled(r.value.rest)
  {
    if ts[0].kind == Symbol(c) { NextSpelled(ts); }
  }

  lemma KeywordRead(ts: seq<Token>, w: string)
    requires Ended(ts) && Spelled(ts)
    ensures var r := TakeKeyword(ts, w); r.Ok? ==> Spelled(r.value.rest)
  {
    if ts[0].kind == Ident(w) { NextSpelled(ts); }
  }

  lemma NamedType(name: string)
    ensures TypeNamed(name).Some? ==> HasName(TypeNamed(name).value)
  {
  }

  lemma TypeRead(ts: seq<Token>)
    requires Ended(ts) && Spelled(ts)
    ensures var r := TakeType(ts); r.Ok? ==> HasName(r.value.value) && Spelled(r.value.rest)
  {
    hide TypeNamed, HasName, TakeIdent;
    IdentRead(ts);
    if TakeIdent(ts).Ok? { NamedType(TakeIdent(ts).value.value); }
  }

  ghost predicate GoodExpr(ts: seq<Token>, r: P<Expression>)
    requires ts != []
  {
    r.Ok? ==> ExprSpelled(r.value.value) && Spelled(r.value.rest) && ExprKinds(r.value.value)[0] == ts[0].kind
  }

  lemma {:induction false} ExprRead(ts: seq<Token>)
    requires Ended(ts) && Spelled(ts)
    ensures GoodExpr(ts, TakeExpr(ts))
    decreases |ts|, 1
  {
    hide Spelled, TakeArgs, IdentText, NumberText;
    match ts[0].kind
    case NumberToken(_) => NextSpelled(ts);
    case Ident(name) =>
      NextSpelled(ts);
      NameRead(ts, name);
    case _ =>
  }

  lemma {:induction false} NameRead(ts: seq<Token>, name: string)
    requires Ended(ts) && ts[0].kind == Ident(name) && Spelled(ts[1..]) && IdentText(name)
    ensures GoodExpr(ts, TakeExpr(ts))
    decreases |ts|, 0
  {
    hide Spelled, TakeArgs, IdentText, NumberText, TakeSymbol;
    var rest := ts[1..];
    if rest[0].kind == Symbol('(') {
      NextSpelled(rest);
      if rest[1..][0].kind == Symbol(')') {
        NextSpelled(rest[1..]);
      } else {
        ArgsRead(rest[1..]);
      }
    } else if rest[0].kind == Symbol('[') {
      NextSpelled(rest);
      ExprRead(rest[1..]);
      var key := TakeExpr(rest[1..]);
      if key.Ok? { SymbolRead(key.value.rest, ']'); }
    }
  }

  ghost predicate GoodArgs(r: P<seq<Expression>>) {
    r.Ok? ==>
      r.value.value != [] && (forall i :: 0 <= i < |r.value.value| ==> ExprSpelled(r.value.value[i]))
      && Spelled(r.value.rest)
  }

  lemma {:induction false} ArgsRead(ts: seq<Token>)
    requires Ended(ts) && Spelled(ts)
    ensures GoodArgs(TakeArgs(ts))
    decreases |ts|, 2
  {
    hide Spelled, TakeExpr, ExprSpelled, ExprKinds;
    ExprRead(ts);
    var e := TakeExpr(ts);
    if e.Ok? {
      if e.value.rest[0].kind == Symbol(')') {
        NextSpelled(e.value.rest);
      } else {
        SymbolRead(e.value.rest, ',');
        var c := TakeSymbol(e.value.rest, ',');
        if c.Ok? { ArgsRead(c.value.rest); }
      }
    }
  }

  ghost predicate GoodStatement(r: P<Statement>) {
    r.Ok? ==> Writable(r.value.value) && StatementSpelled(r.value.value) && Spelled(r.value.rest)
  }

  lemma RequireRead(ts: seq<Token>)
    requires Ended(ts) && Spelled(ts)
    ensures GoodStatement(TakeRequire(ts))
  {
    hide Spelled, TakeExpr, ExprSpelled, ExprKinds, Ended, TakeSymbol;
    SymbolRead(ts, '(');
    var o := TakeSymbol(ts, '(');
    if o.Ok? {
      ExprRead(o.value.rest);
      var e := TakeExpr(o.value.rest);
      if e.Ok? {
        SymbolRead(e.value.rest, ')');
        var c := TakeSymbol(e.value.rest, ')');
        if c.Ok? { SymbolRead(c.value.rest, ';'); }
      }
    }
  }

  lemma ReturnRead(ts: seq<Token>)
    requires Ended(ts) && Spelled(ts)
    ensures GoodStatement(TakeReturn(ts))
  {
    hide Spelled, TakeExpr, ExprSpelled, ExprKinds, Ended, TakeSymbol;
    ExprRead(ts);
    var e := TakeExpr(ts);
    if e.Ok? { SymbolRead(e.value.rest, ';'); }
  }

  lemma LocalRead(ts: seq<Token>, ty: ValueType)
    requires Ended(ts) && Spelled(ts) && HasName(ty)
    ensures GoodStatement(TakeLocal(ts, ty))
  {
    hide Spelled, TakeExpr, ExprSpelled, ExprKinds, Ended, TakeSymbol, TakeIdent, IdentText, HasName;
    IdentRead(ts);
    var name := TakeIdent(ts);
    if name.Ok? {
      SymbolRead(name.value.rest, '=');
      var eq := TakeSymbol(name.value.rest, '=');
      if eq.Ok? {
        ExprRead(eq.value.rest);
        var e := TakeExpr(eq.value.rest);
        if e.Ok? { SymbolRead(e.value.rest, ';'); }
      }
    }
  }

  lemma PlainRead(ts: seq<Token>)
    requires Ended(ts) && Spelled(ts)
    requires ts[0].kind.Ident?
        ==> ts[0].kind.name != "require" && ts[0].kind.name != "return" && TypeNamed(ts[0].kind.name) == None
    ensures GoodStatement(TakeAssignOrExpr(ts))
  {
    hide Spelled, TakeExpr, ExprSpelled, ExprKinds, TakeSymbol, TypeNamed;
    ExprRead(ts);
    var left := TakeExpr(ts);
    if left.Ok? {
      if left.value.rest[0].kind == Symbol('=') {
        NextSpelled(left.value.rest);
        ExprRead(left.value.rest[1..]);
        var right := TakeExpr(left.value.rest[1..]);
        if right.Ok? { SymbolRead(right.value.rest, ';'); }
      } else {
        SymbolRead(left.value.rest, ';');
      }
    }
  }

  lemma StatementRead(ts: seq<Token>)
    requires Ended(ts) && Spelled(ts)
    ensures GoodStatement(TakeStatement(ts))
  {
    hide Spelled, TakeRequire, TakeReturn, TakeLocal, TakeAssignOrExpr, TypeNamed, GoodStatement, HasName;
    if ts[0].kind.Ident? {
      NextSpelled(ts);
      NamedType(ts[0].kind.name);
      if ts[0].kind == Ident("require") {
        RequireRead(ts[1..]);
      } else if ts[0].kind == Ident("return") {
        ReturnRead(ts[1..]);
      } else if TypeNamed(ts[0].kind.name).Some? {
        LocalRead(ts[1..], TypeNamed(ts[0].kind.name).value);
      } else {
        PlainRead(ts);
      }
    } else {
      PlainRead(ts);
    }
  }

  ghost predicate GoodBody(r: P<seq<Statement>>) {
    r.Ok? ==>
      (forall i :: 0 <= i < |r.value.value| ==> Writable(r.value.value[i]) && StatementSpelled(r.value.value[i]))
      && Spelled(r.value.rest)
  }

  lemma {:induction false} BodyRead(ts: seq<Token>)
    requires Ended(ts) && Spelled(ts)
    ensures GoodBody(TakeBody(ts))
    decreases |ts|
  {
    hide Spelled, TakeStatement, Writable, StatementSpelled;
    if ts[0].kind == Symbol('}') {
      NextSpelled(ts);
    } else {
      StatementRead(ts);
      var st := TakeStatement(ts);
      if st.Ok? { BodyRead(st.value.rest); }
    }
  }

  ghost predicate GoodParams(r: P<seq<Param>>) {
    r.Ok? ==>
      (forall i :: 0 <= i < |r.value.value| ==> ParamNamed(r.value.value[i]) && IdentText(r.value.value[i].name))
      && Spelled(r.value.rest)
  }

  lemma ParamRead(ts: seq<Token>)
    requires Ended(ts) && Spelled(ts)
    ensures var r := TakeParam(ts);
        r.Ok? ==> ParamNamed(r.value.value) && IdentText(r.value.value.name) && Spelled(r.value.rest)
  {
    hide Spelled, TakeType, TakeIdent, IdentText, HasName, Ended;
    TypeRead(ts);
    var ty := TakeType(ts);
    if ty.Ok? { IdentRead(ty.value.rest); }
  }

  lemma {:induction false} ParamsRead(ts: seq<Token>)
    requires Ended(ts) && Spelled(ts)
    ensures GoodParams(TakeParams(ts))
    decreases |ts|
  {
    hide Spelled, TakeParam, IdentText, ParamNamed;
    ParamRead(ts);
    var p := TakeParam(ts);
    if p.Ok? {
      if p.value.rest[0].kind == Symbol(')') {
        NextSpelled(p.value.rest);
      } else {
        SymbolRead(p.value.rest, ',');
        var c := TakeSymbol(p.value.rest, ',');
        if c.Ok? { ParamsRead(c.value.rest); }
      }
    }
  }

  lemma ParamListRead(ts: seq<Token>)
    requires Ended(ts) && Spelled(ts)
    ensures GoodParams(TakeParamList(ts))
  {
    hide Spelled, TakeParams, IdentText, ParamNamed;
    if ts[0].kind == Symbol(')') { NextSpelled(ts); } else { ParamsRead(ts); }
  }

  lemma FunctionRead(ts: seq<Token>)
    requires Ended(ts) && Spelled(ts)
    ensures var r := TakeFunction(ts);
        r.Ok? ==> FunctionWritable(r.value.value) && FunctionSpelled(r.value.value) && Spelled(r.value.rest)
  {
    hide Spelled, TakeIdent, TakeSymbol, TakeKeyword, TakeParamList, TakeBody, IdentText, ParamNamed, Writable;
    hide StatementSpelled, Ended;
    IdentRead(ts);
    var name := TakeIdent(ts);
    if name.Ok? {
      SymbolRead(name.value.rest, '(');
      var o := TakeSymbol(name.value.rest, '(');
      if o.Ok? {
        ParamListRead(o.value.rest);
        var params := TakeParamList(o.value.rest);
        if params.Ok? {
          KeywordRead(params.value.rest, "public");
          var public := TakeKeyword(params.value.rest, "public");
          if public.Ok? {
            SymbolRead(public.value.rest, '{');
            var brace := TakeSymbol(public.value.rest, '{');
            if brace.Ok? { BodyRead(brace.value.rest); }
          }
        }
      }
    }
  }

  lemma KeyRead(ts: seq<Token>)
    requires Ended(ts) && Spelled(ts)
    ensures var r := TakeKey(ts);
        r.Ok? ==> (r.value.value.Some? ==> HasName(r.value.value.value)) && Spelled(r.value.rest)
  {
    hide Spelled, TakeType, TakeSymbol, HasName;
    if ts[0].kind == Symbol('[') {
      NextSpelled(ts);
      TypeRead(ts[1..]);
      var key := TakeType(ts[1..]);
      if key.Ok? { SymbolRead(key.value.rest, ']'); }
    }
  }

  lemma StateRead(ts: seq<Token>)
    requires Ended(ts) && Spelled(ts)
    ensures var r := TakeState(ts);
        r.Ok? ==> StateWritable(r.value.value) && IdentText(r.value.value.name) && Spelled(r.value.rest)
  {
    hide Spelled, TakeType, TakeIdent, TakeSymbol, TakeKey, HasName, IdentText, Ended;
    TypeRead(ts);
    var ty := TakeType(ts);
    if ty.Ok? {
      IdentRead(ty.value.rest);
      var name := TakeIdent(ty.value.rest);
      if name.Ok? {
        KeyRead(name.value.rest);
        var key := TakeKey(name.value.rest);
        if key.Ok? { SymbolRead(key.value.rest, ';'); }
      }
    }
  }

  ghost predicate GoodMembers(r: P<Members>) {
    r.Ok? ==>
      && (forall i ::
          0 <= i < |r.value.value.states|
          ==> StateWritable(r.value.value.states[i]) && IdentText(r.value.value.states[i].name))
      && (forall i ::
          0 <= i < |r.value.value.functions|
          ==> FunctionWritable(r.value.value.functions[i]) && FunctionSpelled(r.value.value.functions[i]))
  }

  lemma {:induction false} MembersRead(ts: seq<Token>)
    requires Ended(ts) && Spelled(ts)
    ensures GoodMembers(TakeMembers(ts))
    decreases |ts|
  {
    hide Spelled, TakeState, TakeFunction, StateWritable, FunctionWritable, FunctionSpelled, IdentText;
    if ts[0].kind == Ident("private") {
      NextSpelled(ts);
      StateRead(ts[1..]);
      var d := TakeState(ts[1..]);
      if d.Ok? { MembersRead(d.value.rest); }
    } else if ts[0].kind == Ident("function") {
      NextSpelled(ts);
      FunctionRead(ts[1..]);
      var f := TakeFunction(ts[1..]);
      if f.Ok? { MembersRead(f.value.rest); }
    }
  }

  // Every program the parser returns is printable.
  lemma ParsedPrintable(source: string)
    requires Parse(source).Ok?
    ensures ProgramSpelled(Parse(source).value) && ProgramWritable(Parse(source).value)
  {
    hide Spelled, TakeIdent, TakeSymbol, TakeKeyword, TakeMembers, StateWritable, FunctionWritable;
    hide FunctionSpelled, IdentText, LexRest;
    LexedSpelled(source, 0);
    var ts := Lex(source).value;
    KeywordRead(ts, "privacy");
    var p := TakeKeyword(ts, "privacy").value;
    KeywordRead(p.rest, "contract");
    var c := TakeKeyword(p.rest, "contract").value;
    IdentRead(c.rest);
    var name := TakeIdent(c.rest).value;
    SymbolRead(name.rest, '{');
    MembersRead(TakeSymbol(name.rest, '{').value.rest);
  }

  // Printing and parsing again gives a program back exactly when its types have source names and
  // no plain statement begins like another form; in particular for everything ever parsed.
  lemma RoundTripExact(p: Program)
    requires ProgramSpelled(p)
    ensures Parse(Print(p)) == Ok(p) <==> ProgramWritable(p)
  {
    hide Parse, Print, ProgramSpelled, ProgramWritable;
    if ProgramWritable(p) { ParsePrinted(p); }
    if Parse(Print(p)) == Ok(p) { ParsedPrintable(Print(p)); }
  }

  lemma Reprinted(source: string)
    requires Parse(source).Ok?
    ensures Parse(Print(Parse(source).value)) == Parse(source)
  {
    hide Parse, Print, ProgramSpelled, ProgramWritable;
    ParsedPrintable(source);
    ParsePrinted(Parse(source).value);
  }
}
