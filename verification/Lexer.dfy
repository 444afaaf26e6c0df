/** Lexing, and the spelling of token lists that lexes back to them. The source is viewed byte by
    byte: a character stands for the byte with its code. */
module Lexer {
  import opened Wrappers

  datatype Kind = Ident(name: string) | NumberToken(digits: string) | Symbol(c: char) | Eof

  datatype Token = Token(kind: Kind, offset: nat)

  datatype SyntaxError = SyntaxError(fault: SyntaxFault, offset: nat)

  datatype SyntaxFault =
    | UnexpectedCharacter(c: char)
    | ExpectedKeyword(keyword: string)
    | ExpectedIdentifier
    | ExpectedSymbol(symbol: char)
    | ExpectedExpression
    | ExpectedMember
    | UnexpectedInput
    | UnknownType(name: string)

  predicate IsSpace(c: char) {
    '\t' <= c <= '\r' || c == ' ' || c as int == 0x85 || c as int == 0xA0
  }

  predicate IsAlpha(c: char) { 'a' <= c <= 'z' || 'A' <= c <= 'Z' }

  predicate IsDigit(c: char) { '0' <= c <= '9' }

  predicate StartsIdent(c: char) { IsAlpha(c) || c == '_' }

  predicate ContinuesIdent(c: char) { IsAlpha(c) || IsDigit(c) || c == '_' || c == '.' }

  predicate IsSymbol(c: char) { c in "{}()[];,=" }

  predicate StartsComment(s: string) { |s| >= 2 && s[0] == '/' && s[1] == '/' }

  // Lengths of the longest runs at the front.
  function IdentLength(s: string): (n: nat)
    ensures n <= |s| && (forall i :: 0 <= i < n ==> ContinuesIdent(s[i])) && (n < |s| ==> !ContinuesIdent(s[n]))
  {
    if s != [] && ContinuesIdent(s[0]) then 1 + IdentLength(s[1..]) else 0
  }

  function DigitLength(s: string): (n: nat)
    ensures n <= |s| && (forall i :: 0 <= i < n ==> IsDigit(s[i])) && (n < |s| ==> !IsDigit(s[n]))
  {
    if s != [] && IsDigit(s[0]) then 1 + DigitLength(s[1..]) else 0
  }

  function LineLength(s: string): (n: nat)
    ensures n <= |s|
  {
    if s != [] && s[0] != '\n' then 1 + LineLength(s[1..]) else 0
  }

  // The token at the front of s with its length, or nothing for a space or a comment.
  function FirstLength(s: string): (n: nat)
    requires s != []
    ensures 1 <= n <= |s|
  {
    if IsSpace(s[0]) then 1
    else if StartsComment(s) then 2 + LineLength(s[2..])
    else if StartsIdent(s[0]) then 1 + IdentLength(s[1..])
    else if IsDigit(s[0]) then 1 + DigitLength(s[1..])
    else 1
  }

  function FirstKind(s: string): (k: Option<Kind>)
    requires s != []
  {
    if IsSpace(s[0]) || StartsComment(s) then None
    else if StartsIdent(s[0]) then Some(Ident(s[..FirstLength(s)]))
    else if IsDigit(s[0]) then Some(NumberToken(s[..FirstLength(s)]))
    else Some(Symbol(s[0]))
  }

  predicate Lexable(s: string)
    requires s != []
  {
    IsSpace(s[0]) || StartsComment(s) || StartsIdent(s[0]) || IsDigit(s[0]) || IsSymbol(s[0])
  }

  // The tokens of s, which begins at the given offset.
  function LexRest(s: string, offset: nat): (r: Result<seq<Token>, SyntaxError>)
    ensures r.Ok? ==> r.value != [] && r.value[|r.value| - 1].kind == Eof
    decreases |s|
  {
    if s == [] then Ok([Token(Eof, offset)])
    else if !Lexable(s) then Err(SyntaxError(UnexpectedCharacter(s[0]), offset))
    else
      var n := FirstLength(s);
      var rest :- LexRest(s[n..], offset + n);
      Ok((match FirstKind(s) case Some(k) => [Token(k, offset)] case None => []) + rest)
  }

  function Lex(source: string): (r: Result<seq<Token>, SyntaxError>) { LexRest(source, 0) }

  // ---- the index loops of the implementation ----

  method SkipLine(source: string, start: nat) returns (i: nat)
    requires start <= |source|
    ensures start <= i <= |source| && i == start + LineLength(source[start..])
  {
    i := start;
    while i < |source| && source[i] != '\n'
      invariant start <= i <= |source|
      invariant start + LineLength(source[start..]) == i + LineLength(source[i..])
    {
      assert source[i..][1..] == source[i + 1..];
      i := i + 1;
    }
  }

  method SkipIdent(source: string, start: nat) returns (i: nat)
    requires start <= |source|
    ensures start <= i <= |source| && i == start + IdentLength(source[start..])
  {
    i := start;
    while i < |source| && ContinuesIdent(source[i])
      invariant start <= i <= |source|
      invariant start + IdentLength(source[start..]) == i + IdentLength(source[i..])
    {
      assert source[i..][1..] == source[i + 1..];
      i := i + 1;
    }
  }

  method SkipDigits(source: string, start: nat) returns (i: nat)
    requires start <= |source|
    ensures start <= i <= |source| && i == start + DigitLength(source[start..])
  {
    i := start;
    while i < |source| && IsDigit(source[i])
      invariant start <= i <= |source|
      invariant start + DigitLength(source[start..]) == i + DigitLength(source[i..])
    {
      assert source[i..][1..] == source[i + 1..];
      i := i + 1;
    }
  }

  // Tokens already found in front of the rest of the run.
  function Joined(tokens: seq<Token>, rest: Result<seq<Token>, SyntaxError>): (r: Result<seq<Token>, SyntaxError>) {
    match rest
    case Ok(more) => Ok(tokens + more)
    case Err(e) => Err(e)
  }

  lemma JoinedStep(source: string, i: nat, tokens: seq<Token>)
    requires i < |source| && Lexable(source[i..])
    ensures var s := source[i..]; var n := FirstLength(s);
      Joined(tokens, LexRest(s, i))
      == Joined(tokens + (match FirstKind(s) case Some(k) => [Token(k, i)] case None => []),
          LexRest(source[i + n..], i + n))
  {
    hide FirstKind, FirstLength, Lexable;
    var s := source[i..];
    var n := FirstLength(s);
    assert s[n..] == source[i + n..];
    var rest := LexRest(source[i + n..], i + n);
    var head := match FirstKind(s) case Some(k) => [Token(k, i)] case None => [];
    if rest.Ok? {
      assert tokens + (head + rest.value) == (tokens + head) + rest.value;
    }
  }

  // One turn of the loop: what is at position i and where the next turn starts.
  method NextPiece(source: string, i: nat) returns (kind: Option<Kind>, next: nat, ok: bool)
    requires i < |source|
    ensures ok == Lexable(source[i..])
    ensures ok ==> kind == FirstKind(source[i..]) && next == i + FirstLength(source[i..])
  {
    hide IdentLength, DigitLength, LineLength;
    ghost var s := source[i..];
    var c := source[i];
    kind, next, ok := None, i + 1, true;
    if IsSpace(c) {
    } else if c == '/' && i + 1 < |source| && source[i + 1] == '/' {
      assert s[2..] == source[i + 2..];
      next := SkipLine(source, i + 2);
    } else if StartsIdent(c) {
      assert s[1..] == source[i + 1..];
      next := SkipIdent(source, i + 1);
      assert s[..next - i] == source[i..next];
      kind := Some(Ident(source[i..next]));
    } else if IsDigit(c) {
      assert s[1..] == source[i + 1..];
      next := SkipDigits(source, i + 1);
      assert s[..next - i] == source[i..next];
      kind := Some(NumberToken(source[i..next]));
    } else if IsSymbol(c) {
      kind := Some(Symbol(c));
    } else {
      ok := false;
    }
  }

  method LexLoop(source: string) returns (r: Result<seq<Token>, SyntaxError>)
    ensures r == Lex(source)
  {
    hide FirstKind, FirstLength, Lexable, LexRest;
    var tokens := [];
    var i := 0;
    assert source[0..] == source;
    ghost var whole := LexRest(source, 0);
    if whole.Ok? { assert [] + whole.value == whole.value; }
    while i < |source|
      invariant 0 <= i <= |source|
      invariant Joined(tokens, LexRest(source[i..], i)) == whole
    {
      var kind, next, ok := NextPiece(source, i);
      if !ok {
        LexStops(source, i);
        return Err(SyntaxError(UnexpectedCharacter(source[i]), i));
      }
      JoinedStep(source, i, tokens);
      if kind.Some? {
        tokens := tokens + [Token(kind.value, i)];
      } else {
        assert tokens + [] == tokens;
      }
      i := next;
    }
    LexEnds(source);
    return Ok(tokens + [Token(Eof, |source|)]);
  }

  lemma LexStops(source: string, i: nat)
    requires i < |source| && !Lexable(source[i..])
    ensures LexRest(source[i..], i) == Err(SyntaxError(UnexpectedCharacter(source[i]), i))
  {
  }

  lemma LexEnds(source: string)
    ensures LexRest(source[|source|..], |source|) == Ok([Token(Eof, |source|)])
  {
  }

  // ---- spelling ----

  predicate IdentText(s: string) {
    s != [] && StartsIdent(s[0]) && forall i :: 1 <= i < |s| ==> ContinuesIdent(s[i])
  }

  predicate NumberText(s: string) { s != [] && forall i :: 0 <= i < |s| ==> IsDigit(s[i]) }

  // Tokens some source text can produce.
  predicate Spellable(k: Kind) {
    match k
    case Ident(s) => IdentText(s)
    case NumberToken(s) => NumberText(s)
    case Symbol(c) => IsSymbol(c)
    case Eof => false
  }

  function KindText(k: Kind): (s: string) {
    match k
    case Ident(s) => s
    case NumberToken(s) => s
    case Symbol(c) => [c]
    case Eof => []
  }

  // The tokens separated by spaces.
  function Spell(ks: seq<Kind>): (s: string) {
    if ks == [] then [] else KindText(ks[0]) + (" " + Spell(ks[1..]))
  }

  // The tokens a spelling lexes to, starting at the given offset.
  function Placed(ks: seq<Kind>, offset: nat): (ts: seq<Token>)
    ensures |ts| == |ks| + 1 && forall i :: 0 <= i < |ks| ==> ts[i].kind == ks[i]
    ensures ts[|ks|].kind == Eof
  {
    if ks == [] then [Token(Eof, offset)]
    else [Token(ks[0], offset)] + Placed(ks[1..], offset + |KindText(ks[0])| + 1)
  }

  lemma {:induction false} IdentRun(s: string, rest: string)
    requires (forall i :: 0 <= i < |s| ==> ContinuesIdent(s[i])) && (rest != [] ==> !ContinuesIdent(rest[0]))
    ensures IdentLength(s + rest) == |s|
  {
    if s == [] {
      assert s + rest == rest;
    } else {
      assert (s + rest)[1..] == s[1..] + rest;
      IdentRun(s[1..], rest);
    }
  }

  lemma {:induction false} DigitRun(s: string, rest: string)
    requires (forall i :: 0 <= i < |s| ==> IsDigit(s[i])) && (rest != [] ==> !IsDigit(rest[0]))
    ensures DigitLength(s + rest) == |s|
  {
    if s == [] {
      assert s + rest == rest;
    } else {
      assert (s + rest)[1..] == s[1..] + rest;
      DigitRun(s[1..], rest);
    }
  }

  // What follows cannot be read as part of the token.
  predicate Stops(k: Kind, rest: string) {
    rest != [] ==> (k.Ident? ==> !ContinuesIdent(rest[0])) && (k.NumberToken? ==> !IsDigit(rest[0]))
  }

  lemma FirstOfText(k: Kind, rest: string)
    requires Spellable(k) && Stops(k, rest)
    ensures var s := KindText(k) + rest;
        s != [] && Lexable(s) && FirstKind(s) == Some(k) && FirstLength(s) == |KindText(k)|
  {
    hide FirstKind, FirstLength, Lexable, IdentText, NumberText, IsSymbol;
    match k
    case Ident(x) => FirstOfIdent(x, rest);
    case NumberToken(d) => FirstOfDigits(d, rest);
    case Symbol(c) => FirstOfSymbol(c, rest);
    case Eof =>
  }

  lemma FirstOfIdent(x: string, rest: string)
    requires IdentText(x) && (rest != [] ==> !ContinuesIdent(rest[0]))
    ensures var s := x + rest; s != [] && Lexable(s) && FirstKind(s) == Some(Ident(x)) && FirstLength(s) == |x|
  {
    hide IdentLength, DigitLength, LineLength;
    var s := x + rest;
    assert s[1..] == x[1..] + rest && s[..|x|] == x;
    IdentRun(x[1..], rest);
  }

  lemma FirstOfDigits(d: string, rest: string)
    requires NumberText(d) && (rest != [] ==> !IsDigit(rest[0]))
    ensures var s := d + rest; s != [] && Lexable(s) && FirstKind(s) == Some(NumberToken(d)) && FirstLength(s) == |d|
  {
    hide IdentLength, DigitLength, LineLength;
    var s := d + rest;
    assert s[1..] == d[1..] + rest && s[..|d|] == d;
    DigitRun(d[1..], rest);
  }

  lemma FirstOfSymbol(c: char, rest: string)
    requires IsSymbol(c)
    ensures var s := [c] + rest; Lexable(s) && FirstKind(s) == Some(Symbol(c)) && FirstLength(s) == 1
  {
    hide IdentLength, DigitLength, LineLength;
  }

  // Lexing the spelling of tokens gives the tokens.
  lemma {:induction false} LexSpelled(ks: seq<Kind>, offset: nat)
    requires forall i :: 0 <= i < |ks| ==> Spellable(ks[i])
    ensures LexRest(Spell(ks), offset) == Ok(Placed(ks, offset))
    decreases |ks|
  {
    hide FirstKind, FirstLength, Lexable, Spellable, KindText;
    if ks != [] {
      var rest := Spell(ks[1..]);
      FirstOfText(ks[0], " " + rest);
      LexSpelled(ks[1..], offset + |KindText(ks[0])| + 1);
      LexSpace(rest, offset + |KindText(ks[0])|);
      LexText(ks[0], " " + rest, offset);
    }
  }

  lemma LexSpace(rest: string, offset: nat)
    requires LexRest(rest, offset + 1).Ok?
    ensures LexRest(" " + rest, offset) == LexRest(rest, offset + 1)
  {
    hide FirstKind, FirstLength, Lexable;
    SpaceFirst(rest);
    Dropped(" ", rest);
    assert [] + LexRest(rest, offset + 1).value == LexRest(rest, offset + 1).value;
  }

  lemma LexText(k: Kind, rest: string, offset: nat)
    requires Spellable(k) && Stops(k, rest) && LexRest(rest, offset + |KindText(k)|).Ok?
    ensures LexRest(KindText(k) + rest, offset) == Ok([Token(k, offset)] + LexRest(rest, offset + |KindText(k)|).value)
  {
    hide FirstKind, FirstLength, Lexable, Spellable, KindText;
    FirstOfText(k, rest);
    Dropped(KindText(k), rest);
  }

  lemma Dropped(a: string, b: string)
    ensures (a + b)[|a|..] == b
  {
  }

  lemma SpaceFirst(rest: string)
    ensures Lexable(" " + rest) && FirstKind(" " + rest) == None && FirstLength(" " + rest) == 1
  {
  }

  // ---- any spacing ----

  // The characters of each class by their codes.
  lemma CharacterClasses(c: char)
    ensures IsSpace(c) <==> c as int in {9, 10, 11, 12, 13, 32, 0x85, 0xA0}
    ensures IsDigit(c) <==> 48 <= c as int <= 57
    ensures StartsIdent(c) <==> 65 <= c as int <= 90 || 97 <= c as int <= 122 || c as int == 95
    ensures ContinuesIdent(c) <==> StartsIdent(c) || IsDigit(c) || c as int == 46
    ensures IsSymbol(c) <==> c as int in {123, 125, 40, 41, 91, 93, 59, 44, 61}
  {
  }

  // Whitespace and comments. A comment runs to the end of its line; only at the end of the source
  // may the newline be missing.
  ghost predicate Blank(s: string, last: bool) {
    || s == []
    || (s[0] as int in {9, 10, 11, 12, 13, 32, 0x85, 0xA0} && Blank(s[1..], last))
    || exists n :: 2 <= n <= |s| && CommentOf(s, n, last) && Blank(s[n..], last)
  }

  ghost predicate CommentOf(s: string, n: nat, last: bool)
    requires 2 <= n <= |s|
  {
    && s[0] == '/' && s[1] == '/' && (forall i :: 2 <= i < n ==> s[i] != '\n')
    && (if n < |s| then s[n] == '\n' else last)
  }

  // Two neighbours that would be read as one, or differently, without something in between.
  predicate Merge(a: Kind, b: Kind) { (a.Ident? && !b.Symbol?) || (a.NumberToken? && b.NumberToken?) }

  // Spacing around and between tokens: blank everywhere, and not empty where neighbours merge.
  ghost predicate Spacing(ks: seq<Kind>, gaps: seq<string>) {
    && |gaps| == |ks| + 1 && (forall i :: 0 <= i <= |ks| ==> Blank(gaps[i], i == |ks|))
    && forall i :: 0 < i < |ks| && Merge(ks[i - 1], ks[i]) ==> gaps[i] != []
  }

  function Spaced(ks: seq<Kind>, gaps: seq<string>): (s: string)
    requires |gaps| == |ks| + 1
  {
    if ks == [] then gaps[0] else gaps[0] + (KindText(ks[0]) + Spaced(ks[1..], gaps[1..]))
  }

  function PlacedAmong(ks: seq<Kind>, gaps: seq<string>, offset: nat): (ts: seq<Token>)
    requires |gaps| == |ks| + 1
    ensures |ts| == |ks| + 1 && (forall i :: 0 <= i < |ks| ==> ts[i].kind == ks[i]) && ts[|ks|].kind == Eof
  {
    var start := offset + |gaps[0]|;
    if ks == [] then [Token(Eof, start)]
    else [Token(ks[0], start)] + PlacedAmong(ks[1..], gaps[1..], start + |KindText(ks[0])|)
  }

  lemma {:induction false} LineRun(line: string, rest: string)
    requires (forall i :: 0 <= i < |line| ==> line[i] != '\n') && (rest != [] ==> rest[0] == '\n')
    ensures LineLength(line + rest) == |line|
  {
    if line == [] {
      assert line + rest == rest;
    } else {
      assert (line + rest)[1..] == line[1..] + rest;
      LineRun(line[1..], rest);
    }
  }

  lemma PieceSkipped(a: string, rest: string, offset: nat)
    requires a != [] && Lexable(a + rest) && FirstKind(a + rest) == None && FirstLength(a + rest) == |a|
    ensures LexRest(a + rest, offset) == LexRest(rest, offset + |a|)
  {
    hide FirstKind, FirstLength, Lexable;
    Dropped(a, rest);
    var r := LexRest(rest, offset + |a|);
    if r.Ok? { assert [] + r.value == r.value; }
  }

  // Blank text is skipped; at the end of the source it may end in a comment without a newline.
  lemma {:induction false} BlankSkipped(b: string, rest: string, last: bool, offset: nat)
    requires Blank(b, last) && (last ==> rest == [])
    ensures LexRest(b + rest, offset) == LexRest(rest, offset + |b|)
    decreases |b|
  {
    hide LexRest;
    if b == [] {
      assert b + rest == rest;
    } else if b[0] as int in {9, 10, 11, 12, 13, 32, 0x85, 0xA0} && Blank(b[1..], last) {
      var tail := b[1..] + rest;
      assert b + rest == [b[0]] + tail;
      BlankSkipped(b[1..], rest, last, offset + 1);
      SpaceSkipped(b[0], tail, offset);
    } else {
      var n :| 2 <= n <= |b| && CommentOf(b, n, last) && Blank(b[n..], last);
      var tail := b[n..] + rest;
      assert b + rest == b[..n] + tail;
      BlankSkipped(b[n..], rest, last, offset + n);
      CommentSkipped(b[..n], tail, offset);
    }
  }

  lemma SpaceSkipped(c: char, rest: string, offset: nat)
    requires IsSpace(c)
    ensures LexRest([c] + rest, offset) == LexRest(rest, offset + 1)
  {
    hide LexRest, IdentLength, DigitLength, LineLength;
    PieceSkipped([c], rest, offset);
  }

  lemma CommentSkipped(comment: string, rest: string, offset: nat)
    requires |comment| >= 2 && comment[0] == '/' && comment[1] == '/'
    requires (forall i :: 2 <= i < |comment| ==> comment[i] != '\n') && (rest != [] ==> rest[0] == '\n')
    ensures LexRest(comment + rest, offset) == LexRest(rest, offset + |comment|)
  {
    hide LexRest, IdentLength, DigitLength;
    assert (comment + rest)[2..] == comment[2..] + rest;
    LineRun(comment[2..], rest);
    PieceSkipped(comment, rest, offset);
  }

  // After a token, with such spacing, comes something that ends it.
  lemma SpacedStops(ks: seq<Kind>, gaps: seq<string>)
    requires ks != [] && Spacing(ks, gaps) && forall i :: 0 <= i < |ks| ==> Spellable(ks[i])
    ensures Stops(ks[0], Spaced(ks[1..], gaps[1..]))
  {
    var rest := Spaced(ks[1..], gaps[1..]);
    if gaps[1] != [] {
      BlankStarts(gaps[1], 1 == |ks|);
      assert rest[0] == gaps[1][0];
    } else if |ks| > 1 {
      assert ks[1..][0] == ks[1];
      TextStarts(ks[1]);
      assert rest[0] == KindText(ks[1])[0];
    }
  }

  lemma BlankStarts(s: string, last: bool)
    requires Blank(s, last) && s != []
    ensures !ContinuesIdent(s[0])
  {
  }

  lemma TextStarts(k: Kind)
    requires Spellable(k)
    ensures KindText(k) != []
    ensures k.Symbol? ==> !ContinuesIdent(KindText(k)[0])
    ensures k.Ident? ==> !IsDigit(KindText(k)[0])
  {
  }

  // Lexing tokens with any spacing gives the tokens, each at its place.
  lemma {:induction false} LexSpaced(ks: seq<Kind>, gaps: seq<string>, offset: nat)
    requires Spacing(ks, gaps) && forall i :: 0 <= i < |ks| ==> Spellable(ks[i])
    ensures LexRest(Spaced(ks, gaps), offset) == Ok(PlacedAmong(ks, gaps, offset))
    decreases |ks|
  {
    hide FirstKind, FirstLength, Lexable, Spellable, KindText, Blank, LexRest, Stops;
    if ks == [] {
      LexEnd(gaps[0], offset);
    } else {
      var start := offset + |gaps[0]|;
      var rest := Spaced(ks[1..], gaps[1..]);
      SpacedStops(ks, gaps);
      LexSpaced(ks[1..], gaps[1..], start + |KindText(ks[0])|);
      LexText(ks[0], rest, start);
      BlankSkipped(gaps[0], KindText(ks[0]) + rest, false, offset);
    }
  }

  lemma LexEnd(gap: string, offset: nat)
    requires Blank(gap, true)
    ensures LexRest(gap, offset) == Ok([Token(Eof, offset + |gap|)])
  {
    BlankSkipped(gap, [], true, offset);
    assert gap + [] == gap;
  }

  // The kinds of the tokens before the end.
  function KindsOf(ts: seq<Token>): (ks: seq<Kind>)
    requires ts != []
    ensures |ks| == |ts| - 1
  {
    seq(|ts| - 1, i requires 0 <= i < |ts| - 1 => ts[i].kind)
  }

  lemma {:induction false} LineEnds(s: string)
    ensures var n := LineLength(s); (forall i :: 0 <= i < n ==> s[i] != '\n') && (n < |s| ==> s[n] == '\n')
  {
    if s != [] && s[0] != '\n' { LineEnds(s[1..]); }
  }

  ghost predicate Fits(s: string, ks: seq<Kind>, gaps: seq<string>) {
    Spacing(ks, gaps) && (forall i :: 0 <= i < |ks| ==> Spellable(ks[i])) && Spaced(ks, gaps) == s
  }

  // A blank piece in front of spaced tokens.
  lemma FitsPiece(piece: string, rest: string, ks: seq<Kind>, gaps: seq<string>)
    requires Fits(rest, ks, gaps) && piece != []
    requires (|piece| == 1 && IsSpace(piece[0]))
      || (|piece| >= 2 && CommentOf(piece, |piece|, true) && (rest != [] ==> rest[0] == '\n'))
    ensures Fits(piece + rest, ks, [piece + gaps[0]] + gaps[1..])
  {
    var gap := piece + gaps[0];
    var after := [gap] + gaps[1..];
    assert after[1..] == gaps[1..];
    if ks != [] {
      TextStarts(ks[0]);
      TextNoNewline(ks[0]);
      assert gap + (KindText(ks[0]) + Spaced(ks[1..], gaps[1..])) == piece + rest;
    }
    assert Blank(gap, ks == []) by {
      assert gap[|piece|..] == gaps[0];
      if |piece| == 1 && IsSpace(piece[0]) {
      } else {
        assert CommentOf(gap, |piece|, ks == []);
      }
    }
  }

  lemma TextNoNewline(k: Kind)
    requires Spellable(k)
    ensures KindText(k) != [] && KindText(k)[0] != '\n'
  {
  }

  // A token in front of spaced tokens, which stop it.
  lemma FitsToken(k: Kind, rest: string, ks: seq<Kind>, gaps: seq<string>)
    requires Fits(rest, ks, gaps) && Spellable(k) && Stops(k, rest)
    ensures Fits(KindText(k) + rest, [k] + ks, [[]] + gaps)
  {
    var more, after := [k] + ks, [[]] + gaps;
    assert more[1..] == ks && after[1..] == gaps && after[0] == [];
    assert [] + (KindText(k) + rest) == KindText(k) + rest;
    if ks != [] && gaps[0] == [] {
      TextStarts(ks[0]);
      TextContinues(ks[0]);
      assert rest[0] == KindText(ks[0])[0];
    }
    forall i | 0 < i < |more| && Merge(more[i - 1], more[i]) ensures after[i] != [] {
      if i > 1 { assert more[i - 1] == ks[i - 2] && more[i] == ks[i - 1] && after[i] == gaps[i - 1]; }
    }
  }

  lemma TextContinues(k: Kind)
    requires Spellable(k)
    ensures KindText(k) != []
    ensures k.Ident? ==> ContinuesIdent(KindText(k)[0])
    ensures k.NumberToken? ==> ContinuesIdent(KindText(k)[0]) && IsDigit(KindText(k)[0])
  {
  }

  lemma FirstFits(s: string)
    requires s != [] && Lexable(s)
    ensures var n := FirstLength(s);
      match FirstKind(s)
      case Some(k) => Spellable(k) && KindText(k) == s[..n] && Stops(k, s[n..])
      case None =>
        || (n == 1 && IsSpace(s[0]))
        || (n >= 2 && CommentOf(s[..n], n, true) && (s[n..] != [] ==> s[n..][0] == '\n'))
  {
    if !IsSpace(s[0]) && StartsComment(s) { LineEnds(s[2..]); }
  }

  // Nothing else is accepted: every source that lexes consists of the tokens it lexes to, with such
  // spacing.
  lemma {:induction false} LexedSpaced(s: string, offset: nat) returns (gaps: seq<string>)
    requires LexRest(s, offset).Ok?
    ensures Fits(s, KindsOf(LexRest(s, offset).value), gaps)
    decreases |s|
  {
    hide FirstKind, FirstLength, Lexable, Fits, Spellable, KindText, Stops, CommentOf;
    var ts := LexRest(s, offset).value;
    if s == [] {
      gaps := [[]];
      NothingFits();
      assert KindsOf(ts) == [];
    } else {
      var n := FirstLength(s);
      var rest := s[n..];
      assert s == s[..n] + rest;
      var more := LexRest(rest, offset + n).value;
      var after := LexedSpaced(rest, offset + n);
      FirstFits(s);
      match FirstKind(s)
      case Some(k) =>
        gaps := [[]] + after;
        FitsToken(k, rest, KindsOf(more), after);
        assert KindsOf(ts) == [k] + KindsOf(more);
      case None =>
        FitsGaps(rest, KindsOf(more), after);
        gaps := [s[..n] + after[0]] + after[1..];
        FitsPiece(s[..n], rest, KindsOf(more), after);
        assert ts == more;
    }
  }

  lemma NothingFits()
    ensures Fits([], [], [[]])
  {
  }

  lemma FitsGaps(s: string, ks: seq<Kind>, gaps: seq<string>)
    requires Fits(s, ks, gaps)
    ensures |gaps| == |ks| + 1
  {
  }
}
