/** UTF-8: the byte form of names. */
module Text {
  import opened Wrappers
  import opened Bytes

  function Utf8Char(c: char): (b: seq<Byte>)
    ensures 1 <= |b| <= 4
  {
    var n := c as int;
    if n < 0x80 then [n]
    else if n < 0x800 then [0xC0 + n / 64, 0x80 + n % 64]
    else if n < 0x10000 then [0xE0 + n / 4096, 0x80 + n / 64 % 64, 0x80 + n % 64]
    else [0xF0 + n / 262144, 0x80 + n / 4096 % 64, 0x80 + n / 64 % 64, 0x80 + n % 64]
  }

  function Utf8(s: string): (b: seq<Byte>) {
    if s == [] then [] else Utf8Char(s[0]) + Utf8(s[1..])
  }

  // ASCII text is its codes.
  lemma {:induction false} AsciiCodes(s: string)
    requires forall i :: 0 <= i < |s| ==> s[i] as int < 0x80
    ensures |Utf8(s)| == |s| && forall i :: 0 <= i < |s| ==> Utf8(s)[i] == s[i] as int
  {
    if s != [] { AsciiCodes(s[1..]); }
  }

  predicate Continues(b: Byte) { 0x80 <= b < 0xC0 }

  predicate Scalar(n: int) { 0 <= n < 0xD800 || 0xE000 <= n < 0x110000 }

  // The code point at the front and the number of bytes it takes: shortest forms only, no
  // surrogates, nothing above the last plane.
  function FirstPoint(b: seq<Byte>): (r: Option<(nat, nat)>)
    requires b != []
    ensures r.Some? ==> Scalar(r.value.0) && 1 <= r.value.1 <= |b|
  {
    if b[0] < 0x80 then Some((b[0] as nat, 1))
    else if 0xC2 <= b[0] < 0xE0 && |b| >= 2 && Continues(b[1])
        then Some(((b[0] as int - 0xC0) * 64 + (b[1] as int - 0x80), 2))
    else if 0xE0 <= b[0] < 0xF0 && |b| >= 3 && Continues(b[1]) && Continues(b[2]) then
      var n := (b[0] as int - 0xE0) * 4096 + (b[1] as int - 0x80) * 64 + (b[2] as int - 0x80);
      if n >= 0x800 && Scalar(n) then Some((n, 3)) else None
    else if 0xF0 <= b[0] < 0xF5 && |b| >= 4 && Continues(b[1]) && Continues(b[2]) && Continues(b[3]) then
      var n := (b[0] as int - 0xF0) * 262144 + (b[1] as int - 0x80) * 4096 + (b[2] as int - 0x80) * 64
          + (b[3] as int - 0x80);
      if n >= 0x10000 && Scalar(n) then Some((n, 4)) else None
    else None
  }

  function FromUtf8(b: seq<Byte>): (r: Option<string>)
    decreases |b|
  {
    if b == [] then Some([])
    else match FirstPoint(b)
      case None => None
      case Some(p) =>
        match FromUtf8(b[p.1..])
        case None => None
        case Some(s) => Some([p.0 as char] + s)
  }

  lemma SplitTwo(n: nat)
    ensures n == n / 64 * 64 + n % 64
    ensures n / 4096 == n / 64 / 64 && n / 262144 == n / 64 / 64 / 64
  {
  }

  lemma FirstOfChar(c: char, rest: seq<Byte>)
    ensures FirstPoint(Utf8Char(c) + rest) == Some((c as nat, |Utf8Char(c)|))
  {
    var n := c as int;
    if n >= 0x10000 {
      FirstOfWide(c, rest);
    } else if n >= 0x800 {
      FirstOfThree(c, rest);
    }
  }

  lemma FirstOfThree(c: char, rest: seq<Byte>)
    requires 0x800 <= c as int < 0x10000
    ensures FirstPoint(Utf8Char(c) + rest) == Some((c as nat, 3))
  {
    var n := c as int;
    SplitTwo(n);
    SplitTwo(n / 64);
    var b := Utf8Char(c) + rest;
    assert b[0] == 0xE0 + n / 4096 && b[1] == 0x80 + n / 64 % 64 && b[2] == 0x80 + n % 64;
  }

  lemma FirstOfWide(c: char, rest: seq<Byte>)
    requires c as int >= 0x10000
    ensures FirstPoint(Utf8Char(c) + rest) == Some((c as nat, 4))
  {
    var n := c as int;
    SplitTwo(n);
    SplitTwo(n / 64);
    SplitTwo(n / 4096);
    var b := Utf8Char(c) + rest;
    assert b[0] == 0xF0 + n / 262144 && b[1] == 0x80 + n / 4096 % 64 && b[2] == 0x80 + n / 64 % 64
        && b[3] == 0x80 + n % 64;
  }

  // Every string is read back from its bytes.
  lemma {:induction false} Utf8RoundTrip(s: string)
    ensures FromUtf8(Utf8(s)) == Some(s)
  {
    if s != [] {
      FirstOfChar(s[0], Utf8(s[1..]));
      Utf8RoundTrip(s[1..]);
      assert Utf8(s)[|Utf8Char(s[0])|..] == Utf8(s[1..]);
      assert [s[0]] + s[1..] == s;
    }
  }
}
