/** Numbers as bytes: the truncating conversion, kept apart from the byte arithmetic. */
module ByteValues {
  // Counting up from zero wraps after 255, as truncation to a byte does.
  function FromNat(n: nat): (b: bv8) { if n == 0 then 0 else Next(FromNat(n - 1)) }

  function Next(b: bv8): (r: bv8) { b + 1 }

  function Val(b: bv8): (n: int) { b as int }

  lemma NextVal(b: bv8)
    ensures 0 <= Val(b) < 256
    ensures Val(Next(b)) == if Val(b) == 255 then 0 else Val(b) + 1
  {
  }

  lemma ZeroVal(b: bv8)
    ensures Val(b) == 0 <==> b == 0
  {
  }

  lemma {:induction false} FromNatVal(n: nat)
    ensures Val(FromNat(n)) == n % 256
  {
    hide Val, Next;
    if n == 0 {
      ZeroVal(FromNat(n));
    } else {
      FromNatVal(n - 1);
      NextVal(FromNat(n - 1));
    }
  }
}

/** GF(2^8) under the AES polynomial x^8 + x^4 + x^3 + x + 1 (FIPS 197, section 4.2), as a share field.
    Bit-level facts are isolated in lemmas of their own; the algebra above them hides the bit operations. */
module Gf256 {
  import opened Sequences
  import ByteValues
  import opened Fields
  import opened Shamir

  function Xor(a: bv8, b: bv8): (r: bv8) { a ^ b }

  function Half(b: bv8): (r: bv8) { b >> 1 }

  // Multiplication by x, reduced by the polynomial 0x1B.
  function XTime(a: bv8): (r: bv8) { Xor(Shift(a), Reduction(a)) }

  function Shift(a: bv8): (r: bv8) { a << 1 }

  function Reduction(a: bv8): (r: bv8) { if a & 0x80 != 0 then 0x1B else 0 }

  function Bit(b: bv8, a: bv8): (r: bv8) { if b & 1 != 0 then a else 0 }

  // Sum over the low n bits of b of a * x^k.
  function MulBits(a: bv8, b: bv8, n: nat): (r: bv8)
    decreases n
  {
    if n == 0 then 0 else Xor(Bit(b, a), MulBits(XTime(a), Half(b), n - 1))
  }

  function Mul(a: bv8, b: bv8): (r: bv8) { MulBits(a, b, 8) }

  lemma XorLaws(a: bv8, b: bv8, c: bv8)
    ensures Xor(Xor(a, b), c) == Xor(a, Xor(b, c))
    ensures Xor(a, b) == Xor(b, a) && Xor(a, 0) == a && Xor(0, a) == a && Xor(a, a) == 0
  {
  }

  lemma XorInterchange(a: bv8, b: bv8, c: bv8, d: bv8)
    ensures Xor(Xor(a, b), Xor(c, d)) == Xor(Xor(a, c), Xor(b, d))
  {
    hide Xor;
    XorLaws(a, b, Xor(c, d));
    XorLaws(b, c, d);
    XorLaws(c, b, d);
    XorLaws(a, c, Xor(b, d));
  }

  lemma ShiftLinear(a: bv8, b: bv8)
    ensures Shift(Xor(a, b)) == Xor(Shift(a), Shift(b))
  {
  }

  lemma ReductionLinear(a: bv8, b: bv8)
    ensures Reduction(Xor(a, b)) == Xor(Reduction(a), Reduction(b))
  {
  }

  lemma XTimeLinear(a: bv8, b: bv8)
    ensures XTime(Xor(a, b)) == Xor(XTime(a), XTime(b))
  {
    hide Xor, Shift, Reduction;
    ShiftLinear(a, b);
    ReductionLinear(a, b);
    XorInterchange(Shift(a), Shift(b), Reduction(a), Reduction(b));
  }

  lemma BitLinear(a: bv8, b: bv8, c: bv8)
    ensures Bit(Xor(a, b), c) == Xor(Bit(a, c), Bit(b, c))
    ensures Bit(c, Xor(a, b)) == Xor(Bit(c, a), Bit(c, b))
    ensures Half(Xor(a, b)) == Xor(Half(a), Half(b))
  {
  }

  lemma BitXTime(b: bv8, a: bv8)
    ensures XTime(Bit(b, a)) == Bit(b, XTime(a)) && Bit(b, 0) == 0 && Bit(0, a) == 0 && Half(0) == 0 && XTime(0) == 0
  {
  }

  lemma {:induction false} MulZeroBits(a: bv8, b: bv8, n: nat)
    requires a == 0 || b == 0
    ensures MulBits(a, b, n) == 0
    decreases n
  {
    hide Xor, XTime, Bit, Half;
    if n > 0 {
      BitXTime(b, a);
      XorLaws(0, 0, 0);
      MulZeroBits(XTime(a), Half(b), n - 1);
    }
  }

  lemma {:induction false} MulRightLinear(a: bv8, b: bv8, c: bv8, n: nat)
    ensures MulBits(a, Xor(b, c), n) == Xor(MulBits(a, b, n), MulBits(a, c, n))
    decreases n
  {
    hide Xor, XTime, Bit, Half;
    if n == 0 {
      XorLaws(0, 0, 0);
    } else {
      MulRightLinear(XTime(a), Half(b), Half(c), n - 1);
      BitLinear(b, c, a);
      XorInterchange(Bit(b, a), Bit(c, a), MulBits(XTime(a), Half(b), n - 1), MulBits(XTime(a), Half(c), n - 1));
    }
  }

  lemma {:induction false} MulLeftLinear(a: bv8, b: bv8, c: bv8, n: nat)
    ensures MulBits(Xor(a, b), c, n) == Xor(MulBits(a, c, n), MulBits(b, c, n))
    decreases n
  {
    hide Xor, XTime, Bit, Half;
    if n == 0 {
      XorLaws(0, 0, 0);
    } else {
      XTimeLinear(a, b);
      MulLeftLinear(XTime(a), XTime(b), Half(c), n - 1);
      BitLinear(a, b, c);
      XorInterchange(Bit(c, a), Bit(c, b), MulBits(XTime(a), Half(c), n - 1), MulBits(XTime(b), Half(c), n - 1));
    }
  }

  lemma {:induction false} MulXTime(a: bv8, b: bv8, n: nat)
    ensures MulBits(XTime(a), b, n) == XTime(MulBits(a, b, n))
    decreases n
  {
    hide Xor, XTime, Bit, Half;
    BitXTime(b, a);
    if n > 0 {
      MulXTime(XTime(a), Half(b), n - 1);
      XTimeLinear(Bit(b, a), MulBits(XTime(a), Half(b), n - 1));
    }
  }

  lemma MulBit(b: bv8, e: bv8, a: bv8)
    ensures Mul(Bit(b, e), a) == Bit(b, Mul(e, a))
  {
    hide Xor, XTime, Half, MulBits;
    MulZeroBits(0, a, 8);
  }

  // (e b) a == (e a) b, bit by bit of b.
  lemma {:induction false} MulSwap(e: bv8, b: bv8, a: bv8, n: nat)
    ensures Mul(MulBits(e, b, n), a) == MulBits(Mul(e, a), b, n)
    decreases n
  {
    hide Xor, XTime, Bit, Half;
    if n == 0 {
      MulZeroBits(0, a, 8);
    } else {
      var rest := MulBits(XTime(e), Half(b), n - 1);
      MulLeftLinear(Bit(b, e), rest, a, 8);
      MulBit(b, e, a);
      MulSwap(XTime(e), Half(b), a, n - 1);
      MulXTime(e, a, 8);
    }
  }

  lemma MulOneRight(a: bv8)
    ensures Mul(a, 1) == a
  {
    hide Xor, XTime, Bit, Half;
    OneBit(a);
    MulZeroBits(XTime(a), 0, 7);
    XorLaws(a, 0, 0);
  }

  lemma OneBit(a: bv8)
    ensures Bit(1, a) == a && Half(1) == 0
  {
  }

  // The powers x^k for k < 8 are the single bits.
  lemma Powers()
    ensures XTime(1) == 2 && XTime(2) == 4 && XTime(4) == 8 && XTime(8) == 16
    ensures XTime(16) == 32 && XTime(32) == 64 && XTime(64) == 128
  {
  }

  lemma Unroll(a: bv8, b: bv8, n: nat)
    requires 0 < n
    ensures MulBits(a, b, n) == Xor(Bit(b, a), MulBits(XTime(a), Half(b), n - 1))
    ensures MulBits(a, b, 0) == 0
  {
    hide Xor, XTime, Bit, Half;
  }

  lemma MulBitsUnroll(a0: bv8, b: bv8)
    ensures var a1 := XTime(a0); var a2 := XTime(a1); var a3 := XTime(a2); var a4 := XTime(a3);
            var a5 := XTime(a4); var a6 := XTime(a5); var a7 := XTime(a6);
            var b1 := Half(b); var b2 := Half(b1); var b3 := Half(b2); var b4 := Half(b3);
            var b5 := Half(b4); var b6 := Half(b5); var b7 := Half(b6);
            Mul(a0, b) == Xor(Bit(b, a0), Xor(Bit(b1, a1), Xor(Bit(b2, a2), Xor(Bit(b3, a3),
                          Xor(Bit(b4, a4), Xor(Bit(b5, a5), Xor(Bit(b6, a6), Xor(Bit(b7, a7), 0))))))))
  {
    hide Xor, XTime, Bit, Half, MulBits;
    var a1 := XTime(a0); var a2 := XTime(a1); var a3 := XTime(a2); var a4 := XTime(a3);
    var a5 := XTime(a4); var a6 := XTime(a5); var a7 := XTime(a6);
    var b1 := Half(b); var b2 := Half(b1); var b3 := Half(b2); var b4 := Half(b3);
    var b5 := Half(b4); var b6 := Half(b5); var b7 := Half(b6);
    Unroll(a0, b, 8);
    Unroll(a1, b1, 7);
    Unroll(a2, b2, 6);
    Unroll(a3, b3, 5);
    Unroll(a4, b4, 4);
    Unroll(a5, b5, 3);
    Unroll(a6, b6, 2);
    Unroll(a7, b7, 1);
    Unroll(XTime(a7), Half(b7), 1);
  }

  lemma BitsOf(b: bv8)
    ensures var b1 := Half(b); var b2 := Half(b1); var b3 := Half(b2); var b4 := Half(b3);
            var b5 := Half(b4); var b6 := Half(b5); var b7 := Half(b6);
            b == Xor(Bit(b, 1), Xor(Bit(b1, 2), Xor(Bit(b2, 4), Xor(Bit(b3, 8),
                 Xor(Bit(b4, 16), Xor(Bit(b5, 32), Xor(Bit(b6, 64), Xor(Bit(b7, 128), 0))))))))
  {
  }

  lemma MulOneLeft(a: bv8)
    ensures Mul(1, a) == a
  {
    hide Xor, XTime, Bit, Half, MulBits;
    Powers();
    MulBitsUnroll(1, a);
    BitsOf(a);
  }

  lemma MulComm(a: bv8, b: bv8)
    ensures Mul(a, b) == Mul(b, a)
  {
    hide MulBits;
    MulSwap(1, b, a, 8);
    MulOneLeft(a);
    MulOneLeft(b);
  }

  lemma MulAssoc(a: bv8, b: bv8, c: bv8)
    ensures Mul(Mul(a, b), c) == Mul(a, Mul(b, c))
  {
    hide MulBits;
    MulComm(a, b);
    MulSwap(b, a, c, 8);
    MulComm(Mul(b, c), a);
  }

  lemma MulDistrib(a: bv8, b: bv8, c: bv8)
    ensures Mul(a, Xor(b, c)) == Xor(Mul(a, b), Mul(a, c))
  {
    MulRightLinear(a, b, c, 8);
  }

  // ---- inverses ----

  function Power(a: bv8, n: nat): (r: bv8)
    decreases n
  {
    if n == 0 then 1 else Mul(a, Power(a, n - 1))
  }

  lemma {:induction false} PowerAdd(a: bv8, m: nat, n: nat)
    ensures Power(a, m + n) == Mul(Power(a, m), Power(a, n))
    decreases m
  {
    hide Mul;
    if m == 0 {
      MulOneLeft(Power(a, n));
    } else {
      PowerAdd(a, m - 1, n);
      MulAssoc(a, Power(a, m - 1), Power(a, n));
    }
  }

  lemma {:induction false} PowerSquare(a: bv8, n: nat)
    ensures Power(Mul(a, a), n) == Power(a, 2 * n)
    decreases n
  {
    hide Mul;
    if n > 0 {
      PowerSquare(a, n - 1);
      MulAssoc(a, a, Power(a, 2 * n - 2));
      assert Power(a, 2 * n) == Mul(a, Power(a, 2 * n - 1));
    }
  }

  // Squaring is linear in characteristic two.
  lemma SquareLinear(a: bv8, b: bv8)
    ensures Mul(Xor(a, b), Xor(a, b)) == Xor(Mul(a, a), Mul(b, b))
  {
    hide Mul, Xor;
    var s := Xor(a, b);
    MulDistrib(s, a, b);
    MulComm(s, a);
    MulComm(s, b);
    MulDistrib(a, a, b);
    MulDistrib(b, a, b);
    MulComm(a, b);
    var aa, ab, bb := Mul(a, a), Mul(a, b), Mul(b, b);
    XorInterchange(aa, ab, ab, bb);
    XorLaws(aa, ab, bb);
    XorLaws(ab, ab, bb);
    XorLaws(ab, bb, bb);
    XorLaws(aa, bb, bb);
    XorLaws(aa, ab, Xor(ab, bb));
    XorLaws(bb, bb, bb);
  }

  function At(a: bv8, m: bv8, v: bv8): (r: bv8) { if a & m != 0 then v else 0 }

  // Squaring, fourth power and sixteenth power read off the bits of a.
  function SquareMap(a: bv8): (r: bv8) {
    At(a, 0x01, 0x01) ^ At(a, 0x02, 0x04) ^ At(a, 0x04, 0x10) ^ At(a, 0x08, 0x40)
    ^ At(a, 0x10, 0x1B) ^ At(a, 0x20, 0x6C) ^ At(a, 0x40, 0xAB) ^ At(a, 0x80, 0x9A)
  }

  function FourthMap(a: bv8): (r: bv8) {
    At(a, 0x01, 0x01) ^ At(a, 0x02, 0x10) ^ At(a, 0x04, 0x1B) ^ At(a, 0x08, 0xAB)
    ^ At(a, 0x10, 0x5E) ^ At(a, 0x20, 0x97) ^ At(a, 0x40, 0xB3) ^ At(a, 0x80, 0xC5)
  }

  function SixteenthMap(a: bv8): (r: bv8) {
    At(a, 0x01, 0x01) ^ At(a, 0x02, 0x5E) ^ At(a, 0x04, 0xE4) ^ At(a, 0x08, 0xE8)
    ^ At(a, 0x10, 0x4D) ^ At(a, 0x20, 0x91) ^ At(a, 0x40, 0x1D) ^ At(a, 0x80, 0x6C)
  }

  lemma SquareTwice(a: bv8)
    ensures SquareMap(SquareMap(a)) == FourthMap(a)
  {
  }

  lemma FourthTwice(a: bv8)
    ensures FourthMap(FourthMap(a)) == SixteenthMap(a)
  {
  }

  lemma SixteenthTwice(a: bv8)
    ensures SixteenthMap(SixteenthMap(a)) == a
  {
  }

  // Only 0 and 1 are their own squares.
  lemma Idempotent(e: bv8)
    requires SquareMap(e) == e
    ensures e == 0 || e == 1
  {
  }

  lemma SquareMapBits(a: bv8)
    ensures var b1 := Half(a); var b2 := Half(b1); var b3 := Half(b2); var b4 := Half(b3);
            var b5 := Half(b4); var b6 := Half(b5); var b7 := Half(b6);
            SquareMap(a) == Xor(Bit(a, 1), Xor(Bit(b1, 4), Xor(Bit(b2, 16), Xor(Bit(b3, 64),
                            Xor(Bit(b4, 0x1B), Xor(Bit(b5, 0x6C), Xor(Bit(b6, 0xAB), Xor(Bit(b7, 0x9A), 0))))))))
  {
  }

  lemma SquareBit(b: bv8, e: bv8)
    ensures Mul(Bit(b, e), Bit(b, e)) == Bit(b, Mul(e, e))
  {
    hide Xor, XTime, Half, MulBits;
    MulZeroBits(0, 0, 8);
  }

  // Squares of the single bits, by repeated multiplication by x.
  lemma BasisSquares()
    ensures Mul(1, 1) == 1 && Mul(2, 2) == 4 && Mul(4, 4) == 16 && Mul(8, 8) == 64
    ensures Mul(16, 16) == 0x1B && Mul(32, 32) == 0x6C && Mul(64, 64) == 0xAB && Mul(128, 128) == 0x9A
  {
    hide Xor, XTime, Bit, Half;
    Powers();
    PowersAbove();
    forall a: bv8 ensures Mul(1, a) == a { MulOneLeft(a); }
    forall e: bv8, a: bv8 ensures Mul(XTime(e), a) == XTime(Mul(e, a)) { MulXTime(e, a, 8); }
    assert Mul(2, 2) == XTime(Mul(1, 2));
    assert Mul(4, 4) == XTime(XTime(Mul(1, 4)));
    assert Mul(8, 8) == XTime(XTime(XTime(Mul(1, 8))));
    assert Mul(16, 16) == XTime(XTime(XTime(XTime(Mul(1, 16)))));
    assert Mul(32, 32) == XTime(XTime(XTime(XTime(XTime(Mul(1, 32))))));
    assert Mul(64, 64) == XTime(XTime(XTime(XTime(XTime(XTime(Mul(1, 64)))))));
    assert Mul(128, 128) == XTime(XTime(XTime(XTime(XTime(XTime(XTime(Mul(1, 128))))))));
  }

  lemma PowersAbove()
    ensures XTime(128) == 0x1B && XTime(0x1B) == 0x36 && XTime(0x36) == 0x6C && XTime(0x6C) == 0xD8
    ensures XTime(0xD8) == 0xAB && XTime(0xAB) == 0x4D && XTime(0x4D) == 0x9A
  {
  }

  lemma SquareSum(b: bv8, e: bv8, v: bv8, rest: bv8, restSquare: bv8)
    requires Mul(e, e) == v && Mul(rest, rest) == restSquare
    ensures Mul(Xor(Bit(b, e), rest), Xor(Bit(b, e), rest)) == Xor(Bit(b, v), restSquare)
  {
    hide Xor, Bit, Mul;
    SquareLinear(Bit(b, e), rest);
    SquareBit(b, e);
  }

  lemma SquareIsMap(a: bv8)
    ensures Mul(a, a) == SquareMap(a)
  {
    hide Xor, XTime, Bit, Half, Mul, SquareMap;
    var b1 := Half(a); var b2 := Half(b1); var b3 := Half(b2); var b4 := Half(b3);
    var b5 := Half(b4); var b6 := Half(b5); var b7 := Half(b6);
    BasisSquares();
    BitsOf(a);
    SquareMapBits(a);
    var t7 := Xor(Bit(b7, 128), 0);
    var t6 := Xor(Bit(b6, 64), t7);
    var t5 := Xor(Bit(b5, 32), t6);
    var t4 := Xor(Bit(b4, 16), t5);
    var t3 := Xor(Bit(b3, 8), t4);
    var t2 := Xor(Bit(b2, 4), t3);
    var t1 := Xor(Bit(b1, 2), t2);
    MulOneRight(0);
    MulOfZero();
    SquareSum(b7, 128, 0x9A, 0, 0);
    SquareSum(b6, 64, 0xAB, t7, Mul(t7, t7));
    SquareSum(b5, 32, 0x6C, t6, Mul(t6, t6));
    SquareSum(b4, 16, 0x1B, t5, Mul(t5, t5));
    SquareSum(b3, 8, 64, t4, Mul(t4, t4));
    SquareSum(b2, 4, 16, t3, Mul(t3, t3));
    SquareSum(b1, 2, 4, t2, Mul(t2, t2));
    SquareSum(a, 1, 1, t1, Mul(t1, t1));
  }

  lemma MulOfZero()
    ensures forall a: bv8 :: Mul(0, a) == 0 && Mul(a, 0) == 0
  {
    hide Xor, XTime, Bit, Half;
    forall a: bv8 ensures Mul(0, a) == 0 && Mul(a, 0) == 0 {
      MulZeroBits(0, a, 8);
      MulZeroBits(a, 0, 8);
    }
  }

  lemma PowerOne(a: bv8)
    ensures Power(a, 1) == a
  {
    hide Mul;
    MulOneRight(a);
    assert Power(a, 0) == 1;
  }

  // Every element is its own 256th power.
  lemma Frobenius(a: bv8)
    ensures Power(a, 256) == a
  {
    hide Mul, SquareMap, FourthMap, SixteenthMap, Power;
    var s1 := Mul(a, a); var s2 := Mul(s1, s1); var s3 := Mul(s2, s2); var s4 := Mul(s3, s3);
    var s5 := Mul(s4, s4); var s6 := Mul(s5, s5); var s7 := Mul(s6, s6); var s8 := Mul(s7, s7);
    PowerSquare(a, 128); PowerSquare(s1, 64); PowerSquare(s2, 32); PowerSquare(s3, 16);
    PowerSquare(s4, 8); PowerSquare(s5, 4); PowerSquare(s6, 2); PowerSquare(s7, 1);
    PowerOne(s8);
    SquareIsMap(a); SquareIsMap(s1); SquareIsMap(s2); SquareIsMap(s3);
    SquareIsMap(s4); SquareIsMap(s5); SquareIsMap(s6); SquareIsMap(s7);
    SquareTwice(a); SquareTwice(s2); SquareTwice(s4); SquareTwice(s6);
    FourthTwice(a); FourthTwice(s4);
    SixteenthTwice(a);
  }

  // a^254 inverts every nonzero a: e = a^255 is its own square and keeps a, so it is 1.
  lemma InverseLaw(a: bv8)
    requires a != 0
    ensures Mul(a, Power(a, 254)) == 1
  {
    hide Mul, SquareMap, Power;
    var i := Power(a, 254);
    var e := Mul(a, i);
    PowerOne(a);
    PowerAdd(a, 1, 254);
    PowerAdd(a, 255, 1);
    Frobenius(a);
    assert Mul(e, a) == a;
    MulAssoc(e, a, i);
    assert Mul(e, e) == e;
    SquareIsMap(e);
    Idempotent(e);
    MulOfZero();
  }

  function Inv(a: bv8): (r: bv8) { Power(a, 254) }

  // The bits of b at position n and above are clear.
  predicate Fits(b: bv8, n: nat) {
    match n
    case 0 => b == 0
    case 1 => b & 0xFE == 0
    case 2 => b & 0xFC == 0
    case 3 => b & 0xF8 == 0
    case 4 => b & 0xF0 == 0
    case 5 => b & 0xE0 == 0
    case 6 => b & 0xC0 == 0
    case 7 => b & 0x80 == 0
    case _ => true
  }

  lemma HalfFits(b: bv8, n: nat)
    requires 0 < n <= 8 && Fits(b, n)
    ensures Fits(Half(b), n - 1)
  {
  }

  lemma LoopBody(p: bv8, a: bv8, b: bv8, n: nat)
    requires 0 < n
    ensures Xor(p, MulBits(a, b, n)) == Xor(Xor(p, Bit(b, a)), MulBits(XTime(a), Half(b), n - 1))
  {
    hide Xor, XTime, Half, Bit;
    XorLaws(p, Bit(b, a), MulBits(XTime(a), Half(b), n - 1));
  }

  // The shift-and-accumulate loop; it stops as soon as either operand is used up.
  method MulLoop(a0: bv8, b0: bv8) returns (p: bv8)
    ensures p == Mul(a0, b0)
  {
    hide Fits, MulBits, Xor, XTime, Bit, Half;
    var a, b := a0, b0;
    p := 0;
    ghost var n := 8;
    assert Fits(b, 8) by { AllFit(b); }
    XorLaws(MulBits(a, b, n), 0, 0);
    while a != 0 && b != 0
      invariant 0 <= n <= 8 && Fits(b, n)
      invariant Xor(p, MulBits(a, b, n)) == Mul(a0, b0)
      decreases n
    {
      NoneFit(b, n);
      LoopBody(p, a, b, n);
      HalfFits(b, n);
      LoopUpdates(p, a, b);
      if b & 1 != 0 {
        p := p ^ a;
      }
      var high := a & 0x80;
      a := a << 1;
      if high != 0 {
        a := a ^ 0x1B;
      }
      b := b >> 1;
      n := n - 1;
    }
    MulZeroBits(a, b, n);
    XorLaws(p, 0, 0);
  }

  lemma AllFit(b: bv8)
    ensures Fits(b, 8)
  {
  }

  lemma NoneFit(b: bv8, n: nat)
    requires b != 0 && Fits(b, n)
    ensures n > 0
  {
  }

  // The three updates of the multiplication loop.
  lemma LoopUpdates(p: bv8, a: bv8, b: bv8)
    ensures Xor(p, Bit(b, a)) == if b & 1 != 0 then p ^ a else p
    ensures XTime(a) == if a & 0x80 != 0 then (a << 1) ^ 0x1B else a << 1
    ensures Half(b) == b >> 1
  {
  }

  // Square-and-multiply.
  method PowLoop(base0: bv8, exp0: nat) returns (result: bv8)
    ensures result == Power(base0, exp0)
  {
    hide Mul, Power;
    var base, exp := base0, exp0;
    result := 1;
    MulOneLeft(Power(base, exp));
    while exp > 0
      invariant Mul(result, Power(base, exp)) == Power(base0, exp0)
    {
      PowerSquare(base, exp / 2);
      if exp % 2 == 1 {
        PowerOne(base);
        PowerAdd(base, 1, exp - 1);
        MulAssoc(result, base, Power(base, exp - 1));
        result := MulLoop(result, base);
      }
      base := MulLoop(base, base);
      exp := exp / 2;
    }
    PowerZero(base);
    MulOneRight(result);
  }

  lemma PowerZero(a: bv8)
    ensures Power(a, 0) == 1
  {
  }

  function Gf(): (F: Field<bv8>) {
    Field(
      (x: bv8) => true,
      0,
      1,
      (a: bv8, b: bv8) => Xor(a, b),
      (a: bv8) => a,
      (a: bv8, b: bv8) => Mul(a, b),
      (a: bv8) => Inv(a),
      (n: nat) => ByteValues.FromNat(n))
  }

  // The byte arithmetic is a field of characteristic two.
  lemma GfLaws()
    ensures Laws(Gf())
    ensures forall a {:trigger Gf().neg(a)} :: Gf().neg(a) == a
  {
    hide Mul, Xor, Inv;
    var F := Gf();
    assert Commutes(F) by {
      forall a: bv8, b: bv8 {:trigger Use2(a, b)} ensures Xor(a, b) == Xor(b, a) && Mul(a, b) == Mul(b, a) {
        XorLaws(a, b, 0);
        MulComm(a, b);
      }
    }
    assert Associates(F) by {
      forall a: bv8, b: bv8, c: bv8 {:trigger Use3(a, b, c)}
        ensures Xor(Xor(a, b), c) == Xor(a, Xor(b, c)) && Mul(Mul(a, b), c) == Mul(a, Mul(b, c))
        ensures Mul(a, Xor(b, c)) == Xor(Mul(a, b), Mul(a, c))
      {
        XorLaws(a, b, c);
        MulAssoc(a, b, c);
        MulDistrib(a, b, c);
      }
    }
    assert HasUnits(F) by {
      forall a: bv8 ensures Xor(a, 0) == a && Xor(a, a) == 0 { XorLaws(a, 0, 0); }
      forall a: bv8 ensures Mul(a, 1) == a { MulOneRight(a); }
      forall a: bv8 | a != 0 ensures Mul(a, Inv(a)) == 1 { InverseIs(a); }
    }
  }

  lemma InverseIs(a: bv8)
    requires a != 0
    ensures Mul(a, Inv(a)) == 1
  {
    hide Mul, Power;
    InverseLaw(a);
  }

  // A committee over the byte field has distinct nonzero points exactly up to 255 members: the
  // 256th point wraps to zero, and the 257th repeats the first.
  lemma GfPoints(n: nat)
    ensures Distinct(EvaluationPoints(Gf(), n)) && 0 !in EvaluationPoints(Gf(), n) <==> n <= 255
  {
    hide Mul, Xor, Inv, ByteValues.Val, ByteValues.FromNat;
    var pts := EvaluationPoints(Gf(), n);
    if n <= 255 {
      forall i, j | 0 <= i < j < n ensures pts[i] != pts[j] {
        ByteValues.FromNatVal(i + 1);
        ByteValues.FromNatVal(j + 1);
      }
      forall i | 0 <= i < n ensures pts[i] != 0 {
        ByteValues.FromNatVal(i + 1);
        ByteValues.ZeroVal(pts[i]);
      }
    } else {
      ByteValues.FromNatVal(256);
      ByteValues.ZeroVal(pts[255]);
    }
  }
}
