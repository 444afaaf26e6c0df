/** Binary digits of integers: shifts, two's complement, and addition with carries. */
module Bits {

  function Pow2(n: nat): (r: nat)
    ensures r >= 1
  {
    if n == 0 then 1 else 2 * Pow2(n - 1)
  }

  // Arithmetic shift right: k halvings, rounding down.
  function Shr(x: int, k: nat): (r: int) {
    if k == 0 then x else Shr(x, k - 1) / 2
  }

  function Bit(x: int, k: nat): (r: int)
    ensures r == 0 || r == 1
  {
    Shr(x, k) % 2
  }

  // Halving leaves the quotient by a power of two.
  lemma {:induction false} ShrBetween(x: int, k: nat, m: int)
    requires m * Pow2(k) <= x < (m + 1) * Pow2(k)
    ensures Shr(x, k) == m
  {
    if k > 0 {
      var p := Pow2(k - 1);
      assert m * (2 * p) == (2 * m) * p && (m + 1) * (2 * p) == (2 * m + 2) * p;
      if x < (2 * m + 1) * p {
        ShrBetween(x, k - 1, 2 * m);
      } else {
        ShrBetween(x, k - 1, 2 * m + 1);
      }
    }
  }

  lemma {:induction false} ShrAddPow(x: int, n: nat, k: nat)
    requires k <= n
    ensures Shr(x + Pow2(n), k) == Shr(x, k) + Pow2(n - k)
  {
    if k > 0 {
      ShrAddPow(x, n, k - 1);
    }
  }

  // Adding 2^n leaves the low n bits alone.
  lemma BitAddPow(x: int, n: nat, k: nat)
    requires k < n
    ensures Bit(x + Pow2(n), k) == Bit(x, k)
  {
    ShrAddPow(x, n, k);
    assert Pow2(n - k) == 2 * Pow2(n - k - 1);
  }

  // The carry into position k when x and y are added.
  function Carry(x: int, y: int, k: nat): (c: int) {
    Shr(x + y, k) - Shr(x, k) - Shr(y, k)
  }

  // Carries are bits, and a full adder at each position computes the digits of the sum.
  lemma {:induction false} AdderStep(x: int, y: int, k: nat)
    ensures Carry(x, y, 0) == 0
    ensures Carry(x, y, k) == 0 || Carry(x, y, k) == 1
    ensures Bit(x + y, k) == (Bit(x, k) + Bit(y, k) + Carry(x, y, k)) % 2
    ensures Carry(x, y, k + 1) == (Bit(x, k) + Bit(y, k) + Carry(x, y, k)) / 2
  {
    if k > 0 {
      AdderStep(x, y, k - 1);
    }
    var a, b := Shr(x, k), Shr(y, k);
    assert a == 2 * (a / 2) + Bit(x, k) && b == 2 * (b / 2) + Bit(y, k);
    assert Shr(x + y, k) == a + b + Carry(x, y, k);
  }

  // The borrow into position k when y is subtracted from x.
  function Borrow(x: int, y: int, k: nat): (c: int) {
    Shr(x, k) - Shr(y, k) - Shr(x - y, k)
  }

  // Borrows are bits, and a full subtractor at each position computes the digits of the difference.
  lemma {:induction false} SubtractorStep(x: int, y: int, k: nat)
    ensures Borrow(x, y, 0) == 0
    ensures Borrow(x, y, k) == 0 || Borrow(x, y, k) == 1
    ensures Bit(x - y, k) == (Bit(x, k) - Bit(y, k) - Borrow(x, y, k)) % 2
    ensures Borrow(x, y, k + 1) == if Bit(x, k) < Bit(y, k) + Borrow(x, y, k) then 1 else 0
  {
    if k > 0 {
      SubtractorStep(x, y, k - 1);
    }
    var a, b := Shr(x, k), Shr(y, k);
    assert a == 2 * (a / 2) + Bit(x, k) && b == 2 * (b / 2) + Bit(y, k);
    assert Shr(x - y, k) == a - b - Borrow(x, y, k);
  }

  // The top bit of an (n+1)-bit number says whether it reaches 2^n.
  lemma TopBit(x: int, n: nat)
    requires 0 <= x < Pow2(n + 1)
    ensures Bit(x, n) == 1 <==> x >= Pow2(n)
  {
    if x >= Pow2(n) {
      ShrBetween(x, n, 1);
    } else {
      ShrBetween(x, n, 0);
    }
  }

  lemma {:induction false} Pow2Mono(m: nat, n: nat)
    requires m <= n
    ensures Pow2(m) <= Pow2(n)
  {
    if m < n { Pow2Mono(m, n - 1); }
  }
}
