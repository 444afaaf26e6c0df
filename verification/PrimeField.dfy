/** Arithmetic modulo a prime, with inverses by extended Euclid, as a share field. */
module PrimeField {
  import opened Sequences
  import opened Fields
  import opened Shamir

  predicate Divides(d: int, n: int)
    requires d != 0
  {
    n % d == 0
  }

  ghost predicate Prime(q: int) {
    2 <= q && forall d :: 2 <= d < q ==> !Divides(d, q)
  }

  lemma ModUnique(v: int, d: int, r: int, q: int)
    requires 0 <= r < q && v == q * d + r
    ensures v % q == r
  {
    var e := v / q - d;
    assert v == q * (v / q) + v % q;
    assert q * e == r - v % q by {
      assert q * e == q * (v / q) - q * d;
    }
    MulSigns(q, e);
  }

  lemma MulSigns(q: int, e: int)
    requires 0 < q
    ensures e >= 1 ==> q * e >= q
    ensures e <= -1 ==> q * e <= -q
    ensures q * e < q ==> e <= 0
  {
  }

  // Numbers that differ by a multiple of q have the same residue.
  lemma ModShift(u: int, v: int, k: int, q: int)
    requires 0 < q && u == v + k * q
    ensures u % q == v % q
  {
    assert v == q * (v / q) + v % q;
    assert u == q * (v / q + k) + v % q by {
      assert q * (v / q + k) == q * (v / q) + k * q;
    }
    ModUnique(u, v / q + k, v % q, q);
  }

  lemma ModSmall(v: int, q: int)
    requires 0 <= v < q
    ensures v % q == v
  {
    ModUnique(v, 0, v, q);
  }

  lemma ModAdd(x: int, y: int, q: int)
    requires 0 < q
    ensures (x % q + y) % q == (x + y) % q && (x + y % q) % q == (x + y) % q
  {
    assert x == q * (x / q) + x % q && y == q * (y / q) + y % q;
    ModShift(x + y, x % q + y, x / q, q);
    ModShift(x + y, x + y % q, y / q, q);
  }

  lemma ModMul(x: int, y: int, q: int)
    requires 0 < q
    ensures ((x % q) * y) % q == (x * y) % q && (x * (y % q)) % q == (x * y) % q
  {
    assert x == q * (x / q) + x % q && y == q * (y / q) + y % q;
    assert x * y == (x % q) * y + ((x / q) * y) * q by {
      assert (q * (x / q)) * y == ((x / q) * y) * q;
    }
    ModShift(x * y, (x % q) * y, (x / q) * y, q);
    assert x * y == x * (y % q) + (x * (y / q)) * q by {
      assert x * (q * (y / q)) == (x * (y / q)) * q;
    }
    ModShift(x * y, x * (y % q), x * (y / q), q);
  }

  // The values of t and r when the extended Euclid loop ends.
  function Euclid(t: int, newT: int, r: nat, newR: nat): (res: (int, nat))
    decreases newR
  {
    if newR == 0 then (t, r)
    else
      assert r - (r / newR) * newR == r % newR;
      Euclid(newT, t - (r / newR) * newT, newR, r - (r / newR) * newR)
  }

  function Abs(x: int): (r: nat) { if x < 0 then -x else x }

  // What every iteration of the loop keeps: both pairs are Bezout rows modulo q (c and newC are
  // the witnesses), the coefficients alternate in sign, and their weighted magnitudes sum to q.
  ghost predicate EuclidInv(a: int, q: int, t: int, newT: int, r: int, newR: int, c: int, newC: int) {
    && 0 <= newR < r <= q
    && (r < q || 0 < newR)
    && t * a - r == c * q
    && newT * a - newR == newC * q
    && (t <= 0 <= newT || newT <= 0 <= t)
    && Abs(t) * newR + Abs(newT) * r == q
  }

  lemma EuclidStep(a: int, q: int, t: int, newT: int, r: int, newR: int, c: int, newC: int, k: int, m: int)
    requires EuclidInv(a, q, t, newT, r, newR, c, newC) && newR != 0
    requires r == k * newR + m && 0 <= m < newR
    ensures EuclidInv(a, q, newT, t - k * newT, newR, m, newC, c - k * newC)
    ensures 0 < k && k * newR <= r && Abs(k * newT) <= q
  {
    MulSigns(newR, k);
    assert k * newR == newR * k;
    BezoutStep(a, q, t, newT, r, newR, c, newC, k);
    SignedStep(t, newT, k);
    MagnitudeStep(Abs(t), Abs(newT), r, newR, k, q);
  }

  lemma BezoutStep(a: int, q: int, t: int, newT: int, r: int, newR: int, c: int, newC: int, k: int)
    requires t * a - r == c * q && newT * a - newR == newC * q
    ensures (t - k * newT) * a - (r - k * newR) == (c - k * newC) * q
  {
    assert (t - k * newT) * a == t * a - k * (newT * a);
    assert (c - k * newC) * q == c * q - k * (newC * q);
    assert k * (newT * a - newR) == k * (newT * a) - k * newR;
  }

  lemma MagnitudeStep(x: nat, y: nat, r: int, newR: int, k: int, q: int)
    requires x * newR + y * r == q && 0 < newR && 0 < k && k * newR <= r
    ensures y * (r - k * newR) + (x + k * y) * newR == q
    ensures k * y <= q
  {
    assert y * (r - k * newR) == y * r - y * (k * newR);
    assert (x + k * y) * newR == x * newR + (k * y) * newR;
    assert (k * y) * newR == y * (k * newR);
    assert 0 <= x * newR;
    assert y * (k * newR) <= y * r by { MulMono(y, k * newR, r); }
    MulGrows(k * y, newR);
  }

  lemma MulMono(y: nat, m: int, n: int)
    requires m <= n
    ensures y * m <= y * n
  {
  }

  lemma MulGrows(x: nat, n: nat)
    requires n >= 1
    ensures x <= x * n
  {
    assert x * n == x + x * (n - 1);
  }

  lemma SignedStep(t: int, newT: int, k: int)
    requires (t <= 0 <= newT || newT <= 0 <= t) && 0 < k
    ensures Abs(t - k * newT) == Abs(t) + k * Abs(newT) && Abs(k * newT) == k * Abs(newT)
    ensures newT <= 0 <= t - k * newT || t - k * newT <= 0 <= newT
  {
    if newT >= 0 { assert k * newT >= 0; } else { assert k * newT <= 0; assert k * (-newT) == -(k * newT); }
  }

  // Magnitudes of the coefficients never exceed q.
  lemma EuclidBounds(a: int, q: int, t: int, newT: int, r: int, newR: int, c: int, newC: int)
    requires EuclidInv(a, q, t, newT, r, newR, c, newC)
    ensures Abs(newT) <= q
    ensures newR > 0 ==> Abs(t) <= q
  {
    MulGrows(Abs(newT), r);
    assert Abs(t) * newR >= 0;
    if newR > 0 {
      MulGrows(Abs(t), newR);
    }
  }

  // When the loop ends, r is 1, and t lies strictly between -q and q and inverts a.
  lemma EuclidExit(a: int, q: int, t: int, newT: int, r: int, c: int, newC: int)
    requires Prime(q) && 0 < a < q && EuclidInv(a, q, t, newT, r, 0, c, newC) && Abs(t) <= q
    ensures r == 1 && -q < t < q
    ensures (t * a) % q == 1
  {
    assert Abs(newT) * r == q;
    if r >= 2 {
      ModUnique(q, Abs(newT), 0, r);
      assert Divides(r, q);
      assert false;
    }
    assert t * a == q * c + 1;
    ModUnique(t * a, c, 1, q);
    if Abs(t) == q {
      var m := if t == q then a else -a;
      assert t * a == q * m;
      ModUnique(t * a, m, 0, q);
      assert false;
    }
  }

  lemma EuclidUnfold(t: int, newT: int, r: nat, newR: nat, k: nat, m: nat)
    requires newR != 0 && r == k * newR + m && m < newR
    ensures Euclid(t, newT, r, newR) == Euclid(newT, t - k * newT, newR, m)
  {
    assert newR * k == k * newR;
    ModUnique(r, k, m, newR);
    assert newR * (r / newR) + m == r;
    MulSigns(newR, k - r / newR);
    assert newR * (k - r / newR) == newR * k - newR * (r / newR) == 0;
    MulSigns(newR, r / newR - k);
    assert r / newR == k;
  }

  lemma EuclidNext(a: int, q: int, t: int, newT: int, r: nat, newR: nat, c: int, newC: int) returns (k: nat, m: nat)
    requires EuclidInv(a, q, t, newT, r, newR, c, newC) && newR != 0
    ensures m < newR && Abs(newT) <= q
    ensures EuclidInv(a, q, newT, t - k * newT, newR, m, newC, c - k * newC)
    ensures Euclid(t, newT, r, newR) == Euclid(newT, t - k * newT, newR, m)
  {
    k, m := r / newR, r % newR;
    assert r == k * newR + m;
    EuclidUnfold(t, newT, r, newR, k, m);
    EuclidStep(a, q, t, newT, r, newR, c, newC, k, m);
    EuclidBounds(a, q, t, newT, r, newR, c, newC);
  }

  lemma {:induction false} EuclidCorrect(a: int, q: int, t: int, newT: int, r: nat, newR: nat, c: int, newC: int)
    requires Prime(q) && 0 < a < q && EuclidInv(a, q, t, newT, r, newR, c, newC) && Abs(t) <= q
    ensures var e := Euclid(t, newT, r, newR); e.1 == 1 && -q < e.0 < q && (e.0 * a) % q == 1
    decreases newR
  {
    if newR == 0 {
      EuclidExit(a, q, t, newT, r, c, newC);
    } else {
      var k, m := EuclidNext(a, q, t, newT, r, newR, c, newC);
      EuclidCorrect(a, q, newT, t - k * newT, newR, m, newC, c - k * newC);
    }
  }

  // The inverse computed by the loop: one correction by q makes the coefficient non-negative.
  function Inverse(a: int, q: int): (r: int)
    requires 1 < q
  {
    if 0 < a < q then
      var t := Euclid(0, 1, q, a).0;
      (if t < 0 then t + q else t) % q
    else 0
  }

  lemma InverseCorrect(a: int, q: int)
    requires Prime(q) && 0 < a < q
    ensures 0 <= Inverse(a, q) < q
    ensures (a * Inverse(a, q)) % q == 1
  {
    assert EuclidInv(a, q, 0, 1, q, a, -1, 0);
    EuclidCorrect(a, q, 0, 1, q, a, -1, 0);
    var t := Euclid(0, 1, q, a).0;
    if t < 0 {
      assert (t + q) * a == t * a + a * q;
      ModShift((t + q) * a, t * a, a, q);
      ModSmall(t + q, q);
      assert a * (t + q) == (t + q) * a;
    } else {
      ModSmall(t, q);
      assert a * t == t * a;
    }
  }

  function Zq(q: int): (F: Field<int>)
    requires 1 < q
  {
    Field(
      (x: int) => 0 <= x < q,
      0,
      1,
      (a: int, b: int) => (a + b) % q,
      (a: int) => (q - a) % q,
      (a: int, b: int) => (a * b) % q,
      (a: int) => Inverse(a, q),
      (n: nat) => n % q)
  }

  lemma ZqSub(q: int, x: int, y: int)
    requires 1 < q
    ensures Sub(Zq(q), x, y) == (x + q - y) % q == (x - y) % q
  {
    ModAdd(x, q - y, q);
    ModShift(x + q - y, x - y, 1, q);
  }

  lemma ZqTriples(q: int, a: int, b: int, c: int)
    requires 1 < q
    ensures ((a + b) % q + c) % q == (a + (b + c) % q) % q
    ensures ((a * b) % q * c) % q == (a * ((b * c) % q)) % q
    ensures (a * ((b + c) % q)) % q == ((a * b) % q + (a * c) % q) % q
  {
    ModAdd(a + b, c, q);
    ModAdd(a, b + c, q);
    ModMul(a * b, c, q);
    ModMul(a, b * c, q);
    assert (a * b) * c == a * (b * c);
    ModMul(a, b + c, q);
    ModAdd(a * b, (a * c) % q, q);
    ModAdd(a * b, a * c, q);
    assert a * (b + c) == a * b + a * c;
  }

  lemma ZqUnits(q: int, a: int)
    requires 1 < q && 0 <= a < q
    ensures (a + 0) % q == a && (a * 1) % q == a && (a + (q - a) % q) % q == 0
  {
    ModSmall(a, q);
    ModAdd(a, q - a, q);
    ModShift(q, 0, 1, q);
  }

  lemma ZqClosed(q: int)
    requires Prime(q)
    ensures Closed(Zq(q))
  {
    var F := Zq(q);
    forall a | F.elem(a) && a != F.zero ensures F.elem(F.inv(a)) {
      InverseCorrect(a, q);
    }
  }

  lemma ZqCommutes(q: int)
    requires 1 < q
    ensures Commutes(Zq(q))
  {
    forall a: int, b: int {:trigger Use2(a, b)}
      ensures (a + b) % q == (b + a) % q && (a * b) % q == (b * a) % q
    {
      assert a * b == b * a;
    }
  }

  lemma ZqAssociates(q: int)
    requires 1 < q
    ensures Associates(Zq(q))
  {
    forall a: int, b: int, c: int {:trigger Use3(a, b, c)}
      ensures ((a + b) % q + c) % q == (a + (b + c) % q) % q
      ensures ((a * b) % q * c) % q == (a * ((b * c) % q)) % q
      ensures (a * ((b + c) % q)) % q == ((a * b) % q + (a * c) % q) % q
    {
      ZqTriples(q, a, b, c);
    }
  }

  lemma ZqHasUnits(q: int)
    requires Prime(q)
    ensures HasUnits(Zq(q))
  {
    var F := Zq(q);
    forall a | F.elem(a) ensures F.add(a, F.zero) == a { ZqUnits(q, a); }
    forall a | F.elem(a) ensures F.mul(a, F.one) == a { ZqUnits(q, a); }
    forall a | F.elem(a) ensures F.add(a, F.neg(a)) == F.zero { ZqUnits(q, a); }
    forall a | F.elem(a) && a != F.zero ensures F.mul(a, F.inv(a)) == F.one { InverseCorrect(a, q); }
  }

  // Arithmetic modulo a prime is a field.
  lemma ZqLaws(q: int)
    requires Prime(q)
    ensures Laws(Zq(q))
  {
    ZqClosed(q);
    ZqCommutes(q);
    ZqAssociates(q);
    ZqHasUnits(q);
  }

  // 1..n are distinct and nonzero modulo q exactly when n < q.
  lemma ZqPoints(q: int, n: nat)
    requires 1 < q
    ensures Distinct(EvaluationPoints(Zq(q), n)) && 0 !in EvaluationPoints(Zq(q), n) <==> n < q
  {
    var pts := EvaluationPoints(Zq(q), n);
    if n < q {
      forall i | 0 <= i < n ensures pts[i] == i + 1 {
        ModSmall(i + 1, q);
      }
    } else {
      ModShift(q, 0, 1, q);
      assert pts[q - 1] == 0;
    }
  }
}
