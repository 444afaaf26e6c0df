/** The runtime-modulus field on machine integers, and Shamir sharing over it.
    Every intermediate is checked to fit the width the implementation uses. */
module DynamicField {
  import opened Sequences
  import opened Fields
  import opened Polynomials
  import opened Interpolation
  import opened PrimeField
  import opened Shamir

  newtype u64 = x: int | 0 <= x < 0x1_0000_0000_0000_0000
  newtype u128 = x: int | 0 <= x < 0x1_0000_0000_0000_0000_0000_0000_0000_0000
  newtype i128 = x: int | -0x8000_0000_0000_0000_0000_0000_0000_0000 <= x < 0x8000_0000_0000_0000_0000_0000_0000_0000

  const MODULUS_BOUND: u64 := 0x1000_0000_0000_0000 // 2^60

  // A modulus the implementation supports.
  predicate Modulus(q: u64) { 1 < q < MODULUS_BOUND }

  datatype DynField = DynField(value: u64, q: u64) {
    predicate Valid() { Modulus(q) && value < q }

    function Int(): (r: int) { value as int }

    // Two elements of one field.
    predicate Matches(o: DynField) { Valid() && o.Valid() && q == o.q }

    static function New(value: u64, q: u64): (r: DynField)
      requires Modulus(q)
      ensures r.Valid() && r.q == q && r.Int() == value as int % q as int
    {
      DynField(value % q, q)
    }

    function Add(o: DynField): (r: DynField)
      requires Matches(o)
      ensures r.Valid() && r.q == q && r.Int() == Zq(q as int).add(Int(), o.Int())
    {
      New(value + o.value, q)
    }

    function Sub(o: DynField): (r: DynField)
      requires Matches(o)
      ensures r.Valid() && r.q == q && r.Int() == Fields.Sub(Zq(q as int), Int(), o.Int())
    {
      ZqSub(q as int, Int(), o.Int());
      New(value + q - o.value, q)
    }

    function Neg(): (r: DynField)
      requires Valid()
      ensures r.Valid() && r.q == q && r.Int() == Zq(q as int).neg(Int())
    {
      New(q - value, q)
    }

    function Mul(o: DynField): (r: DynField)
      requires Matches(o)
      ensures r.Valid() && r.q == q && r.Int() == Zq(q as int).mul(Int(), o.Int())
    {
      ProductFits(Int(), o.Int());
      var m := (value as u128 * o.value as u128) % q as u128;
      ModSmall(m as int, q as int);
      New(m as u64, q)
    }

    method Inv() returns (r: DynField)
      requires Valid() && Prime(q as int)
      ensures r.Valid() && r.q == q && r.Int() == Zq(q as int).inv(Int())
    {
      var t: i128, newT: i128, r', newR: i128 := 0, 1, q as i128, value as i128;
      ghost var c: int, newC: int := -1, 0;
      ghost var a, m := Int(), q as int;
      while newR != 0
        invariant 0 <= newR <= r' <= q as i128
        invariant -(m as i128) <= t <= m as i128
        invariant Euclid(t as int, newT as int, r' as int, newR as int) == Euclid(0, 1, m, a)
        invariant a != 0 ==> EuclidInv(a, m, t as int, newT as int, r' as int, newR as int, c, newC)
        invariant a == 0 ==> t == 0 && newR == 0
        decreases newR
      {
        var quotient := r' / newR;
        ghost var k, rest := LoopStep(a, m, t as int, newT as int, r' as int, newR as int, c, newC);
        t, newT := newT, t - quotient * newT;
        r', newR := newR, r' - quotient * newR;
        c, newC := newC, c - k * newC;
      }
      if a != 0 {
        EuclidExit(a, m, t as int, newT as int, r' as int, c, newC);
      }
      if t < 0 {
        t := t + q as i128;
      }
      r := New(t as u64, q);
    }

    method Div(o: DynField) returns (r: DynField)
      requires Matches(o) && Prime(q as int)
      ensures r.Valid() && r.q == q && r.Int() == Fields.Div(Zq(q as int), Int(), o.Int())
    {
      var i := o.Inv();
      r := Mul(i);
    }
  }

  lemma ProductFits(x: int, y: int)
    requires 0 <= x < MODULUS_BOUND as int && 0 <= y < MODULUS_BOUND as int
    ensures 0 <= x * y < 0x1_0000_0000_0000_0000_0000_0000_0000_0000
  {
    MulMono(x, y, 0x1000_0000_0000_0000);
  }

  // One pass of the loop body, with the bounds that keep it inside i128.
  lemma LoopStep(a: int, q: int, t: int, newT: int, r: nat, newR: nat, c: int, newC: int) returns (k: nat, m: nat)
    requires EuclidInv(a, q, t, newT, r, newR, c, newC) && newR != 0 && Abs(t) <= q
    ensures k == r / newR && m == r - k * newR && m < newR && k * newR <= r
    ensures Abs(newT) <= q && Abs(k * newT) <= q
    ensures EuclidInv(a, q, newT, t - k * newT, newR, m, newC, c - k * newC)
    ensures Euclid(t, newT, r, newR) == Euclid(newT, t - k * newT, newR, m)
  {
    k, m := r / newR, r % newR;
    assert r == k * newR + m;
    EuclidUnfold(t, newT, r, newR, k, m);
    EuclidStep(a, q, t, newT, r, newR, c, newC, k, m);
    EuclidBounds(a, q, t, newT, r, newR, c, newC);
  }

  datatype DynShare = DynShare(point: DynField, value: DynField) {
    predicate Valid(q: u64) { point.Valid() && value.Valid() && point.q == q && value.q == q }
  }

  // The residues behind a list of elements.
  function Ints(xs: seq<DynField>): (r: seq<int>)
    ensures |r| == |xs|
  {
    seq(|xs|, i requires 0 <= i < |xs| => xs[i].Int())
  }

  function PointInts(sh: seq<DynShare>): (r: seq<int>)
    ensures |r| == |sh|
  {
    seq(|sh|, i requires 0 <= i < |sh| => sh[i].point.Int())
  }

  function ValueInts(sh: seq<DynShare>): (r: seq<int>)
    ensures |r| == |sh|
  {
    seq(|sh|, i requires 0 <= i < |sh| => sh[i].value.Int())
  }

  ghost predicate AllValid(xs: seq<DynField>, q: u64) {
    forall i :: 0 <= i < |xs| ==> xs[i].Valid() && xs[i].q == q
  }

  function EvalPoints(q: u64, n: nat): (pts: seq<DynField>)
    requires Modulus(q) && n < U64_LIMIT
    ensures |pts| == n && AllValid(pts, q)
    ensures Ints(pts) == EvaluationPoints(Zq(q as int), n)
  {
    var pts := seq(n, i requires 0 <= i < n => DynField.New((i + 1) as u64, q));
    assert Ints(pts) == EvaluationPoints(Zq(q as int), n);
    pts
  }

  const U64_LIMIT: int := 0x1_0000_0000_0000_0000

  method EvalPoly(coeffs: seq<DynField>, x: DynField) returns (acc: DynField)
    requires x.Valid() && AllValid(coeffs, x.q)
    ensures acc.Valid() && acc.q == x.q
    ensures acc.Int() == Eval(Zq(x.q as int), Ints(coeffs), x.Int())
  {
    acc := DynField(0, x.q);
    var i := |coeffs|;
    assert Ints(coeffs)[i..] == [];
    while i > 0
      invariant 0 <= i <= |coeffs|
      invariant acc.Valid() && acc.q == x.q
      invariant acc.Int() == Eval(Zq(x.q as int), Ints(coeffs)[i..], x.Int())
    {
      i := i - 1;
      assert Ints(coeffs)[i..] == [coeffs[i].Int()] + Ints(coeffs)[i + 1..];
      acc := acc.Mul(x).Add(coeffs[i]);
    }
    assert Ints(coeffs)[0..] == Ints(coeffs);
  }

  // The residues of the random words drawn for the coefficients.
  function Coins(q: u64, words: seq<u64>): (r: seq<int>)
    requires Modulus(q)
    ensures |r| == |words|
  {
    seq(|words|, i requires 0 <= i < |words| => words[i] as int % q as int)
  }

  method SplitDyn(secret: DynField, threshold: nat, points: seq<DynField>, words: seq<u64>)
    returns (shares: seq<DynShare>)
    requires secret.Valid() && AllValid(points, secret.q) && |words| == threshold
    ensures |shares| == |points|
    ensures forall i :: 0 <= i < |shares| ==> shares[i].Valid(secret.q)
    ensures PointInts(shares) == Ints(points)
    ensures forall i :: 0 <= i < |shares| ==>
      ValueInts(shares)[i] == Eval(Zq(secret.q as int), [secret.Int()] + Coins(secret.q, words), Ints(points)[i])
  {
    var q := secret.q;
    var coeffs := [secret];
    for i := 0 to threshold
      invariant |coeffs| == i + 1 && AllValid(coeffs, q)
      invariant coeffs[0] == secret
      invariant forall k :: 0 <= k < i ==> coeffs[k + 1].Int() == Coins(q, words)[k]
    {
      coeffs := coeffs + [DynField.New(words[i], q)];
    }
    assert Ints(coeffs) == [secret.Int()] + Coins(q, words);
    shares := [];
    for i := 0 to |points|
      invariant |shares| == i
      invariant forall k :: 0 <= k < i ==> shares[k].Valid(q) && shares[k].point == points[k]
      invariant forall k :: 0 <= k < i ==>
        shares[k].value.Int() == Eval(Zq(q as int), Ints(coeffs), points[k].Int())
    {
      var v := EvalPoly(coeffs, points[i]);
      shares := shares + [DynShare(points[i], v)];
    }
  }

  // The inner loop of reconstruction: the Lagrange coefficient of point i at zero. A repeated
  // point gives a zero denominator, whose inverse the Euclid loop takes to be zero.
  method Coefficient(points: seq<DynField>, i: nat) returns (li: DynField)
    requires i < |points| && AllValid(points, points[i].q) && Prime(points[i].q as int)
    ensures li.Valid() && li.q == points[i].q
    ensures li.Int() == Lambda(Zq(li.q as int), Ints(points), i, |points|)
  {
    var q := points[i].q;
    ghost var F, pts := Zq(q as int), Ints(points);
    li := DynField(1, q);
    assert li.Int() == F.one;
    hide *;
    LambdaStart(F, pts, i);
    for j := 0 to |points|
      invariant li.Valid() && li.q == q
      invariant li.Int() == Lambda(F, pts, i, j)
    {
      var next := Ratio(points, i, j, li);
      LambdaStep(F, pts, i, j);
      li := next;
    }
  }

  // One factor of the coefficient, or none at the point itself.
  method Ratio(points: seq<DynField>, i: nat, j: nat, li: DynField) returns (r: DynField)
    requires i < |points| && j < |points| && AllValid(points, points[i].q) && Prime(points[i].q as int)
    requires li.Valid() && li.q == points[i].q
    ensures r.Valid() && r.q == li.q
    ensures var F := Zq(li.q as int);
      r.Int() == if i == j then li.Int()
                 else F.mul(li.Int(), Div(F, F.neg(Ints(points)[j]), Fields.Sub(F, Ints(points)[i], Ints(points)[j])))
  {
    if i == j { return li; }
    var a, b := points[i], points[j];
    hide Prime, Zq, Fields.Sub, Div;
    var denom := a.Sub(b);
    var ratio := DynField(0, a.q).Sub(b).Div(denom);
    ZeroMinus(a.q as int, b.Int());
    r := li.Mul(ratio);
  }

  lemma LambdaStart(F: Field<int>, pts: seq<int>, i: nat)
    requires i < |pts|
    ensures Lambda(F, pts, i, 0) == F.one
  {
  }

  lemma LambdaStep(F: Field<int>, pts: seq<int>, i: nat, j: nat)
    requires i < |pts| && j < |pts|
    ensures Lambda(F, pts, i, j + 1)
            == if i == j then Lambda(F, pts, i, j)
               else F.mul(Lambda(F, pts, i, j), Div(F, F.neg(pts[j]), Fields.Sub(F, pts[i], pts[j])))
  {
    hide Div, Fields.Sub;
  }

  lemma ZeroMinus(q: int, b: int)
    requires 1 < q && 0 <= b < q
    ensures Fields.Sub(Zq(q), 0, b) == Zq(q).neg(b)
  {
    ModSmall((q - b) % q, q);
  }

  method ReconstructDyn(shares: seq<DynShare>) returns (acc: DynField)
    requires |shares| > 0 && Prime(shares[0].point.q as int)
    requires forall i :: 0 <= i < |shares| ==> shares[i].Valid(shares[0].point.q)
    ensures acc.Valid() && acc.q == shares[0].point.q
    ensures acc.Int() == AtZero(Zq(acc.q as int), PointInts(shares), ValueInts(shares))
  {
    hide Prime, Lambda, Lambdas, WeightedSum;
    var q := shares[0].point.q;
    var points := seq(|shares|, i requires 0 <= i < |shares| => shares[i].point);
    ghost var F, vals := Zq(q as int), ValueInts(shares);
    assert Ints(points) == PointInts(shares);
    acc := DynField(0, q);
    assert acc.Int() == F.zero;
    hide Zq;
    SumStart(F, Ints(points), vals);
    for i := 0 to |shares|
      invariant acc.Valid() && acc.q == q
      invariant acc.Int() == WeightedSum(F, Lambdas(F, Ints(points)), vals, i)
    {
      var li := Coefficient(points, i);
      SumStep(F, Ints(points), vals, i);
      acc := acc.Add(li.Mul(shares[i].value));
    }
  }

  lemma SumStart(F: Field<int>, pts: seq<int>, vals: seq<int>)
    requires |pts| == |vals|
    ensures WeightedSum(F, Lambdas(F, pts), vals, 0) == F.zero
  {
  }

  lemma SumStep(F: Field<int>, pts: seq<int>, vals: seq<int>, i: nat)
    requires i < |pts| == |vals|
    ensures WeightedSum(F, Lambdas(F, pts), vals, i + 1)
            == F.add(WeightedSum(F, Lambdas(F, pts), vals, i), F.mul(Lambda(F, pts, i, |pts|), vals[i]))
  {
    hide Lambda;
  }

  // Splitting and then reconstructing from any selection of at least threshold + 1 shares at
  // different points, in any order, gives back the secret.
  method SplitThenReconstruct(secret: DynField, threshold: nat, points: seq<DynField>, words: seq<u64>, idx: seq<nat>)
    returns (back: DynField)
    requires secret.Valid() && Prime(secret.q as int) && AllValid(points, secret.q) && |words| == threshold
    requires Distinct(points)
    requires threshold < |idx| && Distinct(idx) && forall k :: 0 <= k < |idx| ==> idx[k] < |points|
    ensures back == secret
  {
    var shares := SplitDyn(secret, threshold, points, words);
    var chosen := Select(shares, idx);
    assert PointInts(chosen) == Select(Ints(points), idx) by {
      forall k | 0 <= k < |idx| ensures PointInts(chosen)[k] == Ints(points)[idx[k]] {
        assert PointInts(shares)[idx[k]] == Ints(points)[idx[k]];
      }
    }
    assert Distinct(Ints(points)) by {
      forall i, j | 0 <= i < j < |points| ensures Ints(points)[i] != Ints(points)[j] {
        assert points[i] != points[j];
      }
    }
    back := ReconstructDyn(chosen);
    ZqLaws(secret.q as int);
    RecoverSelection(Zq(secret.q as int), secret.Int(), Coins(secret.q, words), Ints(points), idx, ValueInts(chosen));
  }
}
