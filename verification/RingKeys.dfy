/** Shamir-shared ring keys: recombining shares of a key coefficient by coefficient commutes with
    the negacyclic product, so partial decryptions combine to the decryption under the whole key. */
module RingKeys {
  import opened Sequences
  import opened Fields
  import opened Polynomials
  import opened Interpolation

  // The row of weights that gives coefficient k of a product with c modulo X^n + 1.
  function NegaRow<E>(F: Field<E>, c: seq<E>, k: nat): (row: seq<E>)
    requires k < |c|
    ensures |row| == |c|
  {
    seq(|c|, i requires 0 <= i < |c| => if i <= k then c[k - i] else F.neg(c[|c| + k - i]))
  }

  function RingMul<E>(F: Field<E>, s: seq<E>, c: seq<E>): (r: seq<E>)
    requires |s| == |c|
    ensures |r| == |s|
  {
    seq(|s|, k requires 0 <= k < |s| => WeightedSum(F, NegaRow(F, c, k), s, |s|))
  }

  function RingAdd<E>(F: Field<E>, a: seq<E>, b: seq<E>): (r: seq<E>)
    requires |a| == |b|
    ensures |r| == |a|
  {
    seq(|a|, k requires 0 <= k < |a| => F.add(a[k], b[k]))
  }

  function RingScale<E>(F: Field<E>, w: E, a: seq<E>): (r: seq<E>)
    ensures |r| == |a|
  {
    seq(|a|, k requires 0 <= k < |a| => F.mul(w, a[k]))
  }

  function RingZero<E>(F: Field<E>, n: nat): (r: seq<E>)
    ensures |r| == n
  {
    seq(n, k requires 0 <= k < n => F.zero)
  }

  // Every member is a ring element of length n.
  ghost predicate RingElems<E(!new)>(F: Field<E>, n: nat, polys: seq<seq<E>>) {
    forall i :: 0 <= i < |polys| ==> |polys[i]| == n && Elems(F, polys[i])
  }

  // ws[0] * polys[0] + ... + ws[k-1] * polys[k-1], added from the left.
  ghost function Combine<E(!new)>(F: Field<E>, ws: seq<E>, polys: seq<seq<E>>, n: nat, k: nat): (r: seq<E>)
    requires k <= |ws| == |polys| && RingElems(F, n, polys)
    ensures |r| == n
  {
    if k == 0 then RingZero(F, n)
    else RingAdd(F, Combine(F, ws, polys, n, k - 1), RingScale(F, ws[k - 1], polys[k - 1]))
  }

  ghost function Column<E(!new)>(polys: seq<seq<E>>, n: nat, j: nat): (c: seq<E>)
    requires j < n && forall i :: 0 <= i < |polys| ==> |polys[i]| == n
    ensures |c| == |polys|
  {
    seq(|polys|, i requires 0 <= i < |polys| => polys[i][j])
  }

  // Combination works coefficient by coefficient.
  lemma {:induction false} CombineAt<E(!new)>(F: Field<E>, ws: seq<E>, polys: seq<seq<E>>, n: nat, k: nat, j: nat)
    requires k <= |ws| == |polys| && RingElems(F, n, polys) && j < n
    ensures Combine(F, ws, polys, n, k)[j] == WeightedSum(F, ws, Column(polys, n, j), k)
  {
    if k > 0 {
      CombineAt(F, ws, polys, n, k - 1, j);
    }
  }

  lemma {:induction false} SumElem<E(!new)>(F: Field<E>, ws: seq<E>, vals: seq<E>, k: nat)
    requires Laws(F) && Elems(F, ws) && Elems(F, vals) && k <= |ws| == |vals|
    ensures F.elem(WeightedSum(F, ws, vals, k))
  {
    if k > 0 {
      SumElem(F, ws, vals, k - 1);
    }
  }

  lemma {:induction false} SumOfZero<E(!new)>(F: Field<E>, row: seq<E>, k: nat)
    requires Laws(F) && Elems(F, row) && k <= |row|
    ensures WeightedSum(F, row, RingZero(F, |row|), k) == F.zero
  {
    if k > 0 {
      SumOfZero(F, row, k - 1);
      MulZero(F, row[k - 1]);
      Units(F, F.zero);
    }
  }

  lemma {:induction false} SumOfAdd<E(!new)>(F: Field<E>, row: seq<E>, a: seq<E>, b: seq<E>, k: nat)
    requires Laws(F) && Elems(F, row) && Elems(F, a) && Elems(F, b)
    requires k <= |row| == |a| == |b|
    ensures WeightedSum(F, row, RingAdd(F, a, b), k) == F.add(WeightedSum(F, row, a, k), WeightedSum(F, row, b, k))
  {
    if k == 0 {
      Units(F, F.zero);
    } else {
      var i := k - 1;
      SumOfAdd(F, row, a, b, i);
      SumElem(F, row, a, i);
      SumElem(F, row, b, i);
      Distrib(F, row[i], a[i], b[i]);
      Interchange(F, WeightedSum(F, row, a, i), WeightedSum(F, row, b, i), F.mul(row[i], a[i]), F.mul(row[i], b[i]));
    }
  }

  lemma {:induction false} SumOfScale<E(!new)>(F: Field<E>, row: seq<E>, w: E, a: seq<E>, k: nat)
    requires Laws(F) && Elems(F, row) && Elems(F, a) && F.elem(w) && k <= |row| == |a|
    ensures WeightedSum(F, row, RingScale(F, w, a), k) == F.mul(w, WeightedSum(F, row, a, k))
  {
    if k == 0 {
      MulZero(F, w);
    } else {
      var i := k - 1;
      SumOfScale(F, row, w, a, i);
      SumElem(F, row, a, i);
      Distrib(F, w, WeightedSum(F, row, a, i), F.mul(row[i], a[i]));
      Assoc(F, row[i], w, a[i]);
      Assoc(F, w, row[i], a[i]);
      Comm(F, row[i], w);
    }
  }

  lemma {:induction false} CombineElems<E(!new)>(F: Field<E>, ws: seq<E>, polys: seq<seq<E>>, n: nat, k: nat)
    requires Laws(F) && Elems(F, ws) && k <= |ws| == |polys| && RingElems(F, n, polys)
    ensures Elems(F, Combine(F, ws, polys, n, k))
  {
    if k > 0 {
      CombineElems(F, ws, polys, n, k - 1);
    }
  }

  lemma RowElems<E(!new)>(F: Field<E>, c: seq<E>, k: nat)
    requires Laws(F) && Elems(F, c) && k < |c|
    ensures Elems(F, NegaRow(F, c, k))
  {
  }

  // Multiplication by a fixed ring element is linear.
  lemma RingMulLinear<E(!new)>(F: Field<E>, a: seq<E>, w: E, b: seq<E>, c: seq<E>)
    requires Laws(F) && Elems(F, a) && Elems(F, b) && Elems(F, c) && F.elem(w) && |a| == |b| == |c|
    ensures RingMul(F, RingAdd(F, a, RingScale(F, w, b)), c)
        == RingAdd(F, RingMul(F, a, c), RingScale(F, w, RingMul(F, b, c)))
  {
    var n := |a|;
    var l := RingMul(F, RingAdd(F, a, RingScale(F, w, b)), c);
    var r := RingAdd(F, RingMul(F, a, c), RingScale(F, w, RingMul(F, b, c)));
    forall k | 0 <= k < n ensures l[k] == r[k] {
      var row := NegaRow(F, c, k);
      RowElems(F, c, k);
      SumOfAdd(F, row, a, RingScale(F, w, b), n);
      SumOfScale(F, row, w, b, n);
    }
  }

  ghost function Products<E(!new)>(F: Field<E>, polys: seq<seq<E>>, c: seq<E>): (r: seq<seq<E>>)
    requires RingElems(F, |c|, polys)
    ensures |r| == |polys|
  {
    seq(|polys|, i requires 0 <= i < |polys| => RingMul(F, polys[i], c))
  }

  lemma ProductElems<E(!new)>(F: Field<E>, polys: seq<seq<E>>, c: seq<E>)
    requires Laws(F) && Elems(F, c) && RingElems(F, |c|, polys)
    ensures RingElems(F, |c|, Products(F, polys, c))
  {
    forall i, k | 0 <= i < |polys| && 0 <= k < |c| ensures F.elem(RingMul(F, polys[i], c)[k]) {
      RowElems(F, c, k);
      SumElem(F, NegaRow(F, c, k), polys[i], |c|);
    }
  }

  lemma RingMulZero<E(!new)>(F: Field<E>, c: seq<E>)
    requires Laws(F) && Elems(F, c)
    ensures RingMul(F, RingZero(F, |c|), c) == RingZero(F, |c|)
  {
    forall j | 0 <= j < |c| ensures RingMul(F, RingZero(F, |c|), c)[j] == F.zero {
      RowElems(F, c, j);
      SumOfZero(F, NegaRow(F, c, j), |c|);
    }
  }

  // Combining products is multiplying the combination.
  lemma {:induction false} CombineProducts<E(!new)>(F: Field<E>, ws: seq<E>, polys: seq<seq<E>>, c: seq<E>, k: nat)
    requires Laws(F) && Elems(F, ws) && Elems(F, c) && RingElems(F, |c|, polys) && k <= |ws| == |polys|
    requires RingElems(F, |c|, Products(F, polys, c))
    ensures Combine(F, ws, Products(F, polys, c), |c|, k) == RingMul(F, Combine(F, ws, polys, |c|, k), c)
  {
    hide RingMul, RingAdd, RingScale, RingZero, Laws;
    if k == 0 {
      RingMulZero(F, c);
    } else {
      CombineProducts(F, ws, polys, c, k - 1);
      CombineElems(F, ws, polys, |c|, k - 1);
      RingMulLinear(F, Combine(F, ws, polys, |c|, k - 1), ws[k - 1], polys[k - 1], c);
    }
  }

  // polys[i] holds, coefficient by coefficient, the share at pts[i] of the ring key `key`, for
  // sharing polynomials key[j], coins[j].
  ghost predicate SharesKey<E(!new)>(F: Field<E>, pts: seq<E>, key: seq<E>, coins: seq<seq<E>>, polys: seq<seq<E>>) {
    && Elems(F, key) && |coins| == |key| && |polys| == |pts|
    && (forall j :: 0 <= j < |key| ==> Elems(F, coins[j]) && |coins[j]| < |pts|)
    && forall i :: 0 <= i < |polys| ==>
      |polys[i]| == |key| && forall j :: 0 <= j < |key| ==> polys[i][j] == Eval(F, [key[j]] + coins[j], pts[i])
  }

  lemma ShareElems<E(!new)>(F: Field<E>, pts: seq<E>, key: seq<E>, coins: seq<seq<E>>, polys: seq<seq<E>>)
    requires Laws(F) && Elems(F, pts) && SharesKey(F, pts, key, coins, polys)
    ensures RingElems(F, |key|, polys)
  {
    forall i, j | 0 <= i < |polys| && 0 <= j < |key| ensures F.elem(polys[i][j]) {
      EvalElem(F, [key[j]] + coins[j], pts[i]);
    }
  }

  lemma LambdaElems<E(!new)>(F: Field<E>, pts: seq<E>)
    requires Laws(F) && Elems(F, pts) && Distinct(pts)
    ensures Elems(F, Lambdas(F, pts))
  {
    forall i | 0 <= i < |pts| ensures F.elem(Lambdas(F, pts)[i]) {
      LambdaIsBasis(F, pts, i, |pts|);
      BasisElem(F, pts, i, |pts|, F.zero);
    }
  }

  // The coefficients at zero send the shared key back to the key.
  lemma KeyRecovered<E(!new)>(F: Field<E>, pts: seq<E>, key: seq<E>, coins: seq<seq<E>>, polys: seq<seq<E>>)
    requires Laws(F) && Elems(F, pts) && Distinct(pts) && SharesKey(F, pts, key, coins, polys)
    ensures RingElems(F, |key|, polys) && Combine(F, Lambdas(F, pts), polys, |key|, |pts|) == key
  {
    ShareElems(F, pts, key, coins, polys);
    var sum := Combine(F, Lambdas(F, pts), polys, |key|, |pts|);
    forall j | 0 <= j < |key| ensures sum[j] == key[j] {
      CombineAt(F, Lambdas(F, pts), polys, |key|, |pts|, j);
      RecoveryTheorem(F, pts, Column(polys, |key|, j), [key[j]] + coins[j]);
      EvalAtZero(F, [key[j]] + coins[j]);
    }
  }

  // The coefficients at zero sum to one.
  lemma LambdasSumToOne<E(!new)>(F: Field<E>, pts: seq<E>, c: E)
    requires Laws(F) && Elems(F, pts) && Distinct(pts) && pts != [] && F.elem(c)
    ensures WeightedSum(F, Lambdas(F, pts), Repeat(|pts|, c), |pts|) == c
  {
    var vals := Repeat(|pts|, c);
    forall x | F.elem(x) ensures Eval(F, [c], x) == c {
      assert [c][1..] == [];
      MulZero(F, x);
      Units(F, c);
    }
    RecoveryTheorem(F, pts, vals, [c]);
  }

  // Decryption from partial products: c1 times each key share, weighted, plus c0.
  lemma PartialProductsDecrypt<E(!new)>(F: Field<E>, pts: seq<E>, key: seq<E>, coins: seq<seq<E>>, polys: seq<seq<E>>,
      c0: seq<E>, c1: seq<E>)
    requires Laws(F) && Elems(F, pts) && Distinct(pts) && SharesKey(F, pts, key, coins, polys)
    requires Elems(F, c0) && Elems(F, c1) && |c0| == |c1| == |key|
    ensures RingElems(F, |key|, polys) && RingElems(F, |key|, Products(F, polys, c1))
    ensures RingAdd(F, Combine(F, Lambdas(F, pts), Products(F, polys, c1), |key|, |pts|), c0)
        == RingAdd(F, RingMul(F, key, c1), c0)
  {
    KeyRecovered(F, pts, key, coins, polys);
    LambdaElems(F, pts);
    ProductElems(F, polys, c1);
    CombineProducts(F, Lambdas(F, pts), polys, c1, |pts|);
  }

  ghost function Partials<E(!new)>(F: Field<E>, polys: seq<seq<E>>, c0: seq<E>, c1: seq<E>): (r: seq<seq<E>>)
    requires RingElems(F, |c1|, polys) && |c0| == |c1|
    ensures |r| == |polys|
  {
    seq(|polys|, i requires 0 <= i < |polys| => RingAdd(F, c0, RingMul(F, polys[i], c1)))
  }

  // Fusion of partial decryptions, each of which already contains c0.
  lemma PartialsFuse<E(!new)>(F: Field<E>, pts: seq<E>, key: seq<E>, coins: seq<seq<E>>, polys: seq<seq<E>>, c0: seq<E>,
      c1: seq<E>)
    requires Laws(F) && Elems(F, pts) && Distinct(pts) && pts != [] && SharesKey(F, pts, key, coins, polys)
    requires Elems(F, c0) && Elems(F, c1) && |c0| == |c1| == |key|
    ensures RingElems(F, |key|, polys) && RingElems(F, |key|, Partials(F, polys, c0, c1))
    ensures Combine(F, Lambdas(F, pts), Partials(F, polys, c0, c1), |key|, |pts|) == RingAdd(F, c0, RingMul(F, key, c1))
  {
    var n, ws := |key|, Lambdas(F, pts);
    LambdaElems(F, pts);
    PartialProductsDecrypt(F, pts, key, coins, polys, c0, c1);
    var products, partials := Products(F, polys, c1), Partials(F, polys, c0, c1);
    KeyRecovered(F, pts, key, coins, polys);
    ProductElems(F, polys, c1);
    CombineProducts(F, ws, polys, c1, |pts|);
    assert RingElems(F, n, partials) by {
      forall i, j | 0 <= i < |polys| && 0 <= j < n ensures F.elem(partials[i][j]) {
        assert F.elem(products[i][j]);
      }
    }
    var sum := Combine(F, ws, partials, n, |pts|);
    forall j | 0 <= j < n ensures sum[j] == F.add(c0[j], RingMul(F, key, c1)[j]) {
      FuseAt(F, pts, ws, products, partials, c0, n, j);
    }
  }

  function Repeat<E>(n: nat, c: E): (r: seq<E>)
    ensures |r| == n
  {
    seq(n, i => c)
  }

  lemma RepeatElems<E(!new)>(F: Field<E>, n: nat, s: seq<E>, j: nat)
    requires Elems(F, s) && j < |s|
    ensures F.elem(s[j]) && Elems(F, Repeat(n, s[j]))
  {
  }

  lemma FuseColumn<E(!new)>(F: Field<E>, products: seq<seq<E>>, partials: seq<seq<E>>, c: E, n: nat, j: nat)
    requires RingElems(F, n, products) && RingElems(F, n, partials) && |products| == |partials| && j < n
    requires forall i :: 0 <= i < |products| ==> partials[i][j] == F.add(c, products[i][j])
    ensures Elems(F, Column(products, n, j))
    ensures Column(partials, n, j) == RingAdd(F, Repeat(|products|, c), Column(products, n, j))
  {
  }

  lemma FuseSum<E(!new)>(F: Field<E>, pts: seq<E>, col: seq<E>, c: E)
    requires Laws(F) && Elems(F, pts) && Distinct(pts) && pts != [] && Elems(F, Lambdas(F, pts))
    requires |col| == |pts| && Elems(F, col) && F.elem(c) && Elems(F, Repeat(|pts|, c))
    ensures WeightedSum(F, Lambdas(F, pts), RingAdd(F, Repeat(|pts|, c), col), |pts|)
            == F.add(c, WeightedSum(F, Lambdas(F, pts), col, |pts|))
  {
    hide *;
    SumOfAdd(F, Lambdas(F, pts), Repeat(|pts|, c), col, |pts|);
    LambdasSumToOne(F, pts, c);
  }

  lemma FuseAt<E(!new)>(F: Field<E>, pts: seq<E>, ws: seq<E>, products: seq<seq<E>>, partials: seq<seq<E>>, c0: seq<E>,
      n: nat, j: nat)
    requires Laws(F) && Elems(F, pts) && Distinct(pts) && pts != [] && ws == Lambdas(F, pts) && Elems(F, ws)
    requires RingElems(F, n, products) && RingElems(F, n, partials) && |products| == |partials| == |pts|
    requires |c0| == n && Elems(F, c0) && j < n
    requires forall i :: 0 <= i < |pts| ==> partials[i][j] == F.add(c0[j], products[i][j])
    ensures Combine(F, ws, partials, n, |pts|)[j] == F.add(c0[j], Combine(F, ws, products, n, |pts|)[j])
  {
    hide Laws, WeightedSum, Lambdas, Combine, RingAdd, Repeat, Elems, Distinct, Column;
    RepeatElems(F, |pts|, c0, j);
    FuseColumn(F, products, partials, c0[j], n, j);
    CombineAt(F, ws, partials, n, |pts|, j);
    CombineAt(F, ws, products, n, |pts|, j);
    FuseSum(F, pts, Column(products, n, j), c0[j]);
  }
}
