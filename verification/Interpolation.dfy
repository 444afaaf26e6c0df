/** Lagrange interpolation: the loop that recovers a value at zero, and the polynomial behind it. */
module Interpolation {
  import opened Sequences
  import opened Fields
  import opened Polynomials

  // Product over j < k, j != i, of (x - pts[j]) / (pts[i] - pts[j]).
  function Basis<E>(F: Field<E>, pts: seq<E>, i: nat, k: nat, x: E): (r: E)
    requires i < |pts| && k <= |pts|
  {
    if k == 0 then F.one
    else if k - 1 == i then Basis(F, pts, i, k - 1, x)
    else F.mul(Basis(F, pts, i, k - 1, x), Div(F, Sub(F, x, pts[k - 1]), Sub(F, pts[i], pts[k - 1])))
  }

  // ws[0] * vals[0] + ... + ws[k-1] * vals[k-1], added from the left.
  function WeightedSum<E>(F: Field<E>, ws: seq<E>, vals: seq<E>, k: nat): (r: E)
    requires k <= |ws| == |vals|
  {
    if k == 0 then F.zero
    else F.add(WeightedSum(F, ws, vals, k - 1), F.mul(ws[k - 1], vals[k - 1]))
  }

  // All basis functions over the points, evaluated at x.
  function BasisRow<E>(F: Field<E>, pts: seq<E>, x: E): (ws: seq<E>)
    ensures |ws| == |pts|
  {
    seq(|pts|, i requires 0 <= i < |pts| => Basis(F, pts, i, |pts|, x))
  }

  // The weight of share i in the recovery of the value at zero.
  function Lambda<E>(F: Field<E>, pts: seq<E>, i: nat, k: nat): (r: E)
    requires i < |pts| && k <= |pts|
  {
    if k == 0 then F.one
    else if k - 1 == i then Lambda(F, pts, i, k - 1)
    else F.mul(Lambda(F, pts, i, k - 1), Div(F, F.neg(pts[k - 1]), Sub(F, pts[i], pts[k - 1])))
  }

  function Lambdas<E>(F: Field<E>, pts: seq<E>): (ws: seq<E>)
    ensures |ws| == |pts|
  {
    seq(|pts|, i requires 0 <= i < |pts| => Lambda(F, pts, i, |pts|))
  }

  function AtZero<E>(F: Field<E>, pts: seq<E>, vals: seq<E>): (r: E)
    requires |pts| == |vals|
  {
    WeightedSum(F, Lambdas(F, pts), vals, |pts|)
  }

  // The nested loop of the implementation.
  method RecoverAtZero<E>(F: Field<E>, pts: seq<E>, vals: seq<E>) returns (acc: E)
    requires |pts| == |vals|
    ensures acc == AtZero(F, pts, vals)
  {
    acc := F.zero;
    for i := 0 to |pts|
      invariant acc == WeightedSum(F, Lambdas(F, pts), vals, i)
    {
      var li := F.one;
      for j := 0 to |pts|
        invariant li == Lambda(F, pts, i, j)
      {
        if i != j {
          li := F.mul(li, Div(F, F.neg(pts[j]), Sub(F, pts[i], pts[j])));
        }
      }
      acc := F.add(acc, F.mul(li, vals[i]));
    }
  }

  lemma DenominatorNonzero<E(!new)>(F: Field<E>, pts: seq<E>, i: nat, j: nat)
    requires Laws(F) && Elems(F, pts) && Distinct(pts)
    requires i < |pts| && j < |pts| && i != j
    ensures Sub(F, pts[i], pts[j]) != F.zero
    ensures F.elem(Sub(F, pts[i], pts[j])) && F.elem(F.inv(Sub(F, pts[i], pts[j])))
  {
    SubZero(F, pts[i], pts[j]);
    SubAdd(F, pts[i], pts[j]);
  }

  lemma {:induction false} BasisElem<E(!new)>(F: Field<E>, pts: seq<E>, i: nat, k: nat, x: E)
    requires Laws(F) && Elems(F, pts) && Distinct(pts) && F.elem(x)
    requires i < |pts| && k <= |pts|
    ensures F.elem(Basis(F, pts, i, k, x))
  {
    if k > 0 {
      BasisElem(F, pts, i, k - 1, x);
      if k - 1 != i {
        DenominatorNonzero(F, pts, i, k - 1);
        SubAdd(F, x, pts[k - 1]);
      }
    }
  }

  lemma {:induction false} LambdaIsBasis<E(!new)>(F: Field<E>, pts: seq<E>, i: nat, k: nat)
    requires Laws(F) && Elems(F, pts) && i < |pts| && k <= |pts|
    ensures Lambda(F, pts, i, k) == Basis(F, pts, i, k, F.zero)
  {
    if k > 0 {
      LambdaIsBasis(F, pts, i, k - 1);
      Units(F, F.neg(pts[k - 1]));
    }
  }

  lemma LambdasAreBasis<E(!new)>(F: Field<E>, pts: seq<E>)
    requires Laws(F) && Elems(F, pts)
    ensures Lambdas(F, pts) == BasisRow(F, pts, F.zero)
  {
    forall i | 0 <= i < |pts| ensures Lambdas(F, pts)[i] == BasisRow(F, pts, F.zero)[i] {
      LambdaIsBasis(F, pts, i, |pts|);
    }
  }

  lemma {:induction false} BasisAtOwnPoint<E(!new)>(F: Field<E>, pts: seq<E>, i: nat, k: nat)
    requires Laws(F) && Elems(F, pts) && Distinct(pts)
    requires i < |pts| && k <= |pts|
    ensures Basis(F, pts, i, k, pts[i]) == F.one
  {
    if k > 0 {
      BasisAtOwnPoint(F, pts, i, k - 1);
      if k - 1 != i {
        DenominatorNonzero(F, pts, i, k - 1);
      }
    }
  }

  lemma {:induction false} BasisAtOtherPoint<E(!new)>(F: Field<E>, pts: seq<E>, i: nat, k: nat, m: nat)
    requires Laws(F) && Elems(F, pts) && Distinct(pts)
    requires i < |pts| && m < k <= |pts| && m != i
    ensures Basis(F, pts, i, k, pts[m]) == F.zero
  {
    if k - 1 == i {
      BasisAtOtherPoint(F, pts, i, k - 1, m);
    } else {
      DenominatorNonzero(F, pts, i, k - 1);
      var w := F.inv(Sub(F, pts[i], pts[k - 1]));
      BasisElem(F, pts, i, k - 1, pts[m]);
      if m == k - 1 {
        Units(F, pts[m]);
        MulZero(F, w);
        MulZero(F, Basis(F, pts, i, k - 1, pts[m]));
      } else {
        BasisAtOtherPoint(F, pts, i, k - 1, m);
        SubAdd(F, pts[m], pts[k - 1]);
        MulZero(F, F.mul(Sub(F, pts[m], pts[k - 1]), w));
      }
    }
  }

  // A weight row that is one at m and zero elsewhere picks vals[m].
  lemma {:induction false} UnitRow<E(!new)>(F: Field<E>, ws: seq<E>, vals: seq<E>, k: nat, m: nat)
    requires Laws(F) && Elems(F, vals) && k <= |ws| == |vals| && m < |ws|
    requires forall i :: 0 <= i < |ws| ==> ws[i] == if i == m then F.one else F.zero
    ensures WeightedSum(F, ws, vals, k) == if m < k then vals[m] else F.zero
  {
    if k > 0 {
      UnitRow(F, ws, vals, k - 1, m);
      MulZero(F, vals[k - 1]);
      Units(F, vals[k - 1]);
      Units(F, vals[m]);
    }
  }

  lemma BasisRowAtPoint<E(!new)>(F: Field<E>, pts: seq<E>, m: nat)
    requires Laws(F) && Elems(F, pts) && Distinct(pts) && m < |pts|
    ensures var ws := BasisRow(F, pts, pts[m]);
      forall i :: 0 <= i < |ws| ==> ws[i] == if i == m then F.one else F.zero
  {
    forall i | 0 <= i < |pts|
      ensures Basis(F, pts, i, |pts|, pts[m]) == if i == m then F.one else F.zero
    {
      if i == m {
        BasisAtOwnPoint(F, pts, m, |pts|);
      } else {
        BasisAtOtherPoint(F, pts, i, |pts|, m);
      }
    }
  }

  // x -> (x - a) * w as a polynomial of two coefficients.
  lemma LinearPoly<E(!new)>(F: Field<E>, a: E, w: E, x: E)
    requires Laws(F) && F.elem(a) && F.elem(w) && F.elem(x)
    ensures Elems(F, [F.neg(F.mul(a, w)), w])
    ensures Eval(F, [F.neg(F.mul(a, w)), w], x) == F.mul(Sub(F, x, a), w)
  {
    var p := [F.neg(F.mul(a, w)), w];
    assert p[1..] == [w] && [w][1..] == [];
    MulZero(F, x);
    Units(F, w);
    assert Eval(F, [w], x) == w;
    DistribSub(F, w, x, a);
    Comm(F, w, x);
  }

  // The i-th basis function over the first k points is a polynomial.
  ghost function BasisPoly<E(!new)>(F: Field<E>, pts: seq<E>, i: nat, k: nat): (p: seq<E>)
    requires i < |pts| && k <= |pts|
    ensures |p| == 1 + k - (if i < k then 1 else 0)
  {
    if k == 0 then [F.one]
    else if k - 1 == i then BasisPoly(F, pts, i, k - 1)
    else
      var w := F.inv(Sub(F, pts[i], pts[k - 1]));
      PolyMul(F, BasisPoly(F, pts, i, k - 1), [F.neg(F.mul(pts[k - 1], w)), w])
  }

  lemma {:induction false} EvalBasisPoly<E(!new)>(F: Field<E>, pts: seq<E>, i: nat, k: nat, x: E)
    requires Laws(F) && Elems(F, pts) && Distinct(pts) && F.elem(x)
    requires i < |pts| && k <= |pts|
    ensures Elems(F, BasisPoly(F, pts, i, k))
    ensures Eval(F, BasisPoly(F, pts, i, k), x) == Basis(F, pts, i, k, x)
  {
    if k == 0 {
      assert [F.one][1..] == [];
      MulZero(F, x);
      Units(F, F.one);
    } else {
      EvalBasisPoly(F, pts, i, k - 1, x);
      if k - 1 != i {
        DenominatorNonzero(F, pts, i, k - 1);
        var w := F.inv(Sub(F, pts[i], pts[k - 1]));
        LinearPoly(F, pts[k - 1], w, x);
        EvalMul(F, BasisPoly(F, pts, i, k - 1), [F.neg(F.mul(pts[k - 1], w)), w], x);
      }
    }
  }

  ghost function BasisPolys<E(!new)>(F: Field<E>, pts: seq<E>): (ps: seq<seq<E>>)
    ensures |ps| == |pts|
    ensures forall i :: 0 <= i < |ps| ==> |ps[i]| == |pts|
  {
    seq(|pts|, i requires 0 <= i < |pts| => BasisPoly(F, pts, i, |pts|))
  }

  // Sum of the first k polynomials, each scaled by its value.
  ghost function CombinePolys<E(!new)>(F: Field<E>, polys: seq<seq<E>>, vals: seq<E>, k: nat): (p: seq<E>)
    requires k <= |polys| == |vals|
  {
    if k == 0 then [] else PolyAdd(F, CombinePolys(F, polys, vals, k - 1), PolyScale(F, vals[k - 1], polys[k - 1]))
  }

  lemma {:induction false} CombineLength<E(!new)>(F: Field<E>, polys: seq<seq<E>>, vals: seq<E>, k: nat, n: nat)
    requires k <= |polys| == |vals| && forall i :: 0 <= i < |polys| ==> |polys[i]| == n
    ensures |CombinePolys(F, polys, vals, k)| == if k == 0 then 0 else n
  {
    if k > 0 {
      CombineLength(F, polys, vals, k - 1, n);
    }
  }

  lemma {:induction false} EvalCombine<E(!new)>(F: Field<E>, polys: seq<seq<E>>, ws: seq<E>, vals: seq<E>, k: nat, x: E)
    requires Laws(F) && Elems(F, vals) && F.elem(x)
    requires k <= |polys| == |vals| == |ws|
    requires forall i :: 0 <= i < |polys| ==> Elems(F, polys[i]) && Eval(F, polys[i], x) == ws[i]
    ensures Elems(F, CombinePolys(F, polys, vals, k))
    ensures Eval(F, CombinePolys(F, polys, vals, k), x) == WeightedSum(F, ws, vals, k)
  {
    if k > 0 {
      EvalCombine(F, polys, ws, vals, k - 1, x);
      EvalScale(F, vals[k - 1], polys[k - 1], x);
      EvalAdd(F, CombinePolys(F, polys, vals, k - 1), PolyScale(F, vals[k - 1], polys[k - 1]), x);
      EvalElem(F, polys[k - 1], x);
      Comm(F, vals[k - 1], ws[k - 1]);
    }
  }

  lemma EvalInterpolant<E(!new)>(F: Field<E>, pts: seq<E>, vals: seq<E>, x: E)
    requires Laws(F) && Elems(F, pts) && Distinct(pts) && Elems(F, vals) && F.elem(x) && |pts| == |vals|
    ensures var p := CombinePolys(F, BasisPolys(F, pts), vals, |pts|);
      Elems(F, p) && Eval(F, p, x) == WeightedSum(F, BasisRow(F, pts, x), vals, |pts|)
  {
    var polys, ws := BasisPolys(F, pts), BasisRow(F, pts, x);
    forall i | 0 <= i < |pts| ensures Elems(F, polys[i]) && Eval(F, polys[i], x) == ws[i] {
      EvalBasisPoly(F, pts, i, |pts|, x);
    }
    EvalCombine(F, polys, ws, vals, |pts|, x);
  }

  // Some polynomial with as many coefficients as points passes through every given value,
  // and the recovery loop returns its value at zero.
  lemma PolyThrough<E(!new)>(F: Field<E>, pts: seq<E>, vals: seq<E>) returns (q: seq<E>)
    requires Laws(F) && Elems(F, pts) && Distinct(pts) && Elems(F, vals) && |pts| == |vals|
    ensures Elems(F, q) && |q| == |pts|
    ensures forall i :: 0 <= i < |pts| ==> Eval(F, q, pts[i]) == vals[i]
    ensures Eval(F, q, F.zero) == AtZero(F, pts, vals)
  {
    q := CombinePolys(F, BasisPolys(F, pts), vals, |pts|);
    CombineLength(F, BasisPolys(F, pts), vals, |pts|, |pts|);
    EvalInterpolant(F, pts, vals, F.zero);
    LambdasAreBasis(F, pts);
    forall i | 0 <= i < |pts| ensures Eval(F, q, pts[i]) == vals[i] {
      EvalInterpolant(F, pts, vals, pts[i]);
      BasisRowAtPoint(F, pts, i);
      UnitRow(F, BasisRow(F, pts, pts[i]), vals, |pts|, i);
    }
  }

  // Recovery at zero is right for every polynomial with at most as many coefficients as there are points.
  lemma RecoveryTheorem<E(!new)>(F: Field<E>, pts: seq<E>, vals: seq<E>, p: seq<E>)
    requires Laws(F) && Elems(F, pts) && Distinct(pts) && Elems(F, p)
    requires |p| <= |pts| == |vals|
    requires forall i :: 0 <= i < |pts| ==> vals[i] == Eval(F, p, pts[i])
    ensures AtZero(F, pts, vals) == Eval(F, p, F.zero)
  {
    assert Elems(F, vals) by {
      forall i | 0 <= i < |pts| ensures F.elem(vals[i]) {
        EvalElem(F, p, pts[i]);
      }
    }
    var q := PolyThrough(F, pts, vals);
    Agreement(F, q, p, pts, F.zero);
  }
}
