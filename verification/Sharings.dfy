/** Local arithmetic on sharings: what share-wise operations do to the shared secret. */
module Sharings {
  import opened Fields
  import opened Polynomials
  import opened Shamir

  function Min(a: nat, b: nat): (m: nat) { if a <= b then a else b }

  // Share-wise operation on two share lists, keeping the points of the first and stopping at the
  // end of the shorter one.
  function Zip<E>(op: (E, E) -> E, a: seq<Share<E>>, b: seq<Share<E>>): (c: seq<Share<E>>)
    ensures |c| == Min(|a|, |b|)
  {
    seq(Min(|a|, |b|), i requires 0 <= i < Min(|a|, |b|) => Share(a[i].point, op(a[i].value, b[i].value)))
  }

  function MapValues<E>(f: E -> E, a: seq<Share<E>>): (c: seq<Share<E>>)
    ensures |c| == |a|
  {
    seq(|a|, i requires 0 <= i < |a| => Share(a[i].point, f(a[i].value)))
  }

  predicate SamePoints<E(==)>(a: seq<Share<E>>, b: seq<Share<E>>) {
    |a| == |b| && forall i :: 0 <= i < |a| ==> a[i].point == b[i].point
  }

  // c holds op of a and b share by share.
  ghost predicate Pointwise<E(!new)>(op: (E, E) -> E, pts: seq<E>, a: seq<Share<E>>, b: seq<Share<E>>,
      c: seq<Share<E>>)
  {
    && |a| == |b| == |c| == |pts|
    && forall i :: 0 <= i < |c| ==> c[i] == Share(pts[i], op(a[i].value, b[i].value))
  }

  lemma SharingAdd<E(!new)>(F: Field<E>, pts: seq<E>, d: nat, x: E, y: E, a: seq<Share<E>>, b: seq<Share<E>>,
      c: seq<Share<E>>)
    requires Laws(F) && Elems(F, pts)
    requires IsSharing(F, pts, d, x, a) && IsSharing(F, pts, d, y, b)
    requires Pointwise(F.add, pts, a, b, c)
    ensures IsSharing(F, pts, d, F.add(x, y), c)
  {
    var p := SharingOf(F, pts, d, x, a);
    var q := SharingOf(F, pts, d, y, b);
    var r := PolyAdd(F, p, q);
    EvalAdd(F, p, q, F.zero);
    forall i | 0 <= i < |pts| ensures c[i] == Share(pts[i], Eval(F, r, pts[i])) {
      EvalAdd(F, p, q, pts[i]);
    }
    assert Deals(F, r, pts, d, F.add(x, y), c);
  }

  function SubOf<E>(F: Field<E>): (f: (E, E) -> E) { (x, y) => Sub(F, x, y) }

  lemma SharingSub<E(!new)>(F: Field<E>, pts: seq<E>, d: nat, x: E, y: E, a: seq<Share<E>>, b: seq<Share<E>>,
      c: seq<Share<E>>)
    requires Laws(F) && Elems(F, pts)
    requires IsSharing(F, pts, d, x, a) && IsSharing(F, pts, d, y, b)
    requires Pointwise(SubOf(F), pts, a, b, c)
    ensures IsSharing(F, pts, d, Sub(F, x, y), c)
  {
    var p := SharingOf(F, pts, d, x, a);
    var q := SharingOf(F, pts, d, y, b);
    var r := PolySub(F, p, q);
    EvalSub(F, p, q, F.zero);
    forall i | 0 <= i < |pts| ensures c[i] == Share(pts[i], Eval(F, r, pts[i])) {
      EvalSub(F, p, q, pts[i]);
    }
    assert Deals(F, r, pts, d, Sub(F, x, y), c);
  }

  // Multiplying shares adds the degrees.
  lemma SharingMul<E(!new)>(F: Field<E>, pts: seq<E>, d: nat, e: nat, x: E, y: E, a: seq<Share<E>>, b: seq<Share<E>>,
      c: seq<Share<E>>)
    requires Laws(F) && Elems(F, pts)
    requires IsSharing(F, pts, d, x, a) && IsSharing(F, pts, e, y, b)
    requires Pointwise(F.mul, pts, a, b, c)
    ensures IsSharing(F, pts, d + e, F.mul(x, y), c)
  {
    var p := SharingOf(F, pts, d, x, a);
    var q := SharingOf(F, pts, e, y, b);
    var r := PolyMul(F, p, q);
    EvalMul(F, p, q, F.zero);
    PolyMulLength(F, p, q);
    forall i | 0 <= i < |pts| ensures c[i] == Share(pts[i], Eval(F, r, pts[i])) {
      EvalMul(F, p, q, pts[i]);
    }
    assert Deals(F, r, pts, d + e, F.mul(x, y), c);
  }

  lemma {:induction false} PolyMulLength<E(!new)>(F: Field<E>, p: seq<E>, q: seq<E>)
    ensures |PolyMul(F, p, q)| <= |p| + |q|
    ensures |p| > 0 || |q| > 0 ==> |PolyMul(F, p, q)| <= |p| + |q| - 1
  {
    if |p| > 1 && q == [] {
      PolyMulLength(F, p[1..], q);
    }
  }

  lemma SharingWiden<E(!new)>(F: Field<E>, pts: seq<E>, d: nat, e: nat, x: E, a: seq<Share<E>>)
    requires Laws(F) && IsSharing(F, pts, d, x, a) && d <= e
    ensures IsSharing(F, pts, e, x, a)
  {
    var p := SharingOf(F, pts, d, x, a);
    assert Deals(F, p, pts, e, x, a);
  }

  // A public constant is shared by giving it to everybody.
  lemma SharingConst<E(!new)>(F: Field<E>, pts: seq<E>, k: E, a: seq<Share<E>>)
    requires Laws(F) && Elems(F, pts) && F.elem(k)
    requires |a| == |pts| && forall i :: 0 <= i < |a| ==> a[i] == Share(pts[i], k)
    ensures IsSharing(F, pts, 0, k, a)
  {
    forall x | F.elem(x) ensures Eval(F, [k], x) == k {
      assert [k][1..] == [];
      MulZero(F, x);
      Units(F, k);
    }
    assert Deals(F, [k], pts, 0, k, a);
  }

  function Constant<E>(pts: seq<E>, k: E): (a: seq<Share<E>>)
    ensures |a| == |pts|
  {
    seq(|pts|, i requires 0 <= i < |pts| => Share(pts[i], k))
  }

  lemma SharingShift<E(!new)>(F: Field<E>, pts: seq<E>, d: nat, x: E, k: E, a: seq<Share<E>>, c: seq<Share<E>>)
    requires Laws(F) && Elems(F, pts) && F.elem(k)
    requires IsSharing(F, pts, d, x, a)
    requires |c| == |pts| == |a| && forall i :: 0 <= i < |c| ==> c[i] == Share(pts[i], F.add(a[i].value, k))
    ensures IsSharing(F, pts, d, F.add(x, k), c)
  {
    var b := Constant(pts, k);
    SharingConst(F, pts, k, b);
    SharingWiden(F, pts, 0, d, k, b);
    SharingAdd(F, pts, d, x, k, a, b, c);
  }

  lemma SharingScale<E(!new)>(F: Field<E>, pts: seq<E>, d: nat, k: E, x: E, a: seq<Share<E>>, c: seq<Share<E>>)
    requires Laws(F) && Elems(F, pts) && F.elem(k)
    requires IsSharing(F, pts, d, x, a)
    requires |c| == |pts| == |a| && forall i :: 0 <= i < |c| ==> c[i] == Share(pts[i], F.mul(k, a[i].value))
    ensures IsSharing(F, pts, d, F.mul(k, x), c)
  {
    var b := Constant(pts, k);
    SharingConst(F, pts, k, b);
    SharingMul(F, pts, 0, d, k, x, b, a, c);
  }
}
