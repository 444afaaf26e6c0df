/** Pseudo-random secret sharing: every holder set contributes one element, spread over its members
    by a polynomial that is one at zero and vanishes at everybody else. */
module Prss {
  import opened Wrappers
  import opened Fields
  import opened Polynomials
  import opened Interpolation
  import opened Shamir
  import opened Sharings
  import opened Handoff
  import HolderSets

  // How many of the members 0..k-1 are outside the holder set.
  function Outside(holder: seq<nat>, k: nat): (n: nat)
    ensures n <= k
  {
    if k == 0 then 0 else Outside(holder, k - 1) + if k - 1 in holder then 0 else 1
  }

  // Product over the outsiders j < k of (x - pts[j]) / (-pts[j]).
  function HolderBasis<E>(F: Field<E>, holder: seq<nat>, pts: seq<E>, k: nat, x: E): (r: E)
    requires k <= |pts|
  {
    if k == 0 then F.one
    else if k - 1 in holder then HolderBasis(F, holder, pts, k - 1, x)
    else F.mul(HolderBasis(F, holder, pts, k - 1, x), Div(F, Sub(F, x, pts[k - 1]), F.neg(pts[k - 1])))
  }

  ghost function HolderPoly<E(!new)>(F: Field<E>, holder: seq<nat>, pts: seq<E>, k: nat): (p: seq<E>)
    requires k <= |pts|
    ensures |p| == 1 + Outside(holder, k)
  {
    if k == 0 then [F.one]
    else if k - 1 in holder then HolderPoly(F, holder, pts, k - 1)
    else
      var w := F.inv(F.neg(pts[k - 1]));
      PolyMul(F, HolderPoly(F, holder, pts, k - 1), [F.neg(F.mul(pts[k - 1], w)), w])
  }

  lemma NegNonzero<E(!new)>(F: Field<E>, a: E)
    requires Laws(F) && F.elem(a) && a != F.zero
    ensures F.neg(a) != F.zero && F.elem(F.neg(a)) && F.elem(F.inv(F.neg(a)))
  {
    Units(F, a);
  }

  lemma {:induction false} EvalHolderPoly<E(!new)>(F: Field<E>, holder: seq<nat>, pts: seq<E>, k: nat, x: E)
    requires Laws(F) && Elems(F, pts) && F.zero !in pts && F.elem(x) && k <= |pts|
    ensures Elems(F, HolderPoly(F, holder, pts, k))
    ensures Eval(F, HolderPoly(F, holder, pts, k), x) == HolderBasis(F, holder, pts, k, x)
  {
    if k == 0 {
      assert [F.one][1..] == [];
      MulZero(F, x);
      Units(F, F.one);
    } else {
      EvalHolderPoly(F, holder, pts, k - 1, x);
      if k - 1 !in holder {
        NegNonzero(F, pts[k - 1]);
        var w := F.inv(F.neg(pts[k - 1]));
        LinearPoly(F, pts[k - 1], w, x);
        EvalMul(F, HolderPoly(F, holder, pts, k - 1), [F.neg(F.mul(pts[k - 1], w)), w], x);
      }
    }
  }

  // The basis is one at zero.
  lemma {:induction false} HolderAtZero<E(!new)>(F: Field<E>, holder: seq<nat>, pts: seq<E>, k: nat)
    requires Laws(F) && Elems(F, pts) && F.zero !in pts && k <= |pts|
    ensures HolderBasis(F, holder, pts, k, F.zero) == F.one
  {
    if k > 0 {
      HolderAtZero(F, holder, pts, k - 1);
      if k - 1 !in holder {
        NegNonzero(F, pts[k - 1]);
        Comm(F, F.zero, F.neg(pts[k - 1]));
        Units(F, F.neg(pts[k - 1]));
        Units(F, F.one);
      }
    }
  }

  // The basis vanishes at every outsider.
  lemma {:induction false} HolderAtOutsider<E(!new)>(F: Field<E>, holder: seq<nat>, pts: seq<E>, k: nat, j: nat)
    requires Laws(F) && Elems(F, pts) && F.zero !in pts && j < k <= |pts| && j !in holder
    ensures HolderBasis(F, holder, pts, k, pts[j]) == F.zero
  {
    EvalHolderPoly(F, holder, pts, k - 1, pts[j]);
    EvalElem(F, HolderPoly(F, holder, pts, k - 1), pts[j]);
    if k - 1 !in holder {
      NegNonzero(F, pts[k - 1]);
      var w := F.inv(F.neg(pts[k - 1]));
      if j == k - 1 {
        Units(F, pts[j]);
        MulZero(F, w);
        MulZero(F, HolderBasis(F, holder, pts, k - 1, pts[j]));
      } else {
        HolderAtOutsider(F, holder, pts, k - 1, j);
        MulZero(F, Div(F, Sub(F, pts[j], pts[k - 1]), F.neg(pts[k - 1])));
      }
    } else {
      HolderAtOutsider(F, holder, pts, k - 1, j);
    }
  }

  method HolderBasisLoop<E>(F: Field<E>, holder: seq<nat>, pts: seq<E>, x: E) returns (acc: E)
    ensures acc == HolderBasis(F, holder, pts, |pts|, x)
  {
    acc := F.one;
    for j := 0 to |pts|
      invariant acc == HolderBasis(F, holder, pts, j, x)
    {
      if j !in holder {
        acc := F.mul(acc, Div(F, Sub(F, x, pts[j]), F.neg(pts[j])));
      }
    }
  }

  // ---- the size of a holder set fixes the degree ----

  lemma {:induction false} OutsideSame(h: seq<nat>, g: seq<nat>, m: nat)
    requires forall j :: 0 <= j < m ==> (j in h <==> j in g)
    ensures Outside(h, m) == Outside(g, m)
  {
    if m > 0 { OutsideSame(h, g, m - 1); }
  }

  lemma {:induction false} OutsideAbove(h: seq<nat>, m: nat, n: nat)
    requires m <= n && forall j :: m <= j < n ==> j !in h
    ensures Outside(h, n) == Outside(h, m) + n - m
  {
    if m < n { OutsideAbove(h, m, n - 1); }
  }

  // A set of k out of n members leaves n - k outside.
  lemma {:induction false} OutsideCount(n: nat, k: nat, h: seq<nat>)
    requires HolderSets.Combination(n, k, h)
    ensures k <= n && Outside(h, n) == n - k
    decreases k
  {
    if k == 0 {
      OutsideAbove(h, 0, n);
    } else {
      var last, rest := h[k - 1], h[..k - 1];
      assert HolderSets.Combination(last, k - 1, rest);
      OutsideCount(last, k - 1, rest);
      OutsideSame(h, rest, last);
      OutsideAbove(h, last + 1, n);
      assert last in h;
    }
  }

  // ---- shares from contributions ----

  // What member i holds after the first k holder sets have contributed.
  function HolderShare<E>(F: Field<E>, holders: seq<seq<nat>>, row: seq<E>, pts: seq<E>, i: nat, k: nat): (v: E)
    requires k <= |holders| == |row| && i < |pts|
  {
    if k == 0 then F.zero
    else
      var rest := HolderShare(F, holders, row, pts, i, k - 1);
      if i in holders[k - 1] then F.add(rest, F.mul(row[k - 1], HolderBasis(F, holders[k - 1], pts, |pts|, pts[i])))
          else rest
  }

  function HolderShares<E>(F: Field<E>, holders: seq<seq<nat>>, row: seq<E>, pts: seq<E>, k: nat): (sh: seq<Share<E>>)
    requires k <= |holders| == |row|
    ensures |sh| == |pts|
  {
    seq(|pts|, i requires 0 <= i < |pts| => Share(pts[i], HolderShare(F, holders, row, pts, i, k)))
  }

  function Total<E>(F: Field<E>, row: seq<E>, k: nat): (v: E)
    requires k <= |row|
  {
    if k == 0 then F.zero else F.add(Total(F, row, k - 1), row[k - 1])
  }

  // One holder set's contribution is a sharing of it.
  lemma Contribution<E(!new)>(F: Field<E>, holder: seq<nat>, z: E, pts: seq<E>, d: nat) returns (c: seq<Share<E>>)
    requires Laws(F) && Elems(F, pts) && F.zero !in pts && F.elem(z) && Outside(holder, |pts|) <= d
    ensures IsSharing(F, pts, d, z, c) && |c| == |pts|
    ensures forall i :: 0 <= i < |pts| ==>
      c[i] == Share(pts[i], F.mul(z, HolderBasis(F, holder, pts, |pts|, pts[i])))
      && (i !in holder ==> c[i].value == F.zero)
  {
    var b := seq(|pts|, i requires 0 <= i < |pts| => Share(pts[i], HolderBasis(F, holder, pts, |pts|, pts[i])));
    var p := HolderPoly(F, holder, pts, |pts|);
    EvalHolderPoly(F, holder, pts, |pts|, F.zero);
    HolderAtZero(F, holder, pts, |pts|);
    forall i | 0 <= i < |pts| ensures b[i] == Share(pts[i], Eval(F, p, pts[i])) {
      EvalHolderPoly(F, holder, pts, |pts|, pts[i]);
    }
    assert Deals(F, p, pts, d, F.one, b);
    c := MapValues(v => F.mul(z, v), b);
    SharingScale(F, pts, d, z, F.one, b, c);
    Units(F, z);
    forall i | 0 <= i < |pts| && i !in holder ensures c[i].value == F.zero {
      HolderAtOutsider(F, holder, pts, |pts|, i);
      MulZero(F, z);
    }
  }

  // The members hold a sharing, of degree at most d, of the sum of all contributions.
  lemma {:induction false} HolderSharing<E(!new)>(F: Field<E>, holders: seq<seq<nat>>, row: seq<E>, pts: seq<E>, d: nat,
      k: nat)
    requires Laws(F) && Elems(F, pts) && F.zero !in pts && Elems(F, row) && k <= |holders| == |row|
    requires forall a :: 0 <= a < |holders| ==> Outside(holders[a], |pts|) <= d
    ensures F.elem(Total(F, row, k)) && IsSharing(F, pts, d, Total(F, row, k), HolderShares(F, holders, row, pts, k))
  {
    var out := HolderShares(F, holders, row, pts, k);
    if k == 0 {
      SharingConst(F, pts, F.zero, out);
      SharingWiden(F, pts, 0, d, F.zero, out);
    } else {
      HolderSharing(F, holders, row, pts, d, k - 1);
      var before := HolderShares(F, holders, row, pts, k - 1);
      SharingShape(F, pts, d, Total(F, row, k - 1), before);
      var c := Contribution(F, holders[k - 1], row[k - 1], pts, d);
      forall i | 0 <= i < |pts| ensures out[i] == Share(pts[i], F.add(before[i].value, c[i].value)) {
        ShareElem(F, pts, d, Total(F, row, k - 1), before, i);
        Units(F, before[i].value);
      }
      SharingAdd(F, pts, d, Total(F, row, k - 1), row[k - 1], before, c, out);
    }
  }

  lemma ShareElem<E(!new)>(F: Field<E>, pts: seq<E>, d: nat, v: E, sh: seq<Share<E>>, i: nat)
    requires Laws(F) && Elems(F, pts) && IsSharing(F, pts, d, v, sh) && i < |pts|
    ensures |sh| == |pts| && F.elem(sh[i].value)
  {
    var p := SharingOf(F, pts, d, v, sh);
    EvalElem(F, p, pts[i]);
  }

  // The accumulation loop over holder sets and members.
  method SpreadShares<E>(F: Field<E>, holders: seq<seq<nat>>, row: seq<E>, pts: seq<E>) returns (sh: seq<Share<E>>)
    requires |holders| == |row|
    ensures sh == HolderShares(F, holders, row, pts, |holders|)
  {
    var values := seq(|pts|, i requires 0 <= i < |pts| => F.zero);
    for k := 0 to |holders|
      invariant |values| == |pts| && forall i :: 0 <= i < |pts| ==> values[i] == HolderShare(F, holders, row, pts, i, k)
    {
      for i := 0 to |pts|
        invariant |values| == |pts|
        invariant forall m :: 0 <= m < i ==> values[m] == HolderShare(F, holders, row, pts, m, k + 1)
        invariant forall m :: i <= m < |pts| ==> values[m] == HolderShare(F, holders, row, pts, m, k)
      {
        if i in holders[k] {
          var u := HolderBasisLoop(F, holders[k], pts, pts[i]);
          values := values[i := F.add(values[i], F.mul(row[k], u))];
        }
      }
    }
    sh := seq(|pts|, i requires 0 <= i < |pts| => Share(pts[i], values[i]));
  }

  // ---- the two protocols ----

  // z(0) + ... + z(n - 1).
  function SumTo<E>(F: Field<E>, z: nat -> E, n: nat): (v: E) {
    if n == 0 then F.zero else F.add(SumTo(F, z, n - 1), z(n - 1))
  }

  lemma {:induction false} TotalIsSum<E(!new)>(F: Field<E>, z: nat -> E, row: seq<E>, k: nat)
    requires k <= |row| && forall a :: 0 <= a < |row| ==> row[a] == z(a)
    ensures Total(F, row, k) == SumTo(F, z, k)
  {
    if k > 0 { TotalIsSum(F, z, row, k - 1); }
  }

  // The elements in `row`, one per holder set in order, spread over the members.
  ghost predicate Spread<E(!new)>(F: Field<E>, c: Committee<E>, degree: nat, row: seq<E>, sh: seq<Share<E>>)
    requires degree <= c.Size()
  {
    exists holders :: HolderSets.Listed(c.Size(), c.Size() - degree, holders) && |holders| == |row|
      && sh == HolderShares(F, holders, row, c.points, |holders|)
  }

  // A random sharing at the committee's threshold degree. `zeta` is what each holder set derives;
  // the secret is the sum of all of them, one per subset of n - t members.
  method RandShare<E(!new)>(F: Field<E>, c: Committee<E>, zeta: nat -> E) returns (sh: seq<Share<E>>, ghost secret: E)
    requires Laws(F) && ValidCommittee(F, c) && forall a :: F.elem(zeta(a))
    ensures IsSharing(F, c.points, c.threshold, secret, sh) && |sh| == c.Size()
    ensures secret == SumTo(F, zeta, HolderSets.Binomial(c.Size(), c.Size() - c.threshold))
    ensures exists row: seq<E> ::
      (forall a :: 0 <= a < |row| ==> row[a] == zeta(a)) && Spread(F, c, c.threshold, row, sh)
  {
    hide Laws, IsSharing, Total, HolderShares, Outside, SumTo, HolderSets.Binomial;
    var holders := HolderSets.Combinations(c.Size(), c.Size() - c.threshold);
    var row := seq(|holders|, a requires 0 <= a < |holders| => zeta(a));
    ListedSharing(F, c, c.threshold, holders, row);
    TotalIsSum(F, zeta, row, |holders|);
    secret := Total(F, row, |holders|);
    sh := SpreadShares(F, holders, row, c.points);
  }

  lemma HoldersFit(holders: seq<seq<nat>>, n: nat, degree: nat)
    requires degree <= n && HolderSets.Listed(n, n - degree, holders)
    ensures forall a :: 0 <= a < |holders| ==> Outside(holders[a], n) <= degree
  {
    forall a | 0 <= a < |holders| ensures Outside(holders[a], n) <= degree {
      assert holders[a] in holders;
      OutsideCount(n, n - degree, holders[a]);
    }
  }

  // Sums of the matrix of contributions: along row i, down column j, and over all of it.
  function RowSum<E>(F: Field<E>, zeta: (nat, nat) -> E, i: nat, n: nat): (v: E) {
    if n == 0 then F.zero else F.add(RowSum(F, zeta, i, n - 1), zeta(i, n - 1))
  }

  function ColumnSum<E>(F: Field<E>, zeta: (nat, nat) -> E, m: nat, j: nat): (v: E) {
    if m == 0 then F.zero else F.add(ColumnSum(F, zeta, m - 1, j), zeta(m - 1, j))
  }

  function PairSum<E>(F: Field<E>, zeta: (nat, nat) -> E, m: nat, n: nat): (v: E) {
    if m == 0 then F.zero else F.add(PairSum(F, zeta, m - 1, n), RowSum(F, zeta, m - 1, n))
  }

  lemma {:induction false} RowSumElem<E(!new)>(F: Field<E>, zeta: (nat, nat) -> E, i: nat, n: nat)
    requires Laws(F) && forall a, b :: F.elem(zeta(a, b))
    ensures F.elem(RowSum(F, zeta, i, n))
  {
    if n > 0 { RowSumElem(F, zeta, i, n - 1); }
  }

  lemma {:induction false} ColumnSumElem<E(!new)>(F: Field<E>, zeta: (nat, nat) -> E, m: nat, j: nat)
    requires Laws(F) && forall a, b :: F.elem(zeta(a, b))
    ensures F.elem(ColumnSum(F, zeta, m, j))
  {
    if m > 0 { ColumnSumElem(F, zeta, m - 1, j); }
  }

  // The rows added up are the whole matrix.
  lemma {:induction false} TotalOfRows<E(!new)>(F: Field<E>, zeta: (nat, nat) -> E, row: seq<E>, n: nat, k: nat)
    requires k <= |row| && forall i :: 0 <= i < |row| ==> row[i] == RowSum(F, zeta, i, n)
    ensures Total(F, row, k) == PairSum(F, zeta, k, n)
  {
    if k > 0 { TotalOfRows(F, zeta, row, n, k - 1); }
  }

  lemma {:induction false} TotalElem<E(!new)>(F: Field<E>, row: seq<E>, k: nat)
    requires Laws(F) && Elems(F, row) && k <= |row|
    ensures F.elem(Total(F, row, k))
  {
    if k > 0 { TotalElem(F, row, k - 1); }
  }

  // Totals of entry-wise sums.
  lemma {:induction false} TotalAdds<E(!new)>(F: Field<E>, a: seq<E>, b: seq<E>, c: seq<E>, k: nat)
    requires Laws(F) && Elems(F, a) && Elems(F, b) && k <= |a| == |b| == |c|
    requires forall j :: 0 <= j < |c| ==> c[j] == F.add(a[j], b[j])
    ensures Total(F, c, k) == F.add(Total(F, a, k), Total(F, b, k))
  {
    if k == 0 {
      Units(F, F.zero);
    } else {
      hide Laws;
      TotalAdds(F, a, b, c, k - 1);
      TotalElem(F, a, k - 1);
      TotalElem(F, b, k - 1);
      Interchange(F, Total(F, a, k - 1), Total(F, b, k - 1), a[k - 1], b[k - 1]);
    }
  }

  lemma {:induction false} TotalOfRow<E(!new)>(F: Field<E>, zeta: (nat, nat) -> E, i: nat, z: seq<E>, k: nat)
    requires k <= |z| && forall j :: 0 <= j < |z| ==> z[j] == zeta(i, j)
    ensures Total(F, z, k) == RowSum(F, zeta, i, k)
  {
    if k > 0 { TotalOfRow(F, zeta, i, z, k - 1); }
  }

  lemma Interchange<E(!new)>(F: Field<E>, a: E, b: E, c: E, d: E)
    requires Laws(F) && F.elem(a) && F.elem(b) && F.elem(c) && F.elem(d)
    ensures F.add(F.add(a, b), F.add(c, d)) == F.add(F.add(a, c), F.add(b, d))
  {
    Assoc(F, a, b, F.add(c, d));
    Assoc(F, b, c, d);
    Comm(F, b, c);
    Assoc(F, c, b, d);
    Assoc(F, a, c, F.add(b, d));
  }

  // So do the columns.
  lemma {:induction false} TotalOfColumns<E(!new)>(F: Field<E>, zeta: (nat, nat) -> E, m: nat, col: seq<E>)
    requires Laws(F) && forall a, b :: F.elem(zeta(a, b))
    requires forall j :: 0 <= j < |col| ==> col[j] == ColumnSum(F, zeta, m, j)
    ensures Total(F, col, |col|) == PairSum(F, zeta, m, |col|)
  {
    if m == 0 {
      TotalZero(F, col, |col|);
    } else {
      var before := seq(|col|, j requires 0 <= j < |col| => ColumnSum(F, zeta, m - 1, j));
      TotalOfColumns(F, zeta, m - 1, before);
      forall j | 0 <= j < |col| ensures F.elem(before[j]) { ColumnSumElem(F, zeta, m - 1, j); }
      var last := seq(|col|, j requires 0 <= j < |col| => zeta(m - 1, j));
      TotalAdds(F, before, last, col, |col|);
      TotalOfRow(F, zeta, m - 1, last, |col|);
    }
  }

  lemma {:induction false} TotalZero<E(!new)>(F: Field<E>, row: seq<E>, k: nat)
    requires Laws(F) && k <= |row| && forall i :: 0 <= i < |row| ==> row[i] == F.zero
    ensures Total(F, row, k) == F.zero
  {
    if k > 0 { TotalZero(F, row, k - 1); }
  }

  // Contributions of all holder sets, spread over one committee.
  lemma ListedSharing<E(!new)>(F: Field<E>, c: Committee<E>, degree: nat, holders: seq<seq<nat>>, row: seq<E>)
    requires Laws(F) && ValidCommittee(F, c) && degree <= c.Size() && Elems(F, row) && |row| == |holders|
    requires HolderSets.Listed(c.Size(), c.Size() - degree, holders)
    ensures |holders| == HolderSets.Binomial(c.Size(), c.Size() - degree)
    ensures IsSharing(F, c.points, degree, Total(F, row, |row|), HolderShares(F, holders, row, c.points, |holders|))
    ensures Spread(F, c, degree, row, HolderShares(F, holders, row, c.points, |holders|))
  {
    hide Laws, IsSharing, Total, HolderShares, Outside, HolderSets.Binomial;
    HoldersFit(holders, c.Size(), degree);
    HolderSharing(F, holders, row, c.points, degree, |holders|);
    HolderSets.CountListed(c.Size(), c.Size() - degree, holders);
  }

  function HolderCount<E>(c: Committee<E>, degree: nat): (n: nat)
    requires degree <= c.Size()
  {
    HolderSets.Binomial(c.Size(), c.Size() - degree)
  }

  ghost predicate RowSums<E>(F: Field<E>, zeta: (nat, nat) -> E, n: nat, row: seq<E>) {
    forall i :: 0 <= i < |row| ==> row[i] == RowSum(F, zeta, i, n)
  }

  ghost predicate ColumnSums<E>(F: Field<E>, zeta: (nat, nat) -> E, m: nat, col: seq<E>) {
    forall j :: 0 <= j < |col| ==> col[j] == ColumnSum(F, zeta, m, j)
  }

  // The mask the derived elements determine: the row sums spread over the source, the column sums
  // over the destination.
  ghost predicate Reshared<E(!new)>(F: Field<E>, src: Committee<E>, srcDegree: nat, dst: Committee<E>, dstDegree: nat,
      zeta: (nat, nat) -> E, mask: HandoffMask<E>)
    requires srcDegree <= src.Size() && dstDegree <= dst.Size()
  {
    && mask.sourceDegree == srcDegree && mask.destinationDegree == dstDegree
    && (exists row :: RowSums(F, zeta, HolderCount(dst, dstDegree), row) && Spread(F, src, srcDegree, row, mask.source))
    && exists col :: ColumnSums(F, zeta, HolderCount(src, srcDegree), col)
         && Spread(F, dst, dstDegree, col, mask.destination)
  }

  lemma MaskDetermined<E(!new)>(F: Field<E>, src: Committee<E>, dst: Committee<E>, zeta: (nat, nat) -> E, row: seq<E>,
      col: seq<E>, mask: HandoffMask<E>)
    requires mask.sourceDegree <= src.Size() && mask.destinationDegree <= dst.Size()
    requires |row| == HolderCount(src, mask.sourceDegree) && |col| == HolderCount(dst, mask.destinationDegree)
    requires RowSums(F, zeta, |col|, row) && ColumnSums(F, zeta, |row|, col)
    requires Spread(F, src, mask.sourceDegree, row, mask.source)
    requires Spread(F, dst, mask.destinationDegree, col, mask.destination)
    ensures Reshared(F, src, mask.sourceDegree, dst, mask.destinationDegree, zeta, mask)
  {
    hide RowSums, ColumnSums, Spread, HolderCount;
  }

  // The correlated pair: each pair of holder sets adds one element to both sides, so both sides
  // share the sum over all pairs.
  method ResharePair<E(!new)>(F: Field<E>, src: Committee<E>, srcDegree: nat, dst: Committee<E>, dstDegree: nat,
      zeta: (nat, nat) -> E)
    returns (r: Result<HandoffMask<E>, MpcError>, ghost secret: E)
    requires Laws(F) && ValidCommittee(F, src) && ValidCommittee(F, dst)
    requires forall a, b :: F.elem(zeta(a, b))
    ensures r == Err(InvalidThreshold) <==> srcDegree >= src.Size() || dstDegree >= dst.Size()
    ensures srcDegree < src.Size() && dstDegree < dst.Size() ==>
      && r.Ok? && r.value.sourceDegree == srcDegree && r.value.destinationDegree == dstDegree
      && IsSharing(F, src.points, srcDegree, secret, r.value.source)
      && IsSharing(F, dst.points, dstDegree, secret, r.value.destination)
      && secret == PairSum(F, zeta, HolderCount(src, srcDegree), HolderCount(dst, dstDegree))
      && Reshared(F, src, srcDegree, dst, dstDegree, zeta, r.value)
  {
    hide Laws, IsSharing, Total, PairSum, HolderShares, ValidCommittee, Spread, Reshared, RowSum, ColumnSum;
    hide HolderSets.Binomial, HolderSets.Listed;
    if srcDegree >= src.Size() || dstDegree >= dst.Size() {
      return Err(InvalidThreshold), F.zero;
    }
    var holders1 := HolderSets.Combinations(src.Size(), src.Size() - srcDegree);
    var holders2 := HolderSets.Combinations(dst.Size(), dst.Size() - dstDegree);
    var row, col := Sums(F, |holders1|, |holders2|, zeta);
    ListedSharing(F, src, srcDegree, holders1, row);
    ListedSharing(F, dst, dstDegree, holders2, col);
    secret := Total(F, row, |row|);
    var source := SpreadShares(F, holders1, row, src.points);
    var destination := SpreadShares(F, holders2, col, dst.points);
    r := Ok(HandoffMask(source, srcDegree, destination, dstDegree));
    MaskDetermined(F, src, dst, zeta, row, col, r.value);
  }

  // Row and column sums of the matrix of contributions, accumulated together.
  method Sums<E(!new)>(F: Field<E>, m: nat, n: nat, zeta: (nat, nat) -> E) returns (row: seq<E>, col: seq<E>)
    requires Laws(F) && forall a, b :: F.elem(zeta(a, b))
    ensures |row| == m && |col| == n && Elems(F, row) && Elems(F, col)
    ensures forall i :: 0 <= i < m ==> row[i] == RowSum(F, zeta, i, n)
    ensures forall j :: 0 <= j < n ==> col[j] == ColumnSum(F, zeta, m, j)
    ensures Total(F, row, m) == Total(F, col, n) == PairSum(F, zeta, m, n)
  {
    hide Laws, Total, PairSum;
    row, col := seq(m, i requires 0 <= i < m => F.zero), seq(n, j requires 0 <= j < n => F.zero);
    for i := 0 to m
      invariant |row| == m && |col| == n
      invariant forall a :: 0 <= a < m ==> row[a] == RowSum(F, zeta, a, if a < i then n else 0)
      invariant forall b :: 0 <= b < n ==> col[b] == ColumnSum(F, zeta, i, b)
    {
      for j := 0 to n
        invariant |row| == m && |col| == n
        invariant forall a :: 0 <= a < m ==> row[a] == RowSum(F, zeta, a, if a < i then n else if a == i then j else 0)
        invariant forall b :: 0 <= b < n ==> col[b] == ColumnSum(F, zeta, if b < j then i + 1 else i, b)
      {
        row := row[i := F.add(row[i], zeta(i, j))];
        col := col[j := F.add(col[j], zeta(i, j))];
      }
    }
    forall i | 0 <= i < m ensures F.elem(row[i]) { RowSumElem(F, zeta, i, n); }
    forall j | 0 <= j < n ensures F.elem(col[j]) { ColumnSumElem(F, zeta, m, j); }
    TotalOfRows(F, zeta, row, n, m);
    TotalOfColumns(F, zeta, m, col);
  }
}
