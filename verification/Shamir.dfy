/** Committees, Shamir sharings and their reconstruction. */
module Shamir {
  import opened Wrappers
  import opened Sequences
  import opened Fields
  import opened Polynomials
  import opened Interpolation

  datatype MpcError =
    | InvalidThreshold
    | InsufficientParticipants
    | DuplicateShare
    | InsufficientShares
    | ShareCountMismatch
    | InconsistentShares
    | TooFewParties
    | InvalidBitLength

  datatype Share<E> = Share(point: E, value: E)

  datatype Committee<E> = Committee(threshold: nat, points: seq<E>) {
    function Size(): (n: nat) { |points| }
  }

  function EvaluationPoints<E>(F: Field<E>, n: nat): (pts: seq<E>)
    ensures |pts| == n
  {
    seq(n, i requires 0 <= i < n => F.ofNat(i + 1))
  }

  function ValidateParameters(threshold: nat, participants: nat): (r: Result<(), MpcError>) {
    if threshold == 0 then Err(InvalidThreshold)
    else if participants <= threshold then Err(InsufficientParticipants)
    else Ok(())
  }

  function NewCommittee<E>(F: Field<E>, threshold: nat, participants: nat): (r: Result<Committee<E>, MpcError>) {
    var _ :- ValidateParameters(threshold, participants);
    Ok(Committee(threshold, EvaluationPoints(F, participants)))
  }

  // The shares of the polynomial with the given coefficients, in point order.
  function Deal<E>(F: Field<E>, coeffs: seq<E>, pts: seq<E>): (sh: seq<Share<E>>)
    ensures |sh| == |pts|
  {
    seq(|pts|, i requires 0 <= i < |pts| => Share(pts[i], Eval(F, coeffs, pts[i])))
  }

  // `coins` are the random coefficients drawn for degrees 1..threshold.
  function Split<E>(F: Field<E>, secret: E, threshold: nat, pts: seq<E>,
      coins: seq<E>): (r: Result<seq<Share<E>>, MpcError>)
    requires |coins| == threshold
  {
    var _ :- ValidateParameters(threshold, |pts|);
    Ok(Deal(F, [secret] + coins, pts))
  }

  function Points<E>(sh: seq<Share<E>>): (pts: seq<E>)
    ensures |pts| == |sh|
  {
    seq(|sh|, i requires 0 <= i < |sh| => sh[i].point)
  }

  function Values<E>(sh: seq<Share<E>>): (vals: seq<E>)
    ensures |vals| == |sh|
  {
    seq(|sh|, i requires 0 <= i < |sh| => sh[i].value)
  }

  function Interpolate<E(==)>(F: Field<E>, pts: seq<E>, vals: seq<E>, minShares: nat): (r: Result<E, MpcError>)
    requires |pts| == |vals|
  {
    if |pts| < minShares then Err(InsufficientShares)
    else if !Distinct(pts) then Err(DuplicateShare)
    else Ok(AtZero(F, pts, vals))
  }

  // The loops of the implementation: a pairwise duplicate scan, then the recovery loop.
  method InterpolateLoop<E(==)>(F: Field<E>, pts: seq<E>, vals: seq<E>, minShares: nat)
    returns (r: Result<E, MpcError>)
    requires |pts| == |vals|
    ensures r == Interpolate(F, pts, vals, minShares)
  {
    if |pts| < minShares {
      return Err(InsufficientShares);
    }
    for i := 0 to |pts|
      invariant forall a, b :: 0 <= a < i && a < b < |pts| ==> pts[a] != pts[b]
    {
      for j := i + 1 to |pts|
        invariant forall b :: i < b < j ==> pts[i] != pts[b]
      {
        if pts[i] == pts[j] {
          return Err(DuplicateShare);
        }
      }
    }
    var acc := RecoverAtZero(F, pts, vals);
    return Ok(acc);
  }

  function Reconstruct<E(==)>(F: Field<E>, sh: seq<Share<E>>, minShares: nat): (r: Result<E, MpcError>) {
    Interpolate(F, Points(sh), Values(sh), minShares)
  }

  function ReconstructFromParts<E(==)>(F: Field<E>, pts: seq<E>, vals: seq<E>,
      minShares: nat): (r: Result<E, MpcError>)
  {
    if |pts| != |vals| then Err(ShareCountMismatch) else Interpolate(F, pts, vals, minShares)
  }

  // A committee over which sharings of its threshold degree determine their secret.
  ghost predicate ValidCommittee<E(!new)>(F: Field<E>, c: Committee<E>) {
    && 0 < c.threshold < |c.points|
    && Elems(F, c.points) && Distinct(c.points)
    && F.zero !in c.points
  }

  ghost predicate OnPoly<E(!new)>(F: Field<E>, p: seq<E>, pts: seq<E>, sh: seq<Share<E>>) {
    && |sh| == |pts|
    && forall i :: 0 <= i < |sh| ==> sh[i] == Share(pts[i], Eval(F, p, pts[i]))
  }

  // `p` deals the shares `sh` of `secret` and has degree at most d.
  ghost predicate Deals<E(!new)>(F: Field<E>, p: seq<E>, pts: seq<E>, d: nat, secret: E, sh: seq<Share<E>>) {
    Elems(F, p) && |p| <= d + 1 && Eval(F, p, F.zero) == secret && OnPoly(F, p, pts, sh)
  }

  // Always true: a definition guarded by `Unfold` stays folded until a proof mentions `Unfold`.
  ghost predicate Unfold(key: int) { true }

  // `sh` is a sharing of `secret`, of degree at most d, over the given points.
  ghost predicate IsSharing<E(!new)>(F: Field<E>, pts: seq<E>, d: nat, secret: E, sh: seq<Share<E>>) {
    forall key: int {:trigger Unfold(key)} :: Unfold(key) ==> exists p :: Deals(F, p, pts, d, secret, sh)
  }

  lemma SharingOf<E(!new)>(F: Field<E>, pts: seq<E>, d: nat, secret: E, sh: seq<Share<E>>) returns (p: seq<E>)
    requires Laws(F) && IsSharing(F, pts, d, secret, sh)
    ensures Elems(F, p) && |p| <= d + 1 && Eval(F, p, F.zero) == secret && OnPoly(F, p, pts, sh)
    ensures Deals(F, p, pts, d, secret, sh) && F.elem(secret) && |sh| == |pts|
  {
    assert Unfold(0);
    p :| Deals(F, p, pts, d, secret, sh);
    EvalElem(F, p, F.zero);
  }

  lemma SharingShape<E(!new)>(F: Field<E>, pts: seq<E>, d: nat, secret: E, sh: seq<Share<E>>)
    requires Laws(F) && IsSharing(F, pts, d, secret, sh)
    ensures F.elem(secret) && |sh| == |pts|
    ensures forall i :: 0 <= i < |sh| ==> sh[i].point == pts[i]
  {
    var _ := SharingOf(F, pts, d, secret, sh);
  }

  // What `split` deals is a sharing of the secret of the requested degree.
  lemma SplitIsSharing<E(!new)>(F: Field<E>, secret: E, t: nat, pts: seq<E>, coins: seq<E>)
    requires Laws(F) && F.elem(secret) && Elems(F, coins) && |coins| == t
    ensures Split(F, secret, t, pts, coins) == if t == 0 then Err(InvalidThreshold)
                                               else if |pts| <= t then Err(InsufficientParticipants)
                                               else Ok(Deal(F, [secret] + coins, pts))
    ensures IsSharing(F, pts, t, secret, Deal(F, [secret] + coins, pts))
  {
    var p := [secret] + coins;
    assert Elems(F, p);
    EvalAtZero(F, p);
    assert Deals(F, p, pts, t, secret, Deal(F, p, pts));
  }

  // Every sharing over distinct points opens to its secret when enough shares are present.
  lemma OpenSharing<E(!new)>(F: Field<E>, pts: seq<E>, d: nat, secret: E, sh: seq<Share<E>>, minShares: nat)
    requires Laws(F) && Elems(F, pts) && Distinct(pts)
    requires d < |pts| && minShares <= |pts|
    requires IsSharing(F, pts, d, secret, sh)
    ensures Reconstruct(F, sh, minShares) == Ok(secret)
    ensures ReconstructFromParts(F, pts, Values(sh), minShares) == Ok(secret)
  {
    var p := SharingOf(F, pts, d, secret, sh);
    assert Points(sh) == pts;
    RecoveryTheorem(F, pts, Values(sh), p);
  }

  // A sharing has one secret.
  lemma SecretUnique<E(!new)>(F: Field<E>, pts: seq<E>, d: nat, s1: E, s2: E, sh: seq<Share<E>>)
    requires Laws(F) && Elems(F, pts) && Distinct(pts) && d < |pts|
    requires IsSharing(F, pts, d, s1, sh) && IsSharing(F, pts, d, s2, sh)
    ensures s1 == s2
  {
    OpenSharing(F, pts, d, s1, sh, 0);
    OpenSharing(F, pts, d, s2, sh, 0);
  }

  function Select<T>(s: seq<T>, idx: seq<nat>): (r: seq<T>)
    requires forall k :: 0 <= k < |idx| ==> idx[k] < |s|
    ensures |r| == |idx|
  {
    seq(|idx|, k requires 0 <= k < |idx| => s[idx[k]])
  }

  lemma SelectDistinct<T>(s: seq<T>, idx: seq<nat>)
    requires Distinct(s) && Distinct(idx)
    requires forall k :: 0 <= k < |idx| ==> idx[k] < |s|
    ensures Distinct(Select(s, idx))
  {
    var sub := Select(s, idx);
    forall i, j | 0 <= i < j < |sub| ensures sub[i] != sub[j] {
      assert idx[i] != idx[j];
      if idx[i] < idx[j] { assert s[idx[i]] != s[idx[j]]; } else { assert s[idx[j]] != s[idx[i]]; }
    }
  }

  // The recovery loop on any t + 1 or more different shares returns the constant coefficient.
  lemma RecoverSelection<E(!new)>(F: Field<E>, secret: E, coins: seq<E>, pts: seq<E>, idx: seq<nat>, vals: seq<E>)
    requires Laws(F) && F.elem(secret) && Elems(F, coins) && Elems(F, pts) && Distinct(pts) && Distinct(idx)
    requires forall k :: 0 <= k < |idx| ==> idx[k] < |pts|
    requires |coins| < |idx| == |vals|
    requires forall k :: 0 <= k < |idx| ==> vals[k] == Eval(F, [secret] + coins, pts[idx[k]])
    ensures AtZero(F, Select(pts, idx), vals) == secret
  {
    SelectDistinct(pts, idx);
    EvalAtZero(F, [secret] + coins);
    RecoveryTheorem(F, Select(pts, idx), vals, [secret] + coins);
  }

  // Round trip: reconstruction succeeds on exactly the selections of at least t + 1 different
  // shares, in any order, and then returns the secret that was split.
  lemma RoundTrip<E(!new)>(F: Field<E>, secret: E, t: nat, pts: seq<E>, coins: seq<E>, idx: seq<nat>)
    requires Laws(F) && F.elem(secret) && Elems(F, coins) && |coins| == t
    requires Elems(F, pts) && Distinct(pts) && 0 < t < |pts|
    requires forall k :: 0 <= k < |idx| ==> idx[k] < |pts|
    ensures Split(F, secret, t, pts, coins).Ok?
    ensures Reconstruct(F, Select(Split(F, secret, t, pts, coins).value, idx), t + 1)
            == if |idx| <= t then Err(InsufficientShares)
               else if !Distinct(idx) then Err(DuplicateShare)
               else Ok(secret)
  {
    var sh := Select(Deal(F, [secret] + coins, pts), idx);
    var sub := Select(pts, idx);
    assert Points(sh) == sub;
    if Distinct(idx) {
      SelectDistinct(pts, idx);
      if |idx| > t {
        RecoverSelection(F, secret, coins, pts, idx, Values(sh));
      }
    } else {
      var i, j :| 0 <= i < j < |idx| && idx[i] == idx[j];
      assert sub[i] == sub[j];
    }
  }

  // Privacy: whatever the secret, any t shares are dealt by exactly one choice of the t random
  // coefficients, so t shares carry no information about it.
  lemma Privacy<E(!new)>(F: Field<E>, secret: E, t: nat, pts: seq<E>, vals: seq<E>) returns (coins: seq<E>)
    requires Laws(F) && F.elem(secret) && Elems(F, pts) && Distinct(pts) && F.zero !in pts
    requires |pts| == |vals| == t && Elems(F, vals)
    ensures |coins| == t && Elems(F, coins)
    ensures forall c :: |c| == t && Elems(F, c) ==>
      (Values(Deal(F, [secret] + c, pts)) == vals <==> c == coins)
  {
    coins := CoinsExist(F, secret, pts, vals);
    forall c | |c| == t && Elems(F, c) && Values(Deal(F, [secret] + c, pts)) == vals ensures c == coins {
      CoinsUnique(F, secret, pts, vals, c, coins);
    }
  }

  lemma CoinsExist<E(!new)>(F: Field<E>, secret: E, pts: seq<E>, vals: seq<E>) returns (coins: seq<E>)
    requires Laws(F) && F.elem(secret) && Elems(F, pts) && Distinct(pts) && F.zero !in pts
    requires |pts| == |vals| && Elems(F, vals)
    ensures |coins| == |pts| && Elems(F, coins) && Values(Deal(F, [secret] + coins, pts)) == vals
  {
    var xs, ys := [F.zero] + pts, [secret] + vals;
    var q := PolyThrough(F, xs, ys);
    EvalAtZero(F, q);
    assert Eval(F, q, xs[0]) == ys[0];
    coins := q[1..];
    assert q == [secret] + coins;
    forall i | 0 <= i < |pts| ensures Eval(F, q, pts[i]) == vals[i] {
      assert xs[i + 1] == pts[i] && ys[i + 1] == vals[i];
    }
  }

  lemma CoinsUnique<E(!new)>(F: Field<E>, secret: E, pts: seq<E>, vals: seq<E>, c1: seq<E>, c2: seq<E>)
    requires Laws(F) && F.elem(secret) && Elems(F, pts) && Distinct(pts) && F.zero !in pts
    requires |c1| == |c2| == |pts| == |vals| && Elems(F, c1) && Elems(F, c2)
    requires Values(Deal(F, [secret] + c1, pts)) == vals && Values(Deal(F, [secret] + c2, pts)) == vals
    ensures c1 == c2
  {
    var p1, p2 := [secret] + c1, [secret] + c2;
    var xs := [F.zero] + pts;
    EvalAtZero(F, p1);
    EvalAtZero(F, p2);
    forall i | 0 <= i < |xs| ensures Eval(F, p1, xs[i]) == Eval(F, p2, xs[i]) {
      if i > 0 {
        assert Values(Deal(F, p1, pts))[i - 1] == Values(Deal(F, p2, pts))[i - 1];
      }
    }
    SamePolynomial(F, p1, p2, xs);
    assert c1 == p1[1..] && c2 == p2[1..];
  }
}
