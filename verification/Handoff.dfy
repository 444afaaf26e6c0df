/** Cross-committee handoff, degree-reducing multiplication, and circuits built from them. */
module Handoff {
  import opened Wrappers
  import opened Sequences
  import opened Fields
  import opened Shamir
  import opened Sharings

  // Two sharings of one random value, one per committee; consumed by a single handoff.
  datatype HandoffMask<E> = HandoffMask(
    source: seq<Share<E>>,
    sourceDegree: nat,
    destination: seq<Share<E>>,
    destinationDegree: nat)

  // The randomness of one trusted-dealer mask: the value and the coefficients of both sides.
  datatype MaskCoins<E> = MaskCoins(r: E, source: seq<E>, destination: seq<E>)

  function ReshareDealer<E>(F: Field<E>, src: Committee<E>, srcDegree: nat, dst: Committee<E>, dstDegree: nat,
      coins: MaskCoins<E>)
    : (r: Result<HandoffMask<E>, MpcError>)
    requires |coins.source| == srcDegree && |coins.destination| == dstDegree
  {
    if srcDegree >= src.Size() || dstDegree >= dst.Size() then Err(InvalidThreshold)
    else
      var source :- Split(F, coins.r, srcDegree, src.points, coins.source);
      var destination :- Split(F, coins.r, dstDegree, dst.points, coins.destination);
      Ok(HandoffMask(source, srcDegree, destination, dstDegree))
  }

  // What a handoff needs of its mask: both sides share r, the source side with a degree that its
  // committee can open, the destination side with the destination's threshold degree.
  ghost predicate ValidMask<E(!new)>(F: Field<E>, src: Committee<E>, dst: Committee<E>, mask: HandoffMask<E>, r: E) {
    && mask.sourceDegree < src.Size()
    && IsSharing(F, src.points, mask.sourceDegree, r, mask.source)
    && IsSharing(F, dst.points, dst.threshold, r, mask.destination)
  }

  ghost predicate GoodMask<E(!new)>(F: Field<E>, src: Committee<E>, dst: Committee<E>, mask: HandoffMask<E>) {
    exists r :: ValidMask(F, src, dst, mask, r)
  }

  // The dealer's masks are good.
  lemma DealerMask<E(!new)>(F: Field<E>, src: Committee<E>, srcDegree: nat, dst: Committee<E>, coins: MaskCoins<E>)
    requires Laws(F) && ValidCommittee(F, src) && ValidCommittee(F, dst)
    requires F.elem(coins.r) && Elems(F, coins.source) && Elems(F, coins.destination)
    requires |coins.source| == srcDegree && |coins.destination| == dst.threshold
    ensures var m := ReshareDealer(F, src, srcDegree, dst, dst.threshold, coins);
      if 0 < srcDegree < src.Size()
      then m.Ok? && m.value.sourceDegree == srcDegree && ValidMask(F, src, dst, m.value, coins.r)
      else m == Err(InvalidThreshold)
  {
    SplitIsSharing(F, coins.r, srcDegree, src.points, coins.source);
    SplitIsSharing(F, coins.r, dst.threshold, dst.points, coins.destination);
  }

  function MaskedDifference<E(==)>(F: Field<E>, x: seq<Share<E>>,
      mask: seq<Share<E>>): (r: Result<seq<Share<E>>, MpcError>)
  {
    if |x| != |mask| then Err(ShareCountMismatch)
    else if !SamePoints(x, mask) then Err(InconsistentShares)
    else Ok(Zip(SubOf(F), x, mask))
  }

  function ApplyDifference<E>(F: Field<E>, delta: E, mask: seq<Share<E>>): (r: seq<Share<E>>) {
    MapValues(v => F.add(v, delta), mask)
  }

  function BasicHandoff<E(==)>(F: Field<E>, x: seq<Share<E>>, mask: HandoffMask<E>, src: Committee<E>,
      dst: Committee<E>)
    : (r: Result<seq<Share<E>>, MpcError>)
  {
    if |x| != |mask.source| || |x| != src.Size() then Err(ShareCountMismatch)
    else if |mask.destination| != dst.Size() then Err(ShareCountMismatch)
    else
      var deltaShares :- MaskedDifference(F, x, mask.source);
      var delta :- Reconstruct(F, deltaShares, src.threshold + 1);
      Ok(ApplyDifference(F, delta, mask.destination))
  }

  // xy - r, share by share.
  function MaskedProduct<E>(F: Field<E>, x: seq<Share<E>>, y: seq<Share<E>>, mask: seq<Share<E>>): (r: seq<Share<E>>) {
    Zip(SubOf(F), Zip(F.mul, x, y), mask)
  }

  function MultiplyAndHandoff<E(==)>(F: Field<E>, x: seq<Share<E>>, y: seq<Share<E>>, mask: HandoffMask<E>,
      src: Committee<E>, dst: Committee<E>)
    : (r: Result<seq<Share<E>>, MpcError>)
  {
    if |x| != |y| || |x| != |mask.source| || |x| != src.Size() then Err(ShareCountMismatch)
    else if |mask.destination| != dst.Size() then Err(ShareCountMismatch)
    else if src.Size() <= 2 * src.threshold then Err(TooFewParties)
    else if !SamePoints(x, y) || !SamePoints(x, mask.source) then Err(InconsistentShares)
    else
      var delta :- Reconstruct(F, MaskedProduct(F, x, y, mask.source), 2 * src.threshold + 1);
      Ok(ApplyDifference(F, delta, mask.destination))
  }

  // Opening v - r and adding the result to the other side of the mask moves v.
  lemma MaskedTransfer<E(!new)>(F: Field<E>, dst: Committee<E>, v: E, r: E, masked: seq<Share<E>>)
    requires Laws(F) && Elems(F, dst.points) && F.elem(v)
    requires IsSharing(F, dst.points, dst.threshold, r, masked)
    ensures IsSharing(F, dst.points, dst.threshold, v, ApplyDifference(F, Sub(F, v, r), masked))
  {
    SharingShape(F, dst.points, dst.threshold, r, masked);
    SubAdd(F, v, r);
    SharingShift(F, dst.points, dst.threshold, r, Sub(F, v, r), masked, ApplyDifference(F, Sub(F, v, r), masked));
  }

  // The dealer's opening of x - r, for sharings of any two degrees the committee can open.
  lemma OpenDifference<E(!new)>(F: Field<E>, pts: seq<E>, d1: nat, d2: nat, v: E, r: E, x: seq<Share<E>>,
      m: seq<Share<E>>, minShares: nat)
    requires Laws(F) && Elems(F, pts) && Distinct(pts)
    requires IsSharing(F, pts, d1, v, x) && IsSharing(F, pts, d2, r, m)
    requires d1 < |pts| && d2 < |pts| && minShares <= |pts|
    ensures |x| == |m| == |pts| && SamePoints(x, m)
    ensures Reconstruct(F, Zip(SubOf(F), x, m), minShares) == Ok(Sub(F, v, r))
    ensures ReconstructFromParts(F, pts, Values(Zip(SubOf(F), x, m)), minShares) == Ok(Sub(F, v, r))
  {
    SharingShape(F, pts, d1, v, x);
    SharingShape(F, pts, d2, r, m);
    var d := |pts| - 1;
    SharingWiden(F, pts, d1, d, v, x);
    SharingWiden(F, pts, d2, d, r, m);
    SharingSub(F, pts, d, v, r, x, m, Zip(SubOf(F), x, m));
    OpenSharing(F, pts, d, Sub(F, v, r), Zip(SubOf(F), x, m), minShares);
  }

  lemma HandoffOutput<E(!new)>(F: Field<E>, x: seq<Share<E>>, v: E, mask: HandoffMask<E>, r: E, src: Committee<E>,
      dst: Committee<E>)
    requires Laws(F) && ValidCommittee(F, src) && ValidMask(F, src, dst, mask, r)
    requires IsSharing(F, src.points, src.threshold, v, x)
    ensures BasicHandoff(F, x, mask, src, dst) == Ok(ApplyDifference(F, Sub(F, v, r), mask.destination))
  {
    OpenDifference(F, src.points, src.threshold, mask.sourceDegree, v, r, x, mask.source, src.threshold + 1);
    SharingShape(F, dst.points, dst.threshold, r, mask.destination);
  }

  // A handoff changes the holders and not the value.
  lemma HandoffMoves<E(!new)>(F: Field<E>, x: seq<Share<E>>, v: E, mask: HandoffMask<E>, src: Committee<E>,
      dst: Committee<E>)
    requires Laws(F) && ValidCommittee(F, src) && ValidCommittee(F, dst) && GoodMask(F, src, dst, mask)
    requires IsSharing(F, src.points, src.threshold, v, x)
    ensures var out := BasicHandoff(F, x, mask, src, dst);
      out.Ok? && IsSharing(F, dst.points, dst.threshold, v, out.value)
  {
    var r :| ValidMask(F, src, dst, mask, r);
    HandoffOutput(F, x, v, mask, r, src, dst);
    SharingShape(F, src.points, src.threshold, v, x);
    MaskedTransfer(F, dst, v, r, mask.destination);
  }

  lemma ProductSharing<E(!new)>(F: Field<E>, pts: seq<E>, d: nat, u: E, v: E, x: seq<Share<E>>, y: seq<Share<E>>)
    requires Laws(F) && Elems(F, pts)
    requires IsSharing(F, pts, d, u, x) && IsSharing(F, pts, d, v, y)
    ensures IsSharing(F, pts, 2 * d, F.mul(u, v), Zip(F.mul, x, y))
    ensures SamePoints(x, y) && |x| == |pts|
  {
    SharingShape(F, pts, d, u, x);
    SharingShape(F, pts, d, v, y);
    SharingMul(F, pts, d, d, u, v, x, y, Zip(F.mul, x, y));
  }

  lemma MultiplyOutput<E(!new)>(F: Field<E>, x: seq<Share<E>>, y: seq<Share<E>>, u: E, v: E, mask: HandoffMask<E>, r: E,
      src: Committee<E>, dst: Committee<E>)
    requires Laws(F) && ValidCommittee(F, src) && ValidMask(F, src, dst, mask, r)
    requires IsSharing(F, src.points, src.threshold, u, x) && IsSharing(F, src.points, src.threshold, v, y)
    ensures MultiplyAndHandoff(F, x, y, mask, src, dst)
            == if src.Size() <= 2 * src.threshold then Err(TooFewParties)
               else Ok(ApplyDifference(F, Sub(F, F.mul(u, v), r), mask.destination))
  {
    ProductSharing(F, src.points, src.threshold, u, v, x, y);
    SharingShape(F, src.points, mask.sourceDegree, r, mask.source);
    SharingShape(F, dst.points, dst.threshold, r, mask.destination);
    if src.Size() > 2 * src.threshold {
      OpenDifference(F, src.points, 2 * src.threshold, mask.sourceDegree, F.mul(u, v), r, Zip(F.mul, x, y), mask.source,
          2 * src.threshold + 1);
      assert forall i :: 0 <= i < |x| ==> Zip(F.mul, x, y)[i].point == x[i].point;
    }
  }

  // Multiplication brings the product back to the threshold degree, and needs n > 2t to do so.
  lemma MultiplyMoves<E(!new)>(F: Field<E>, x: seq<Share<E>>, y: seq<Share<E>>, u: E, v: E, mask: HandoffMask<E>,
      src: Committee<E>, dst: Committee<E>)
    requires Laws(F) && ValidCommittee(F, src) && ValidCommittee(F, dst) && GoodMask(F, src, dst, mask)
    requires IsSharing(F, src.points, src.threshold, u, x) && IsSharing(F, src.points, src.threshold, v, y)
    ensures var out := MultiplyAndHandoff(F, x, y, mask, src, dst);
      if src.Size() <= 2 * src.threshold then out == Err(TooFewParties)
      else out.Ok? && IsSharing(F, dst.points, dst.threshold, F.mul(u, v), out.value)
  {
    var r :| ValidMask(F, src, dst, mask, r);
    MultiplyOutput(F, x, y, u, v, mask, r, src, dst);
    SharingShape(F, src.points, src.threshold, u, x);
    SharingShape(F, src.points, src.threshold, v, y);
    MaskedTransfer(F, dst, F.mul(u, v), r, mask.destination);
  }
}
