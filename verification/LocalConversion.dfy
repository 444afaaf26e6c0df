/** Conversion of an arithmetic sharing to boolean sharings of all its digits, without a network:
    add the digits of the mask to those of the opened difference, subtract the modulus, and keep
    whichever of the two is the canonical representative. */
module LocalConversion {
  import opened Wrappers
  import opened Fields
  import opened PrimeField
  import opened Shamir
  import opened Sharings
  import opened Handoff
  import opened Bits
  import opened Adder
  import opened Comparison

  function LocalAnd<E(==)>(B: Field<E>, a: seq<Share<E>>, b: seq<Share<E>>, c: Committee<E>, coins: MaskCoins<E>)
    : (r: Result<seq<Share<E>>, MpcError>)
    requires CoinsFit(c, coins)
  {
    var mask :- ReshareDealer(B, c, 2 * c.threshold, c, c.threshold, coins);
    MultiplyAndHandoff(B, a, b, mask, c, c)
  }

  function LocalFullAdder<E(==)>(B: Field<E>, a: bool, b: seq<Share<E>>, c: seq<Share<E>>, com: Committee<E>,
      coins: MaskCoins<E>)
    : (r: Result<(seq<Share<E>>, seq<Share<E>>), MpcError>)
    requires CoinsFit(com, coins)
  {
    var t :- LocalAnd(B, b, c, com, coins);
    if |c| < |b| || |t| < |b| then Err(ShareCountMismatch)
    else
      var af := if a then B.one else B.zero;
      Ok((seq(|b|, i requires 0 <= i < |b| => SumShare(B, af, b[i], c[i])),
          seq(|b|, i requires 0 <= i < |b| => CarryShare(B, af, b[i], c[i], t[i]))))
  }

  function LocalRippleFrom<E(==)>(B: Field<E>, bits: seq<bool>, rBits: seq<seq<Share<E>>>, com: Committee<E>,
      coins: seq<MaskCoins<E>>, k: nat, carry: seq<Share<E>>)
    : (r: Result<(seq<seq<Share<E>>>, seq<Share<E>>), MpcError>)
    requires k <= |bits| == |coins| && AllFit(com, coins)
    decreases |bits| - k
  {
    if k == |bits| then Ok(([], carry))
    else if k >= |rBits| then Err(InvalidBitLength)
    else
      var step :- LocalFullAdder(B, bits[k], rBits[k], carry, com, coins[k]);
      var rest :- LocalRippleFrom(B, bits, rBits, com, coins, k + 1, step.1);
      Ok(([step.0] + rest.0, rest.1))
  }

  function LocalRippleAdd<E(==)>(B: Field<E>, bits: seq<bool>, rBits: seq<seq<Share<E>>>, com: Committee<E>,
      coins: AdderCoins<E>)
    : (r: Result<(seq<seq<Share<E>>>, seq<Share<E>>), MpcError>)
    requires AdderCoinsFit(com, coins, |bits|)
  {
    var carry :- Split(B, B.zero, com.threshold, com.points, coins.carry);
    LocalRippleFrom(B, bits, rBits, com, coins.masks, 0, carry)
  }

  // a - b - c for a shared, b public and c shared.
  function DiffShare<E>(B: Field<E>, a: Share<E>, b: E, c: Share<E>): (s: Share<E>) {
    Share(a.point, B.add(B.add(a.value, b), c.value))
  }

  // (not a) b + (not a) c + b c, with the product of a and c given as u.
  function BorrowShare<E>(B: Field<E>, a: Share<E>, b: E, c: Share<E>, u: Share<E>): (s: Share<E>) {
    Share(a.point, BorrowValue(B, a.value, b, c.value, u.value))
  }

  function BorrowValue<E>(B: Field<E>, a: E, b: E, c: E, u: E): (v: E) {
    B.add(B.add(B.add(B.add(b, B.mul(b, a)), c), u), B.mul(b, c))
  }

  function FullSubtractor<E(==)>(B: Field<E>, a: seq<Share<E>>, b: bool, c: seq<Share<E>>, com: Committee<E>,
      coins: MaskCoins<E>)
    : (r: Result<(seq<Share<E>>, seq<Share<E>>), MpcError>)
    requires CoinsFit(com, coins)
  {
    var u :- LocalAnd(B, a, c, com, coins);
    if |c| < |a| || |u| < |a| then Err(ShareCountMismatch)
    else
      var bf := if b then B.one else B.zero;
      Ok((seq(|a|, i requires 0 <= i < |a| => DiffShare(B, a[i], bf, c[i])),
          seq(|a|, i requires 0 <= i < |a| => BorrowShare(B, a[i], bf, c[i], u[i]))))
  }

  function RippleSubFrom<E(==)>(B: Field<E>, sBits: seq<seq<Share<E>>>, qBits: seq<bool>, com: Committee<E>,
      coins: seq<MaskCoins<E>>, k: nat, borrow: seq<Share<E>>)
    : (r: Result<(seq<seq<Share<E>>>, seq<Share<E>>), MpcError>)
    requires k <= |sBits| == |coins| && AllFit(com, coins)
    decreases |sBits| - k
  {
    if k == |sBits| then Ok(([], borrow))
    else if k >= |qBits| then Err(InvalidBitLength)
    else
      var step :- FullSubtractor(B, sBits[k], qBits[k], borrow, com, coins[k]);
      var rest :- RippleSubFrom(B, sBits, qBits, com, coins, k + 1, step.1);
      Ok(([step.0] + rest.0, rest.1))
  }

  function RippleSub<E(==)>(B: Field<E>, sBits: seq<seq<Share<E>>>, qBits: seq<bool>, com: Committee<E>,
      coins: AdderCoins<E>)
    : (r: Result<(seq<seq<Share<E>>>, seq<Share<E>>), MpcError>)
    requires AdderCoinsFit(com, coins, |sBits|)
  {
    var borrow :- Split(B, B.zero, com.threshold, com.points, coins.carry);
    RippleSubFrom(B, sBits, qBits, com, coins.masks, 0, borrow)
  }

  // s + select (d + s): d where select is one, s where it is zero.
  function Mux<E(==)>(B: Field<E>, select: seq<Share<E>>, d: seq<Share<E>>, s: seq<Share<E>>, com: Committee<E>,
      coins: MaskCoins<E>)
    : (r: Result<seq<Share<E>>, MpcError>)
    requires CoinsFit(com, coins)
  {
    var t :- LocalAnd(B, select, Zip(B.add, d, s), com, coins);
    Ok(Zip(B.add, s, t))
  }

  function MuxFrom<E(==)>(B: Field<E>, select: seq<Share<E>>, d: seq<seq<Share<E>>>, s: seq<seq<Share<E>>>,
      com: Committee<E>, coins: seq<MaskCoins<E>>, k: nat)
    : (r: Result<seq<seq<Share<E>>>, MpcError>)
    requires k <= |coins| <= |d| && |coins| <= |s| && AllFit(com, coins)
    decreases |coins| - k
  {
    if k == |coins| then Ok([])
    else
      var one :- Mux(B, select, d[k], s[k], com, coins[k]);
      var rest :- MuxFrom(B, select, d, s, com, coins, k + 1);
      Ok([one] + rest)
  }

  // The number of binary digits of q.
  predicate Width(q: int, len: nat) {
    0 < len && Pow2(len - 1) <= q < Pow2(len)
  }

  function Digits(x: int, n: nat): (bits: seq<bool>)
    ensures |bits| == n
  {
    seq(n, k requires 0 <= k < n => Bit(x, k) == 1)
  }

  datatype ConversionCoins<E> = ConversionCoins(adder: AdderCoins<E>, borrow: AdderCoins<E>, mux: seq<MaskCoins<E>>)

  predicate ConversionFits<E>(cb: Committee<E>, coins: ConversionCoins<E>, len: nat) {
    && AdderCoinsFit(cb, coins.adder, len) && AdderCoinsFit(cb, coins.borrow, len + 1)
    && |coins.mux| == len && AllFit(cb, coins.mux)
  }

  function FullS2B<E(==)>(q: int, len: nat, B: Field<E>, x: seq<Share<int>>, pair: BitExtractPair<E>,
                          cf: Committee<int>, cb: Committee<E>, coins: ConversionCoins<E>)
    : (r: Result<seq<seq<Share<E>>>, MpcError>)
    requires 1 < q && ConversionFits(cb, coins, len)
  {
    if cf.Size() != cb.Size() || cf.threshold != cb.threshold then Err(InconsistentShares)
    else if cb.Size() <= 2 * cb.threshold then Err(TooFewParties)
    else if |x| != cf.Size() || |pair.arithmetic| != cf.Size() then Err(ShareCountMismatch)
    else if |pair.bits| != len then Err(InvalidBitLength)
    else
      var deltaShares :- MaskedDifference(Zq(q), x, pair.arithmetic);
      var delta :- Reconstruct(Zq(q), deltaShares, cf.threshold + 1);
      FromDelta(q, len, B, delta, pair, cb, coins)
  }

  // A conversion goes through only between committees of one size and threshold with more than twice
  // the threshold members, for as many shares as members and as many mask bits as asked for; the
  // first of these that fails decides the error.
  lemma FullS2BRefuses<E>(q: int, len: nat, B: Field<E>, x: seq<Share<int>>, pair: BitExtractPair<E>,
      cf: Committee<int>, cb: Committee<E>, coins: ConversionCoins<E>)
    requires 1 < q && ConversionFits(cb, coins, len)
    ensures var r := FullS2B(q, len, B, x, pair, cf, cb, coins);
      var committees := cf.Size() == cb.Size() && cf.threshold == cb.threshold;
      var shares := |x| == cf.Size() && |pair.arithmetic| == cf.Size();
      && (r.Ok? ==> committees && cb.Size() > 2 * cb.threshold && shares && |pair.bits| == len)
      && (!committees ==> r == Err(InconsistentShares))
      && (committees && cb.Size() <= 2 * cb.threshold ==> r == Err(TooFewParties))
      && (committees && cb.Size() > 2 * cb.threshold && !shares ==> r == Err(ShareCountMismatch))
      && (committees && cb.Size() > 2 * cb.threshold && shares && |pair.bits| != len ==> r == Err(InvalidBitLength))
  {
    hide FromDelta, MaskedDifference, Reconstruct, Zq;
  }

  // What follows the opening of delta = x - r.
  function FromDelta<E(==)>(q: int, len: nat, B: Field<E>, delta: int, pair: BitExtractPair<E>, cb: Committee<E>,
      coins: ConversionCoins<E>)
    : (r: Result<seq<seq<Share<E>>>, MpcError>)
    requires ConversionFits(cb, coins, len)
  {
    var sum :- LocalRippleAdd(B, Digits(delta, len), pair.bits, cb, coins.adder);
    var full := sum.0 + [sum.1];
    if |full| != len + 1 then Err(InvalidBitLength)
    else
      var diff :- RippleSub(B, full, Digits(q, len) + [false], cb, coins.borrow);
      if |diff.0| < len then Err(InvalidBitLength)
      else MuxFrom(B, MapValues(v => B.add(B.one, v), diff.1), diff.0, full, cb, coins.mux, 0)
  }

  // ---- correctness ----

  // The local multiplication gives what the networked one gives.
  lemma MultiplyTwins<E(!new)>(F: Field<E>, a: seq<Share<E>>, b: seq<Share<E>>, u: E, v: E, mask: HandoffMask<E>,
      c: Committee<E>)
    requires Laws(F) && ValidCommittee(F, c) && 2 * c.threshold < c.Size() && GoodMask(F, c, c, mask)
    requires Holds(F, c, u, a) && Holds(F, c, v, b)
    ensures MultiplyAndHandoff(F, a, b, mask, c, c) == MultiplyOpen(F, a, b, mask, c)
  {
    var r :| ValidMask(F, c, c, mask, r);
    MultiplyOutput(F, a, b, u, v, mask, r, c, c);
    ProductSharing(F, c.points, c.threshold, u, v, a, b);
    OpenDifference(F, c.points, 2 * c.threshold, mask.sourceDegree, F.mul(u, v), r, Zip(F.mul, a, b), mask.source,
        2 * c.threshold + 1);
    var m := MaskedProduct(F, a, b, mask.source);
    assert c.points[..|m|] == c.points;
  }

  lemma AndTwins<E(!new)>(B: Field<E>, a: seq<Share<E>>, b: seq<Share<E>>, u: E, v: E, c: Committee<E>,
      coins: MaskCoins<E>)
    requires Laws(B) && ValidCommittee(B, c) && 2 * c.threshold < c.Size() && ValidMaskCoins(B, c, coins)
    requires Holds(B, c, u, a) && Holds(B, c, v, b)
    ensures LocalAnd(B, a, b, c, coins) == SecretAnd(B, a, b, c, coins)
  {
    hide MultiplyAndHandoff, MultiplyOpen;
    DealerMask(B, c, 2 * c.threshold, c, coins);
    MultiplyTwins(B, a, b, u, v, ReshareDealer(B, c, 2 * c.threshold, c, c.threshold, coins).value, c);
  }

  lemma AdderTwins<E(!new)>(B: Field<E>, a: bool, b: seq<Share<E>>, c: seq<Share<E>>, u: E, v: E, com: Committee<E>,
      coins: MaskCoins<E>)
    requires Laws(B) && ValidCommittee(B, com) && 2 * com.threshold < com.Size() && ValidMaskCoins(B, com, coins)
    requires Holds(B, com, u, b) && Holds(B, com, v, c)
    ensures LocalFullAdder(B, a, b, c, com, coins) == FullAdder(B, a, b, c, com, coins)
  {
    hide LocalAnd, SecretAnd, SumShare, CarryShare;
    AndTwins(B, b, c, u, v, com, coins);
  }

  // The local ripple adder is the networked one.
  lemma {:induction false} RippleTwins<E(!new)>(B: Field<E>, bits: seq<bool>, rBits: seq<seq<Share<E>>>,
      com: Committee<E>, coins: seq<MaskCoins<E>>, k: nat, carry: seq<Share<E>>, d: int, r: int)
    requires BooleanField(B) && ValidCommittee(B, com) && 2 * com.threshold < com.Size()
    requires k <= |bits| == |coins| && AllFit(com, coins)
    requires forall i :: 0 <= i < |coins| ==> ValidMaskCoins(B, com, coins[i])
    requires forall i :: 0 <= i < |bits| ==> bits[i] == (Bit(d, i) == 1)
    requires SharesBits(B, com, r, rBits, |bits|)
    requires Holds(B, com, Enc(B, Carry(d, r, k)), carry)
    ensures LocalRippleFrom(B, bits, rBits, com, coins, k, carry) == RippleFrom(B, bits, rBits, com, coins, k, carry)
    decreases |bits| - k
  {
    hide FullAdder, LocalFullAdder, Holds, Carry, Enc, Shr, ValidCommittee;
    if k < |bits| {
      AdderTwins(B, bits[k], rBits[k], carry, Enc(B, Bit(r, k)), Enc(B, Carry(d, r, k)), com, coins[k]);
      var step := RippleStepHolds(B, bits, rBits, com, coins, k, carry, d, r);
      RippleTwins(B, bits, rBits, com, coins, k + 1, step.1, d, r);
    }
  }

  lemma AndHolds<E(!new)>(B: Field<E>, a: seq<Share<E>>, b: seq<Share<E>>, u: E, v: E, c: Committee<E>,
      coins: MaskCoins<E>)
    requires Laws(B) && ValidCommittee(B, c) && 2 * c.threshold < c.Size() && ValidMaskCoins(B, c, coins)
    requires Holds(B, c, u, a) && Holds(B, c, v, b)
    ensures LocalAnd(B, a, b, c, coins).Ok? && Holds(B, c, B.mul(u, v), LocalAnd(B, a, b, c, coins).value)
  {
    AndTwins(B, a, b, u, v, c, coins);
    SecretAndHolds(B, a, b, u, v, c, coins);
  }

  // The subtractor's formulas on encoded bits.
  lemma SubtractorBits<E(!new)>(B: Field<E>, a: int, b: int, c: int)
    requires BooleanField(B) && 0 <= a <= 1 && 0 <= b <= 1 && 0 <= c <= 1
    ensures B.add(B.add(Enc(B, a), Enc(B, b)), Enc(B, c)) == Enc(B, (a - b - c) % 2)
    ensures BorrowValue(B, Enc(B, a), Enc(B, b), Enc(B, c), B.mul(Enc(B, a), Enc(B, c)))
        == Enc(B, if a < b + c then 1 else 0)
  {
    OnePlusOne(B);
    Units(B, B.one);
    Units(B, B.zero);
    MulZero(B, B.one);
    MulZero(B, B.zero);
  }

  lemma DiffHolds<E(!new)>(B: Field<E>, com: Committee<E>, u: E, k: E, v: E, a: seq<Share<E>>, c: seq<Share<E>>,
      s: seq<Share<E>>)
    requires Laws(B) && ValidCommittee(B, com) && B.elem(k)
    requires Holds(B, com, u, a) && Holds(B, com, v, c)
    requires |s| == |a| == |c| && forall i :: 0 <= i < |s| ==> s[i] == DiffShare(B, a[i], k, c[i])
    ensures Holds(B, com, B.add(B.add(u, k), v), s)
  {
    SharingShape(B, com.points, com.threshold, u, a);
    SharingShape(B, com.points, com.threshold, v, c);
    var ak := MapValues(x => B.add(x, k), a);
    SharingShift(B, com.points, com.threshold, u, k, a, ak);
    SharingAdd(B, com.points, com.threshold, B.add(u, k), v, ak, c, s);
  }

  lemma BorrowHolds<E(!new)>(B: Field<E>, com: Committee<E>, u: E, k: E, v: E, w: E, a: seq<Share<E>>, c: seq<Share<E>>,
      t: seq<Share<E>>, s: seq<Share<E>>)
    requires Laws(B) && ValidCommittee(B, com) && B.elem(k)
    requires Holds(B, com, u, a) && Holds(B, com, v, c) && Holds(B, com, w, t)
    requires |s| == |a| == |c| == |t| && forall i :: 0 <= i < |s| ==> s[i] == BorrowShare(B, a[i], k, c[i], t[i])
    ensures Holds(B, com, BorrowValue(B, u, k, v, w), s)
  {
    SharingShape(B, com.points, com.threshold, u, a);
    SharingShape(B, com.points, com.threshold, v, c);
    SharingShape(B, com.points, com.threshold, w, t);
    var pts, d := com.points, com.threshold;
    var kk := Constant(pts, k);
    SharingConst(B, pts, k, kk);
    SharingWiden(B, pts, 0, d, k, kk);
    var ka, kc := MapValues(x => B.mul(k, x), a), MapValues(x => B.mul(k, x), c);
    SharingScale(B, pts, d, k, u, a, ka);
    SharingScale(B, pts, d, k, v, c, kc);
    var s1 := Zip(B.add, kk, ka);
    SharingAdd(B, pts, d, k, B.mul(k, u), kk, ka, s1);
    var s2 := Zip(B.add, s1, c);
    SharingAdd(B, pts, d, B.add(k, B.mul(k, u)), v, s1, c, s2);
    var s3 := Zip(B.add, s2, t);
    SharingAdd(B, pts, d, B.add(B.add(k, B.mul(k, u)), v), w, s2, t, s3);
    SharingAdd(B, pts, d, B.add(B.add(B.add(k, B.mul(k, u)), v), w), B.mul(k, v), s3, kc, s);
  }

  lemma FullSubtractorHolds<E(!new)>(B: Field<E>, a: seq<Share<E>>, b: bool, c: seq<Share<E>>, com: Committee<E>,
      coins: MaskCoins<E>, x: int, y: int)
    requires BooleanField(B) && ValidCommittee(B, com) && 2 * com.threshold < com.Size()
        && ValidMaskCoins(B, com, coins)
    requires 0 <= x <= 1 && 0 <= y <= 1
    requires Holds(B, com, Enc(B, x), a) && Holds(B, com, Enc(B, y), c)
    ensures var r := FullSubtractor(B, a, b, c, com, coins); var bv := if b then 1 else 0;
      && r.Ok?
      && Holds(B, com, Enc(B, (x - bv - y) % 2), r.value.0)
      && Holds(B, com, Enc(B, if x < bv + y then 1 else 0), r.value.1)
  {
    hide LocalAnd, BorrowValue;
    SharingShape(B, com.points, com.threshold, Enc(B, x), a);
    SharingShape(B, com.points, com.threshold, Enc(B, y), c);
    AndHolds(B, a, c, Enc(B, x), Enc(B, y), com, coins);
    var t := LocalAnd(B, a, c, com, coins).value;
    SharingShape(B, com.points, com.threshold, B.mul(Enc(B, x), Enc(B, y)), t);
    var bv := if b then 1 else 0;
    var r := FullSubtractor(B, a, b, c, com, coins).value;
    DiffHolds(B, com, Enc(B, x), Enc(B, bv), Enc(B, y), a, c, r.0);
    BorrowHolds(B, com, Enc(B, x), Enc(B, bv), Enc(B, y), B.mul(Enc(B, x), Enc(B, y)), a, c, t, r.1);
    SubtractorBits(B, x, bv, y);
  }

  lemma SubStepHolds<E(!new)>(B: Field<E>, sBits: seq<seq<Share<E>>>, qBits: seq<bool>, com: Committee<E>,
      coins: seq<MaskCoins<E>>, k: nat, borrow: seq<Share<E>>, s: int, q: int)
    returns (step: (seq<Share<E>>, seq<Share<E>>))
    requires BooleanField(B) && ValidCommittee(B, com) && 2 * com.threshold < com.Size()
    requires k < |sBits| == |coins| && k < |qBits| && ValidMaskCoins(B, com, coins[k])
    requires qBits[k] == (Bit(q, k) == 1)
    requires SharesBits(B, com, s, sBits, |sBits|)
    requires Holds(B, com, Enc(B, Borrow(s, q, k)), borrow)
    ensures FullSubtractor(B, sBits[k], qBits[k], borrow, com, coins[k]) == Ok(step)
    ensures Holds(B, com, Enc(B, Bit(s - q, k)), step.0) && Holds(B, com, Enc(B, Borrow(s, q, k + 1)), step.1)
  {
    hide FullSubtractor, Holds, Borrow, Enc, Shr, BooleanField, ValidCommittee;
    SubtractorStep(s, q, k);
    FullSubtractorHolds(B, sBits[k], qBits[k], borrow, com, coins[k], Bit(s, k), Borrow(s, q, k));
    step := FullSubtractor(B, sBits[k], qBits[k], borrow, com, coins[k]).value;
  }

  // Every position of the ripple subtractor holds the digit of s - q.
  lemma {:induction false} RippleSubHolds<E(!new)>(B: Field<E>, sBits: seq<seq<Share<E>>>, qBits: seq<bool>,
      com: Committee<E>, coins: seq<MaskCoins<E>>, k: nat, borrow: seq<Share<E>>, s: int, q: int)
    requires BooleanField(B) && ValidCommittee(B, com) && 2 * com.threshold < com.Size()
    requires k <= |sBits| == |coins| == |qBits| && AllFit(com, coins)
    requires forall i :: 0 <= i < |coins| ==> ValidMaskCoins(B, com, coins[i])
    requires forall i :: 0 <= i < |qBits| ==> qBits[i] == (Bit(q, i) == 1)
    requires SharesBits(B, com, s, sBits, |sBits|)
    requires Holds(B, com, Enc(B, Borrow(s, q, k)), borrow)
    ensures var out := RippleSubFrom(B, sBits, qBits, com, coins, k, borrow);
      && out.Ok? && |out.value.0| == |sBits| - k
      && (forall j :: 0 <= j < |sBits| - k ==> Holds(B, com, Enc(B, Bit(s - q, k + j)), out.value.0[j]))
      && Holds(B, com, Enc(B, Borrow(s, q, |sBits|)), out.value.1)
    decreases |sBits| - k
  {
    hide FullSubtractor, Holds, Borrow, Enc, Shr, BooleanField, ValidCommittee;
    if k < |sBits| {
      var step := SubStepHolds(B, sBits, qBits, com, coins, k, borrow, s, q);
      RippleSubHolds(B, sBits, qBits, com, coins, k + 1, step.1, s, q);
      var rest := RippleSubFrom(B, sBits, qBits, com, coins, k + 1, step.1).value.0;
      forall j | 0 <= j < |sBits| - k ensures Holds(B, com, Enc(B, Bit(s - q, k + j)), ([step.0] + rest)[j]) {
        if j > 0 {
          assert ([step.0] + rest)[j] == rest[j - 1] && k + 1 + (j - 1) == k + j;
        }
      }
    }
  }

  // Selecting between two encoded bits.
  lemma MuxBits<E(!new)>(B: Field<E>, c: int, d: int, s: int)
    requires BooleanField(B) && 0 <= c <= 1 && 0 <= d <= 1 && 0 <= s <= 1
    ensures B.add(Enc(B, s), B.mul(Enc(B, c), B.add(Enc(B, d), Enc(B, s)))) == Enc(B, if c == 1 then d else s)
  {
    OnePlusOne(B);
    Units(B, B.one);
    Units(B, B.zero);
    MulZero(B, B.one);
    MulZero(B, B.zero);
  }

  lemma MuxHolds<E(!new)>(B: Field<E>, select: seq<Share<E>>, d: seq<Share<E>>, s: seq<Share<E>>, com: Committee<E>,
      coins: MaskCoins<E>, cv: int, dv: int, sv: int)
    requires BooleanField(B) && ValidCommittee(B, com) && 2 * com.threshold < com.Size()
        && ValidMaskCoins(B, com, coins)
    requires 0 <= cv <= 1 && 0 <= dv <= 1 && 0 <= sv <= 1
    requires Holds(B, com, Enc(B, cv), select) && Holds(B, com, Enc(B, dv), d) && Holds(B, com, Enc(B, sv), s)
    ensures var r := Mux(B, select, d, s, com, coins);
      r.Ok? && Holds(B, com, Enc(B, if cv == 1 then dv else sv), r.value)
  {
    hide LocalAnd;
    SharingShape(B, com.points, com.threshold, Enc(B, dv), d);
    SharingShape(B, com.points, com.threshold, Enc(B, sv), s);
    var ds := Zip(B.add, d, s);
    SharingAdd(B, com.points, com.threshold, Enc(B, dv), Enc(B, sv), d, s, ds);
    var e := B.add(Enc(B, dv), Enc(B, sv));
    AndHolds(B, select, ds, Enc(B, cv), e, com, coins);
    var t := LocalAnd(B, select, ds, com, coins).value;
    SharingShape(B, com.points, com.threshold, B.mul(Enc(B, cv), e), t);
    SharingAdd(B, com.points, com.threshold, Enc(B, sv), B.mul(Enc(B, cv), e), s, t, Zip(B.add, s, t));
    MuxBits(B, cv, dv, sv);
  }

  lemma {:induction false} MuxFromHolds<E(!new)>(B: Field<E>, select: seq<Share<E>>, d: seq<seq<Share<E>>>,
      s: seq<seq<Share<E>>>, com: Committee<E>, coins: seq<MaskCoins<E>>, k: nat, cv: int, x: int, y: int)
    requires BooleanField(B) && ValidCommittee(B, com) && 2 * com.threshold < com.Size()
    requires k <= |coins| <= |d| && |coins| <= |s| && AllFit(com, coins) && 0 <= cv <= 1
    requires forall i :: 0 <= i < |coins| ==> ValidMaskCoins(B, com, coins[i])
    requires Holds(B, com, Enc(B, cv), select) && SharesBits(B, com, x, d, |coins|) && SharesBits(B, com, y, s, |coins|)
    ensures var out := MuxFrom(B, select, d, s, com, coins, k);
      && out.Ok? && |out.value| == |coins| - k
      && forall j ::
          0 <= j < |coins| - k ==> Holds(B, com, Enc(B, if cv == 1 then Bit(x, k + j) else Bit(y, k + j)), out.value[j])
    decreases |coins| - k
  {
    hide Mux, Holds, Enc, Bit, BooleanField, ValidCommittee;
    if k < |coins| {
      MuxHolds(B, select, d[k], s[k], com, coins[k], cv, Bit(x, k), Bit(y, k));
      MuxFromHolds(B, select, d, s, com, coins, k + 1, cv, x, y);
      var one := Mux(B, select, d[k], s[k], com, coins[k]).value;
      var rest := MuxFrom(B, select, d, s, com, coins, k + 1).value;
      forall j | 0 <= j < |coins| - k
        ensures Holds(B, com, Enc(B, if cv == 1 then Bit(x, k + j) else Bit(y, k + j)), ([one] + rest)[j])
      {
        if j > 0 {
          assert ([one] + rest)[j] == rest[j - 1] && k + 1 + (j - 1) == k + j;
        }
      }
    }
  }

  ghost predicate ValidConversion<E(!new)>(B: Field<E>, cb: Committee<E>, coins: ConversionCoins<E>, len: nat) {
    && ConversionFits(cb, coins, len)
    && ValidAdderCoins(B, cb, coins.adder, len) && ValidAdderCoins(B, cb, coins.borrow, len + 1)
    && forall i :: 0 <= i < len ==> ValidMaskCoins(B, cb, coins.mux[i])
  }

  // All digits of the sum of the opened difference and the mask, the carry being the last.
  lemma SumDigits<E(!new)>(B: Field<E>, len: nat, delta: int, r: int, pair: BitExtractPair<E>, cb: Committee<E>,
      coins: AdderCoins<E>)
    requires BooleanField(B) && ValidCommittee(B, cb) && 2 * cb.threshold < cb.Size()
        && ValidAdderCoins(B, cb, coins, len)
    requires 0 <= delta < Pow2(len) && 0 <= r < Pow2(len) && SharesBits(B, cb, r, pair.bits, len)
    ensures var out := LocalRippleAdd(B, Digits(delta, len), pair.bits, cb, coins);
      && out.Ok? && |out.value.0| == len
      && SharesBits(B, cb, delta + r, out.value.0 + [out.value.1], len + 1)
  {
    hide Holds, RippleFrom, LocalRippleFrom, Shr, Enc;
    SplitIsSharing(B, B.zero, cb.threshold, cb.points, coins.carry);
    var carry := Split(B, B.zero, cb.threshold, cb.points, coins.carry).value;
    StartCarry(B, cb, delta, r, carry);
    RippleTwins(B, Digits(delta, len), pair.bits, cb, coins.masks, 0, carry, delta, r);
    RippleHolds(B, Digits(delta, len), pair.bits, cb, coins.masks, 0, carry, delta, r);
    LastCarry(delta, r, len);
  }

  // The carry out of an n-digit addition is digit n of the sum.
  lemma LastCarry(x: int, y: int, n: nat)
    requires 0 <= x < Pow2(n) && 0 <= y < Pow2(n)
    ensures Carry(x, y, n) == Bit(x + y, n)
  {
    ShrBetween(x, n, 0);
    ShrBetween(y, n, 0);
    ShrBetween(x + y, n, if x + y < Pow2(n) then 0 else 1);
  }

  // The borrow out of an n-digit subtraction says whether it went below zero.
  lemma LastBorrow(x: int, y: int, n: nat)
    requires 0 <= x < Pow2(n) && 0 <= y < Pow2(n)
    ensures Borrow(x, y, n) == if x < y then 1 else 0
  {
    ShrBetween(x, n, 0);
    ShrBetween(y, n, 0);
    ShrBetween(x - y, n, if x < y then -1 else 0);
  }

  lemma ModulusDigits(q: int, len: nat, i: nat)
    requires 0 <= q < Pow2(len) && i < len + 1
    ensures (Digits(q, len) + [false])[i] == (Bit(q, i) == 1)
  {
    if i == len { ShrBetween(q, len, 0); }
  }

  lemma DiffDigits<E(!new)>(B: Field<E>, q: int, len: nat, s: int, full: seq<seq<Share<E>>>, cb: Committee<E>,
      coins: AdderCoins<E>)
    requires BooleanField(B) && ValidCommittee(B, cb) && 2 * cb.threshold < cb.Size()
        && ValidAdderCoins(B, cb, coins, len + 1)
    requires 0 <= q < Pow2(len) && 0 <= s < Pow2(len + 1) && |full| == len + 1 && SharesBits(B, cb, s, full, len + 1)
    ensures var out := RippleSub(B, full, Digits(q, len) + [false], cb, coins);
      && out.Ok? && |out.value.0| == len + 1
      && SharesBits(B, cb, s - q, out.value.0, len) && Holds(B, cb, Enc(B, if s < q then 1 else 0), out.value.1)
  {
    hide Holds, RippleSubFrom, Shr, Enc;
    SplitIsSharing(B, B.zero, cb.threshold, cb.points, coins.carry);
    var borrow := Split(B, B.zero, cb.threshold, cb.points, coins.carry).value;
    StartBorrow(B, cb, s, q, borrow);
    forall i | 0 <= i < len + 1 ensures (Digits(q, len) + [false])[i] == (Bit(q, i) == 1) {
      ModulusDigits(q, len, i);
    }
    RippleSubHolds(B, full, Digits(q, len) + [false], cb, coins.masks, 0, borrow, s, q);
    LastBorrow(s, q, len + 1);
  }

  lemma StartBorrow<E(!new)>(B: Field<E>, cb: Committee<E>, s: int, q: int, borrow: seq<Share<E>>)
    requires IsSharing(B, cb.points, cb.threshold, B.zero, borrow)
    ensures Holds(B, cb, Enc(B, Borrow(s, q, 0)), borrow)
  {
    SubtractorStep(s, q, 0);
  }

  // 1 + bit, as the implementation writes the negation of the borrow.
  lemma OnePlusHolds<E(!new)>(B: Field<E>, cb: Committee<E>, b: int, bit: seq<Share<E>>)
    requires BooleanField(B) && ValidCommittee(B, cb) && 0 <= b <= 1 && Holds(B, cb, Enc(B, b), bit)
    ensures Holds(B, cb, Enc(B, 1 - b), MapValues(v => B.add(B.one, v), bit))
  {
    var pts, d := cb.points, cb.threshold;
    SharingShape(B, pts, d, Enc(B, b), bit);
    var ones := Constant(pts, B.one);
    SharingConst(B, pts, B.one, ones);
    SharingWiden(B, pts, 0, d, B.one, ones);
    SharingAdd(B, pts, d, B.one, Enc(B, b), ones, bit, MapValues(v => B.add(B.one, v), bit));
    OnePlusOne(B);
    Units(B, B.one);
  }

  lemma FromDeltaUnfold<E(!new)>(q: int, len: nat, B: Field<E>, delta: int, pair: BitExtractPair<E>, cb: Committee<E>,
      coins: ConversionCoins<E>, sum: (seq<seq<Share<E>>>, seq<Share<E>>), diff: (seq<seq<Share<E>>>, seq<Share<E>>))
    requires ConversionFits(cb, coins, len)
    requires LocalRippleAdd(B, Digits(delta, len), pair.bits, cb, coins.adder) == Ok(sum) && |sum.0| == len
    requires RippleSub(B, sum.0 + [sum.1], Digits(q, len) + [false], cb, coins.borrow) == Ok(diff)
        && |diff.0| == len + 1
    ensures FromDelta(q, len, B, delta, pair, cb, coins)
            == MuxFrom(B, MapValues(v => B.add(B.one, v), diff.1), diff.0, sum.0 + [sum.1], cb, coins.mux, 0)
  {
    hide LocalRippleAdd, RippleSub, MuxFrom, Digits, AdderCoinsFit, AllFit;
  }

  lemma ConversionParts<E(!new)>(B: Field<E>, cb: Committee<E>, coins: ConversionCoins<E>, len: nat)
    requires ValidConversion(B, cb, coins, len)
    ensures ConversionFits(cb, coins, len) && AllFit(cb, coins.mux) && |coins.mux| == len
    ensures ValidAdderCoins(B, cb, coins.adder, len) && ValidAdderCoins(B, cb, coins.borrow, len + 1)
    ensures AdderCoinsFit(cb, coins.adder, len) && AdderCoinsFit(cb, coins.borrow, len + 1)
    ensures forall i :: 0 <= i < len ==> ValidMaskCoins(B, cb, coins.mux[i])
  {
    hide ValidAdderCoins, AdderCoinsFit, ValidMaskCoins;
  }

  lemma Narrower<E(!new)>(B: Field<E>, cb: Committee<E>, r: int, rBits: seq<seq<Share<E>>>, n: nat, m: nat)
    requires SharesBits(B, cb, r, rBits, n) && m <= n
    ensures SharesBits(B, cb, r, rBits, m)
  {
    hide Holds, Bit, Enc;
  }

  lemma WidthBounds(q: int, len: nat, delta: int, r: int)
    requires Width(q, len) && 0 <= delta < q && 0 <= r < q
    ensures 0 <= q < Pow2(len) && 0 <= delta < Pow2(len) && 0 <= r < Pow2(len) && 0 <= delta + r < Pow2(len + 1)
  {
  }

  // From the opened difference on, the run shares the digits of (delta + r) mod q.
  lemma FromDeltaHolds<E(!new)>(q: int, len: nat, B: Field<E>, delta: int, r: int, pair: BitExtractPair<E>,
      cb: Committee<E>, coins: ConversionCoins<E>)
    requires BooleanField(B) && ValidCommittee(B, cb) && 2 * cb.threshold < cb.Size()
        && ValidConversion(B, cb, coins, len)
    requires Width(q, len) && 0 <= delta < q && 0 <= r < q && SharesBits(B, cb, r, pair.bits, len)
    ensures ConversionFits(cb, coins, len)
    ensures var out := FromDelta(q, len, B, delta, pair, cb, coins);
        var x := if delta + r < q then delta + r else delta + r - q;
      && out.Ok? && |out.value| == len
      && forall k :: 0 <= k < len ==> Holds(B, cb, Enc(B, Bit(x, k)), out.value[k])
  {
    hide *;
    ConversionParts(B, cb, coins, len);
    WidthBounds(q, len, delta, r);
    SumDigits(B, len, delta, r, pair, cb, coins.adder);
    var sum := LocalRippleAdd(B, Digits(delta, len), pair.bits, cb, coins.adder).value;
    var full, s := sum.0 + [sum.1], delta + r;
    DiffDigits(B, q, len, s, full, cb, coins.borrow);
    var diff := RippleSub(B, full, Digits(q, len) + [false], cb, coins.borrow).value;
    OnePlusHolds(B, cb, if s < q then 1 else 0, diff.1);
    Narrower(B, cb, s, full, len + 1, len);
    MuxFromHolds(B, MapValues(v => B.add(B.one, v), diff.1), diff.0, full, cb, coins.mux, 0, if s < q then 0 else 1,
        s - q, s);
    FromDeltaUnfold(q, len, B, delta, pair, cb, coins, sum, diff);
  }

  // Full-width conversion: for every mask, the digits of the shared residue.
  lemma FullS2BTheorem<E(!new)>(q: int, len: nat, B: Field<E>, x: int, xs: seq<Share<int>>, pair: BitExtractPair<E>,
      r: int, cf: Committee<int>, cb: Committee<E>, coins: ConversionCoins<E>)
    requires Ready(q, B, cf, cb) && cf.Size() == cb.Size() && cf.threshold == cb.threshold
    requires Width(q, len) && ValidConversion(B, cb, coins, len)
    requires 0 <= x < q && Holds(Zq(q), cf, x, xs)
    requires 0 <= r < q && Holds(Zq(q), cf, r, pair.arithmetic) && |pair.bits| == len
        && SharesBits(B, cb, r, pair.bits, len)
    ensures 1 < q && ConversionFits(cb, coins, len)
    ensures var out := FullS2B(q, len, B, xs, pair, cf, cb, coins);
      && out.Ok? && |out.value| == len
      && forall k :: 0 <= k < len ==> Holds(B, cb, Enc(B, Bit(x, k)), out.value[k])
  {
    hide FromDelta, Holds, Enc, Bit, Width, BooleanField, ConversionFits;
    OpenFull(q, cf, x, r, xs, pair.arithmetic);
    var delta := (x - r) % q;
    FromDeltaHolds(q, len, B, delta, r, pair, cb, coins);
    ResidueBack(x, r, q);
    hide Zq, MaskedDifference, Reconstruct;
  }

  lemma ResidueBack(x: int, r: int, q: int)
    requires 0 <= x < q && 0 <= r < q
    ensures var delta := (x - r) % q; 0 <= delta < q && x == if delta + r < q then delta + r else delta + r - q
  {
    if x >= r {
      ModSmall(x - r, q);
    } else {
      ModUnique(x - r, -1, x - r + q, q);
    }
  }

  lemma OpenFull(q: int, cf: Committee<int>, x: int, r: int, xs: seq<Share<int>>, rs: seq<Share<int>>)
    requires Prime(q) && ValidCommittee(Zq(q), cf) && 0 <= x < q && 0 <= r < q
    requires Holds(Zq(q), cf, x, xs) && Holds(Zq(q), cf, r, rs)
    ensures |xs| == |rs| == cf.Size() && MaskedDifference(Zq(q), xs, rs).Ok?
    ensures Reconstruct(Zq(q), MaskedDifference(Zq(q), xs, rs).value, cf.threshold + 1) == Ok((x - r) % q)
  {
    ZqLaws(q);
    OpenDifference(Zq(q), cf.points, cf.threshold, cf.threshold, x, r, xs, rs, cf.threshold + 1);
    ModSmall(x, q);
    ModSmall(r, q);
    ResidueSub(q, x, r);
  }
}
