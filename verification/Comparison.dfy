/** Bounded secure comparison by bit decomposition of a masked difference. Arithmetic shares live
    modulo the prime q, boolean shares in a field of characteristic two. */
module Comparison {
  import opened Wrappers
  import opened Fields
  import opened PrimeField
  import opened Shamir
  import opened Sharings
  import opened Handoff
  import opened Bits
  import opened Adder

  const LIMB: int := 0x1_0000_0000_0000_0000 // 2^64

  // The signed value of a residue; only the low 64 bits of the magnitude are read.
  function CenteredLift(q: int, f: int): (r: int) {
    if f > q / 2 then -((q - f) % LIMB) else f % LIMB
  }

  function Canonical(delta: int, n: nat): (r: int) {
    if delta < 0 then Pow2(n) + delta else delta
  }

  function TwoComplementBits(delta: int, n: nat): (bits: seq<bool>)
    ensures |bits| == n
  {
    seq(n, k requires 0 <= k < n => Bit(Canonical(delta, n), k) == 1)
  }

  // A sharing of r together with boolean sharings of its digits.
  datatype BitExtractPair<E> = BitExtractPair(arithmetic: seq<Share<int>>, bits: seq<seq<Share<E>>>)

  // Digits of a shared value below 2^n, low first.
  function S2B<E(==)>(q: int, B: Field<E>, x: seq<Share<int>>, pair: BitExtractPair<E>, n: nat,
                      cf: Committee<int>, cb: Committee<E>, coins: AdderCoins<E>)
    : (r: Result<seq<seq<Share<E>>>, MpcError>)
    requires 1 < q && AdderCoinsFit(cb, coins, n)
  {
    var deltaShares :- MaskedDifference(Zq(q), x, pair.arithmetic);
    var delta :- OpenValue(Zq(q), deltaShares, cf, cf.threshold + 1);
    var sum :- RippleAdd(B, TwoComplementBits(CenteredLift(q, delta), n), pair.bits, cb, coins);
    Ok(sum.0)
  }

  // a - b + k, share by share.
  function ShiftedDifference<E>(F: Field<E>, a: seq<Share<E>>, b: seq<Share<E>>, k: E): (w: seq<Share<E>>) {
    MapValues(v => F.add(v, k), Zip(SubOf(F), a, b))
  }

  // The shared bit "a >= b" for values below 2^len: digit len of a - b + 2^len.
  function Geq<E(==)>(q: int, B: Field<E>, a: seq<Share<int>>, b: seq<Share<int>>, pair: BitExtractPair<E>, len: nat,
                      cf: Committee<int>, cb: Committee<E>, coins: AdderCoins<E>)
    : (r: Result<seq<Share<E>>, MpcError>)
    requires 1 < q && AdderCoinsFit(cb, coins, len + 1)
  {
    var w := ShiftedDifference(Zq(q), a, b, Zq(q).ofNat(Pow2(len)));
    var bits :- S2B(q, B, w, pair, len + 1, cf, cb, coins);
    if len < |bits| then Ok(bits[len]) else Err(InvalidBitLength)
  }

  // ---- correctness ----

  // The integer the adder works on: the canonical difference of the opened value plus the mask.
  function MaskedSum(q: int, x: int, r: int, n: nat): (s: int)
    requires 1 < q
  {
    Canonical(CenteredLift(q, (x - r) % q), n) + r
  }

  // The lift is the integer nearest to zero with this residue, whenever it fits in 64 bits; otherwise
  // its sign with the low 64 bits of its magnitude.
  lemma CenteredExactly(q: int, f: int, d: int)
    requires 1 < q && 0 <= f < q && d % q == f && -q < 2 * d <= q
    ensures -LIMB < d < LIMB ==> CenteredLift(q, f) == d
    ensures CenteredLift(q, f) == if d < 0 then -(-d % LIMB) else d % LIMB
  {
    if d >= 0 {
      ModSmall(d, q);
      if d < LIMB { ModSmall(d, LIMB); }
    } else {
      ModShift(d + q, d, 1, q);
      ModSmall(d + q, q);
      if -d < LIMB { ModSmall(-d, LIMB); }
    }
  }

  // For 0 <= x, r < 2^n the lift is exact and the adder sees x, up to 2^n above its digits.
  lemma MaskedSumDigits(q: int, x: int, r: int, n: nat, k: nat)
    requires 1 < q && 2 * Pow2(n) < q && Pow2(n) <= LIMB
    requires 0 <= x < Pow2(n) && 0 <= r < Pow2(n) && k < n
    ensures Bit(MaskedSum(q, x, r, n), k) == Bit(x, k)
  {
    var d := x - r;
    if d >= 0 {
      ModSmall(d, q);
      ModSmall(d, LIMB);
      assert MaskedSum(q, x, r, n) == x;
    } else {
      ModShift(d + q, d, 1, q);
      ModSmall(d + q, q);
      ModSmall(-d, LIMB);
      assert CenteredLift(q, d % q) == d;
      assert MaskedSum(q, x, r, n) == x + Pow2(n);
      BitAddPow(x, n, k);
    }
  }

  ghost predicate ValidAdderCoins<E(!new)>(B: Field<E>, cb: Committee<E>, coins: AdderCoins<E>, n: nat) {
    && AdderCoinsFit(cb, coins, n) && Elems(B, coins.carry)
    && forall i :: 0 <= i < n ==> ValidMaskCoins(B, cb, coins.masks[i])
  }

  // Arithmetic and boolean committees that can both run the protocol.
  ghost predicate Ready<E(!new)>(q: int, B: Field<E>, cf: Committee<int>, cb: Committee<E>) {
    && Prime(q) && ValidCommittee(Zq(q), cf) && 2 * cf.threshold < cf.Size()
    && BooleanField(B) && ValidCommittee(B, cb) && 2 * cb.threshold < cb.Size()
  }

  ghost predicate ValidPair<E(!new)>(q: int, B: Field<E>, cf: Committee<int>, cb: Committee<E>, pair: BitExtractPair<E>,
      r: int, n: nat)
    requires 1 < q
  {
    && 0 <= r < Pow2(n) && Holds(Zq(q), cf, r % q, pair.arithmetic)
    && SharesBits(B, cb, r, pair.bits, n)
  }

  lemma RippleAddHolds<E(!new)>(B: Field<E>, d: int, r: int, n: nat, bits: seq<bool>, rBits: seq<seq<Share<E>>>,
      cb: Committee<E>, coins: AdderCoins<E>)
    requires BooleanField(B) && ValidCommittee(B, cb) && 2 * cb.threshold < cb.Size()
    requires ValidAdderCoins(B, cb, coins, n) && |bits| == n && forall i :: 0 <= i < n ==> bits[i] == (Bit(d, i) == 1)
    requires SharesBits(B, cb, r, rBits, n)
    ensures var out := RippleAdd(B, bits, rBits, cb, coins);
      && out.Ok? && |out.value.0| == n
      && forall k :: 0 <= k < n ==> Holds(B, cb, Enc(B, Bit(d + r, k)), out.value.0[k])
  {
    hide Holds, Carry, Shr;
    SplitIsSharing(B, B.zero, cb.threshold, cb.points, coins.carry);
    var carry := Split(B, B.zero, cb.threshold, cb.points, coins.carry).value;
    StartCarry(B, cb, d, r, carry);
    RippleHolds(B, bits, rBits, cb, coins.masks, 0, carry, d, r);
  }

  lemma StartCarry<E(!new)>(B: Field<E>, cb: Committee<E>, d: int, r: int, carry: seq<Share<E>>)
    requires IsSharing(B, cb.points, cb.threshold, B.zero, carry)
    ensures Holds(B, cb, Enc(B, Carry(d, r, 0)), carry)
  {
    AdderStep(d, r, 0);
  }

  lemma OpenMasked(q: int, cf: Committee<int>, x: int, r: int, xs: seq<Share<int>>, rs: seq<Share<int>>)
    requires Prime(q) && ValidCommittee(Zq(q), cf)
    requires Holds(Zq(q), cf, x % q, xs) && Holds(Zq(q), cf, r % q, rs)
    ensures MaskedDifference(Zq(q), xs, rs).Ok?
    ensures OpenValue(Zq(q), MaskedDifference(Zq(q), xs, rs).value, cf, cf.threshold + 1) == Ok((x - r) % q)
  {
    ZqLaws(q);
    ResidueSub(q, x, r);
    OpenMaskedIn(Zq(q), cf, x % q, r % q, xs, rs);
  }

  lemma ResidueSub(q: int, x: int, r: int)
    requires 1 < q
    ensures Sub(Zq(q), x % q, r % q) == (x - r) % q
  {
    ZqSub(q, x % q, r % q);
    assert x == q * (x / q) + x % q && r == q * (r / q) + r % q;
    assert x - r == (x % q - r % q) + (x / q - r / q) * q by {
      assert (x / q - r / q) * q == q * (x / q) - q * (r / q);
    }
    ModShift(x - r, x % q - r % q, x / q - r / q, q);
  }

  lemma OpenMaskedIn<E(!new)>(F: Field<E>, cf: Committee<E>, x: E, r: E, xs: seq<Share<E>>, rs: seq<Share<E>>)
    requires Laws(F) && ValidCommittee(F, cf) && Holds(F, cf, x, xs) && Holds(F, cf, r, rs)
    ensures MaskedDifference(F, xs, rs).Ok?
    ensures OpenValue(F, MaskedDifference(F, xs, rs).value, cf, cf.threshold + 1) == Ok(Sub(F, x, r))
  {
    OpenDifference(F, cf.points, cf.threshold, cf.threshold, x, r, xs, rs, cf.threshold + 1);
    assert cf.points[..|Zip(SubOf(F), xs, rs)|] == cf.points;
  }

  lemma S2BUnfold<E(!new)>(q: int, B: Field<E>, xs: seq<Share<int>>, pair: BitExtractPair<E>, n: nat,
                           cf: Committee<int>, cb: Committee<E>, coins: AdderCoins<E>, delta: int)
    requires 1 < q && AdderCoinsFit(cb, coins, n)
    requires MaskedDifference(Zq(q), xs, pair.arithmetic).Ok?
    requires OpenValue(Zq(q), MaskedDifference(Zq(q), xs, pair.arithmetic).value, cf, cf.threshold + 1) == Ok(delta)
    requires RippleAdd(B, TwoComplementBits(CenteredLift(q, delta), n), pair.bits, cb, coins).Ok?
    ensures S2B(q, B, xs, pair, n, cf, cb, coins)
            == Ok(RippleAdd(B, TwoComplementBits(CenteredLift(q, delta), n), pair.bits, cb, coins).value.0)
  {
    hide Zq, RippleAdd, MaskedDifference, OpenValue, TwoComplementBits, CenteredLift;
  }

  lemma OpenPair<E(!new)>(q: int, B: Field<E>, x: int, xs: seq<Share<int>>, pair: BitExtractPair<E>, r: int, n: nat,
      cf: Committee<int>, cb: Committee<E>)
    requires Ready(q, B, cf, cb) && ValidPair(q, B, cf, cb, pair, r, n) && Holds(Zq(q), cf, x % q, xs)
    ensures MaskedDifference(Zq(q), xs, pair.arithmetic).Ok?
    ensures OpenValue(Zq(q), MaskedDifference(Zq(q), xs, pair.arithmetic).value, cf, cf.threshold + 1)
        == Ok((x - r) % q)
  {
    hide Zq, ValidCommittee, BooleanField, Holds, SharesBits, MaskedDifference, OpenValue;
    OpenMasked(q, cf, x, r, xs, pair.arithmetic);
  }

  lemma AddPair<E(!new)>(q: int, B: Field<E>, delta: int, pair: BitExtractPair<E>, r: int, n: nat, cf: Committee<int>,
      cb: Committee<E>, coins: AdderCoins<E>)
    requires Ready(q, B, cf, cb) && ValidPair(q, B, cf, cb, pair, r, n) && ValidAdderCoins(B, cb, coins, n)
    ensures var out := RippleAdd(B, TwoComplementBits(delta, n), pair.bits, cb, coins);
      && out.Ok? && |out.value.0| == n
      && forall k :: 0 <= k < n ==> Holds(B, cb, Enc(B, Bit(Canonical(delta, n) + r, k)), out.value.0[k])
  {
    hide Zq, ValidCommittee, BooleanField, Holds, SharesBits, RippleAdd, Bit, Canonical;
    RippleAddHolds(B, Canonical(delta, n), r, n, TwoComplementBits(delta, n), pair.bits, cb, coins);
  }

  // The conversion shares exactly the digits of the masked sum, whatever the shared value.
  lemma S2BDigits<E(!new)>(q: int, B: Field<E>, x: int, xs: seq<Share<int>>, pair: BitExtractPair<E>, r: int, n: nat,
                           cf: Committee<int>, cb: Committee<E>, coins: AdderCoins<E>)
    requires Ready(q, B, cf, cb) && ValidPair(q, B, cf, cb, pair, r, n) && ValidAdderCoins(B, cb, coins, n)
    requires Holds(Zq(q), cf, x % q, xs)
    ensures var out := S2B(q, B, xs, pair, n, cf, cb, coins);
      && out.Ok? && |out.value| == n
      && forall k :: 0 <= k < n ==> Holds(B, cb, Enc(B, Bit(MaskedSum(q, x, r, n), k)), out.value[k])
  {
    hide *;
    RunFacts(q, B, cf, cb, coins, n);
    var delta := (x - r) % q;
    var lift := CenteredLift(q, delta);
    OpenPair(q, B, x, xs, pair, r, n, cf, cb);
    AddPair(q, B, lift, pair, r, n, cf, cb, coins);
    S2BUnfold(q, B, xs, pair, n, cf, cb, coins, delta);
    MaskedSumUnfold(q, x, r, n);
  }

  lemma RunFacts<E(!new)>(q: int, B: Field<E>, cf: Committee<int>, cb: Committee<E>, coins: AdderCoins<E>, n: nat)
    requires Ready(q, B, cf, cb) && ValidAdderCoins(B, cb, coins, n)
    ensures 1 < q && AdderCoinsFit(cb, coins, n)
  {
    hide Zq, ValidCommittee, BooleanField, AdderCoinsFit, ValidMaskCoins, Elems;
  }

  lemma MaskedSumUnfold(q: int, x: int, r: int, n: nat)
    requires 1 < q
    ensures MaskedSum(q, x, r, n) == Canonical(CenteredLift(q, (x - r) % q), n) + r
  {
  }

  // On values below 2^n the conversion shares the digits of the value itself.
  lemma S2BTheorem<E(!new)>(q: int, B: Field<E>, x: int, xs: seq<Share<int>>, pair: BitExtractPair<E>, r: int, n: nat,
                            cf: Committee<int>, cb: Committee<E>, coins: AdderCoins<E>)
    requires Ready(q, B, cf, cb) && ValidPair(q, B, cf, cb, pair, r, n) && ValidAdderCoins(B, cb, coins, n)
    requires 2 * Pow2(n) < q && Pow2(n) <= LIMB && 0 <= x < Pow2(n)
    requires Holds(Zq(q), cf, x, xs)
    ensures var out := S2B(q, B, xs, pair, n, cf, cb, coins);
      && out.Ok? && |out.value| == n
      && forall k :: 0 <= k < n ==> Holds(B, cb, Enc(B, Bit(x, k)), out.value[k])
  {
    hide S2B, Ready, ValidPair, ValidAdderCoins, Holds, MaskedSum, Zq, Shr;
    ModSmall(x, q);
    S2BDigits(q, B, x, xs, pair, r, n, cf, cb, coins);
    PairRange(q, B, cf, cb, pair, r, n);
    forall k | 0 <= k < n ensures Bit(MaskedSum(q, x, r, n), k) == Bit(x, k) {
      MaskedSumDigits(q, x, r, n, k);
    }
  }

  lemma PairRange<E(!new)>(q: int, B: Field<E>, cf: Committee<int>, cb: Committee<E>, pair: BitExtractPair<E>, r: int,
      n: nat)
    requires 1 < q && ValidPair(q, B, cf, cb, pair, r, n)
    ensures 0 <= r < Pow2(n)
  {
  }

  // Offline generation of a bit-extract pair for r below 2^n: share r, then each of its digits.
  function GeneratePair<E>(q: int, B: Field<E>, cf: Committee<int>, cb: Committee<E>, n: nat, r: nat, coins: seq<int>,
      bitCoins: seq<seq<E>>)
    : (p: Result<BitExtractPair<E>, MpcError>)
    requires 1 < q && |coins| == cf.threshold && |bitCoins| == n
    requires forall k :: 0 <= k < n ==> |bitCoins[k]| == cb.threshold
  {
    var arithmetic :- Split(Zq(q), Zq(q).ofNat(r), cf.threshold, cf.points, coins);
    var _ :- ValidateParameters(cb.threshold, cb.Size());
    Ok(BitExtractPair(arithmetic,
      seq(n, k requires 0 <= k < n => Deal(B, [Enc(B, Bit(r, k))] + bitCoins[k], cb.points))))
  }

  lemma GeneratedPairValid<E(!new)>(q: int, B: Field<E>, cf: Committee<int>, cb: Committee<E>, n: nat, r: nat,
      coins: seq<int>, bitCoins: seq<seq<E>>)
    requires Ready(q, B, cf, cb) && r < Pow2(n)
    requires |coins| == cf.threshold && Elems(Zq(q), coins) && |bitCoins| == n
    requires forall k :: 0 <= k < n ==> |bitCoins[k]| == cb.threshold && Elems(B, bitCoins[k])
    ensures var p := GeneratePair(q, B, cf, cb, n, r, coins, bitCoins);
      p.Ok? && ValidPair(q, B, cf, cb, p.value, r, n)
  {
    ZqLaws(q);
    SplitIsSharing(Zq(q), r % q, cf.threshold, cf.points, coins);
    var p := GeneratePair(q, B, cf, cb, n, r, coins, bitCoins).value;
    forall k | 0 <= k < n ensures Holds(B, cb, Enc(B, Bit(r, k)), p.bits[k]) {
      SplitIsSharing(B, Enc(B, Bit(r, k)), cb.threshold, cb.points, bitCoins[k]);
    }
  }

  lemma ShiftedDifferenceHolds<E(!new)>(F: Field<E>, c: Committee<E>, u: E, v: E, k: E, a: seq<Share<E>>,
      b: seq<Share<E>>)
    requires Laws(F) && ValidCommittee(F, c) && F.elem(k) && Holds(F, c, u, a) && Holds(F, c, v, b)
    ensures Holds(F, c, F.add(Sub(F, u, v), k), ShiftedDifference(F, a, b, k))
  {
    SharingShape(F, c.points, c.threshold, u, a);
    SharingShape(F, c.points, c.threshold, v, b);
    var d := Zip(SubOf(F), a, b);
    SharingSub(F, c.points, c.threshold, u, v, a, b, d);
    SharingShift(F, c.points, c.threshold, Sub(F, u, v), k, d, ShiftedDifference(F, a, b, k));
  }

  lemma DifferenceResidue(q: int, a: int, b: int, k: int)
    requires 1 < q
    ensures Zq(q).add(Sub(Zq(q), a, b), k % q) == (a - b + k) % q
  {
    ZqSub(q, a, b);
    ModAdd(a - b, k % q, q);
    ModAdd(a - b, k, q);
  }

  // The digit the comparison ends in, for any shared values.
  function GeqBit(q: int, a: int, b: int, r: int, len: nat): (bit: int)
    requires 1 < q
    ensures bit == 0 || bit == 1
  {
    Bit(MaskedSum(q, a - b + Pow2(len), r, len + 1), len)
  }

  lemma GeqDigit<E(!new)>(q: int, B: Field<E>, a: int, b: int, xs: seq<Share<int>>, ys: seq<Share<int>>,
      pair: BitExtractPair<E>, r: int, len: nat, cf: Committee<int>, cb: Committee<E>, coins: AdderCoins<E>)
    requires Ready(q, B, cf, cb) && ValidPair(q, B, cf, cb, pair, r, len + 1) && ValidAdderCoins(B, cb, coins, len + 1)
    requires Holds(Zq(q), cf, a, xs) && Holds(Zq(q), cf, b, ys)
    ensures var out := Geq(q, B, xs, ys, pair, len, cf, cb, coins);
      out.Ok? && Holds(B, cb, Enc(B, GeqBit(q, a, b, r, len)), out.value)
  {
    hide *;
    RunFacts(q, B, cf, cb, coins, len + 1);
    ShiftedResidue(q, B, a, b, xs, ys, len, cf, cb);
    var w := ShiftedDifference(Zq(q), xs, ys, Zq(q).ofNat(Pow2(len)));
    S2BDigits(q, B, a - b + Pow2(len), w, pair, r, len + 1, cf, cb, coins);
    GeqUnfold(q, B, xs, ys, pair, len, cf, cb, coins);
    GeqBitUnfold(q, a, b, r, len);
  }

  lemma ShiftedResidue<E(!new)>(q: int, B: Field<E>, a: int, b: int, xs: seq<Share<int>>, ys: seq<Share<int>>, len: nat,
      cf: Committee<int>, cb: Committee<E>)
    requires Ready(q, B, cf, cb) && 1 < q && Holds(Zq(q), cf, a, xs) && Holds(Zq(q), cf, b, ys)
    ensures Holds(Zq(q), cf, (a - b + Pow2(len)) % q, ShiftedDifference(Zq(q), xs, ys, Zq(q).ofNat(Pow2(len))))
  {
    hide Holds, ShiftedDifference, BooleanField, ValidCommittee, Prime, Pow2;
    ZqLaws(q);
    ShiftedDifferenceHolds(Zq(q), cf, a, b, Pow2(len) % q, xs, ys);
    DifferenceResidue(q, a, b, Pow2(len));
  }

  lemma GeqUnfold<E(!new)>(q: int, B: Field<E>, xs: seq<Share<int>>, ys: seq<Share<int>>, pair: BitExtractPair<E>,
      len: nat, cf: Committee<int>, cb: Committee<E>, coins: AdderCoins<E>)
    requires 1 < q && AdderCoinsFit(cb, coins, len + 1)
    ensures var s := S2B(q, B, ShiftedDifference(Zq(q), xs, ys, Zq(q).ofNat(Pow2(len))), pair, len + 1, cf, cb, coins);
      s.Ok? && |s.value| == len + 1 ==> Geq(q, B, xs, ys, pair, len, cf, cb, coins) == Ok(s.value[len])
  {
    hide S2B, ShiftedDifference, Zq;
  }

  lemma GeqBitUnfold(q: int, a: int, b: int, r: int, len: nat)
    requires 1 < q
    ensures GeqBit(q, a, b, r, len) == Bit(MaskedSum(q, a - b + Pow2(len), r, len + 1), len)
  {
  }

  // Bounded comparison is correct for every mask: on values below 2^len it shares "a >= b".
  lemma GeqTheorem<E(!new)>(q: int, B: Field<E>, a: int, b: int, xs: seq<Share<int>>, ys: seq<Share<int>>,
      pair: BitExtractPair<E>, r: int, len: nat, cf: Committee<int>, cb: Committee<E>, coins: AdderCoins<E>)
    requires Ready(q, B, cf, cb) && ValidPair(q, B, cf, cb, pair, r, len + 1) && ValidAdderCoins(B, cb, coins, len + 1)
    requires len <= 63 && Pow2(len + 2) < q
    requires 0 <= a < Pow2(len) && 0 <= b < Pow2(len)
    requires Holds(Zq(q), cf, a, xs) && Holds(Zq(q), cf, b, ys)
    ensures var out := Geq(q, B, xs, ys, pair, len, cf, cb, coins);
      out.Ok? && Holds(B, cb, if a >= b then B.one else B.zero, out.value)
  {
    GeqDigit(q, B, a, b, xs, ys, pair, r, len, cf, cb, coins);
    PairRange(q, B, cf, cb, pair, r, len + 1);
    GeqBitCorrect(q, a, b, r, len);
  }

  lemma GeqBitCorrect(q: int, a: int, b: int, r: int, len: nat)
    requires len <= 63 && Pow2(len + 2) < q
    requires 0 <= a < Pow2(len) && 0 <= b < Pow2(len) && 0 <= r < Pow2(len + 1)
    ensures 1 < q && (GeqBit(q, a, b, r, len) == 1 <==> a >= b)
  {
    LimbPow(len + 1);
    var w := a - b + Pow2(len);
    MaskedSumDigits(q, w, r, len + 1, len);
    TopBit(w, len);
  }

  lemma LimbPow(n: nat)
    requires n <= 64
    ensures Pow2(n) <= LIMB
  {
    hide Pow2;
    var zero := n - n;
    Pow2Limb(zero);
    Pow2Mono(n, zero + 64);
  }

  lemma Pow2Limb(zero: nat)
    requires zero == 0
    ensures Pow2(zero + 64) == LIMB
  {
    Pow2Add32(zero);
    Pow2Add32(zero + 32);
  }

  lemma Pow2Add32(m: nat)
    ensures Pow2(m + 32) == 0x1_0000_0000 * Pow2(m)
  {
    Pow2Add16(m);
    Pow2Add16(m + 16);
  }

  lemma Pow2Add16(m: nat)
    ensures Pow2(m + 16) == 0x1_0000 * Pow2(m)
  {
    Pow2Add4(m);
    Pow2Add4(m + 4);
    Pow2Add4(m + 8);
    Pow2Add4(m + 12);
  }

  lemma Pow2Add4(m: nat)
    ensures Pow2(m + 4) == 16 * Pow2(m)
  {
    assert Pow2(m + 2) == 4 * Pow2(m);
  }
}
