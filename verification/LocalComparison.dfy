/** Comparison, selection and conditional transfer without a network. The full-width comparison
    reads the top digit of the residue a - b, which is not always the comparison it is meant to be. */
module LocalComparison {
  import opened Wrappers
  import opened Fields
  import opened PrimeField
  import opened Shamir
  import opened Sharings
  import opened Handoff
  import opened Bits
  import opened Adder
  import opened Comparison
  import opened Transfer
  import opened LocalConversion

  // The shared bit "a >= b", read off as the negated top digit of a - b.
  function FullGeq<E(==)>(q: int, len: nat, B: Field<E>, a: seq<Share<int>>, b: seq<Share<int>>,
      pair: BitExtractPair<E>, cf: Committee<int>, cb: Committee<E>, coins: ConversionCoins<E>)
    : (r: Result<seq<Share<E>>, MpcError>)
    requires 1 < q && ConversionFits(cb, coins, len)
  {
    if |a| != |b| || |a| != cf.Size() then Err(ShareCountMismatch)
    else if !SamePoints(a, b) then Err(InconsistentShares)
    else
      var bits :- FullS2B(q, len, B, Zip(SubOf(Zq(q)), a, b), pair, cf, cb, coins);
      if bits == [] then Err(InvalidBitLength) else Ok(NotShares(B, bits[|bits| - 1]))
  }

  // A comparison goes through only for shares of one number per member, at the same points.
  lemma FullGeqRefuses<E>(q: int, len: nat, B: Field<E>, a: seq<Share<int>>, b: seq<Share<int>>,
      pair: BitExtractPair<E>, cf: Committee<int>, cb: Committee<E>, coins: ConversionCoins<E>)
    requires 1 < q && ConversionFits(cb, coins, len)
    ensures var r := FullGeq(q, len, B, a, b, pair, cf, cb, coins); var shares := |a| == |b| == cf.Size();
      && (r.Ok? ==> shares && SamePoints(a, b))
      && (!shares ==> r == Err(ShareCountMismatch))
      && (shares && !SamePoints(a, b) ==> r == Err(InconsistentShares))
  {
    hide FullS2B, Zq;
  }

  // What a pair for the full width must be: r is a residue, and every digit of it is shared.
  ghost predicate FullPair<E(!new)>(q: int, len: nat, B: Field<E>, cf: Committee<int>, cb: Committee<E>,
      pair: BitExtractPair<E>, r: int)
  {
    && 1 < q && 0 <= r < q && Holds(Zq(q), cf, r, pair.arithmetic)
    && |pair.bits| == len && SharesBits(B, cb, r, pair.bits, len)
  }

  ghost predicate FullReady<E(!new)>(q: int, len: nat, B: Field<E>, cf: Committee<int>, cb: Committee<E>,
      coins: ConversionCoins<E>)
  {
    && Ready(q, B, cf, cb) && cf.Size() == cb.Size() && cf.threshold == cb.threshold
    && Width(q, len) && ValidConversion(B, cb, coins, len)
  }

  // The bit the full-width comparison ends in.
  function FullGeqBit(q: int, len: nat, a: int, b: int): (bit: int)
    requires q != 0 && 0 < len
    ensures bit == 0 || bit == 1
  {
    1 - Bit((a - b) % q, len - 1)
  }

  lemma FullGeqDigit<E(!new)>(q: int, len: nat, B: Field<E>, a: int, b: int, xs: seq<Share<int>>, ys: seq<Share<int>>,
      pair: BitExtractPair<E>, r: int, cf: Committee<int>, cb: Committee<E>, coins: ConversionCoins<E>)
    requires FullReady(q, len, B, cf, cb, coins) && FullPair(q, len, B, cf, cb, pair, r)
    requires Holds(Zq(q), cf, a, xs) && Holds(Zq(q), cf, b, ys)
    ensures 0 < len && ConversionFits(cb, coins, len)
    ensures var out := FullGeq(q, len, B, xs, ys, pair, cf, cb, coins);
      out.Ok? && Holds(B, cb, Enc(B, FullGeqBit(q, len, a, b)), out.value)
  {
    hide FullS2B, Holds, Enc, Bit, Zq, BooleanField, ValidCommittee, ValidConversion, Pow2, SharesBits;
    ZqLaws(q);
    DifferenceShared(q, cf, a, b, xs, ys);
    var w := Zip(SubOf(Zq(q)), xs, ys);
    FullS2BTheorem(q, len, B, (a - b) % q, w, pair, r, cf, cb, coins);
    var bits := FullS2B(q, len, B, w, pair, cf, cb, coins).value;
    NotReady(q, B, cf, cb, Bit((a - b) % q, len - 1), bits[len - 1]);
  }

  lemma DifferenceShared(q: int, cf: Committee<int>, a: int, b: int, xs: seq<Share<int>>, ys: seq<Share<int>>)
    requires Prime(q) && Laws(Zq(q)) && ValidCommittee(Zq(q), cf) && Holds(Zq(q), cf, a, xs) && Holds(Zq(q), cf, b, ys)
    ensures |xs| == |ys| == cf.Size() && SamePoints(xs, ys)
    ensures Holds(Zq(q), cf, (a - b) % q, Zip(SubOf(Zq(q)), xs, ys))
  {
    SharingShape(Zq(q), cf.points, cf.threshold, a, xs);
    SharingShape(Zq(q), cf.points, cf.threshold, b, ys);
    DifferenceHolds(Zq(q), cf, a, b, xs, ys);
    ZqSub(q, a, b);
  }

  // When the bit is the comparison of a and b: exactly while the difference stays on its side of
  // the top digit.
  lemma FullGeqExact(q: int, len: nat, a: int, b: int)
    requires Width(q, len) && 0 <= a < q && 0 <= b < q
    ensures (FullGeqBit(q, len, a, b) == 1 <==> a >= b)
            <==> if a >= b then a - b < Pow2(len - 1) else b - a <= q - Pow2(len - 1)
  {
    var w := if a >= b then a - b else a - b + q;
    if a >= b {
      ModSmall(a - b, q);
    } else {
      ModUnique(a - b, -1, w, q);
    }
    assert len - 1 + 1 == len;
    TopBit(w, len - 1);
  }

  // The comparison is documented for all values below 2^(len-1). It is right on all of them only
  // when the modulus is 2^len - 1.
  lemma DocumentedRange(q: int, len: nat)
    requires Width(q, len)
    ensures (forall a, b ::
        0 <= a < Pow2(len - 1) && 0 <= b < Pow2(len - 1) ==> (FullGeqBit(q, len, a, b) == 1 <==> a >= b))
            <==> q == Pow2(len) - 1
  {
    var half := Pow2(len - 1);
    assert Pow2(len) == 2 * half;
    forall a, b | 0 <= a < half && 0 <= b < half
      ensures (FullGeqBit(q, len, a, b) == 1 <==> a >= b) <==> (a >= b || b - a <= q - half)
    {
      FullGeqExact(q, len, a, b);
    }
    if q < 2 * half - 1 {
      assert !(FullGeqBit(q, len, 0, half - 1) == 1 <==> 0 >= half - 1);
    }
  }

  // The same for the values below half of an odd modulus.
  lemma HalfModulusRange(q: int, len: nat)
    requires Width(q, len) && q % 2 == 1
    ensures (forall a, b :: 0 <= a && 2 * a < q && 0 <= b && 2 * b < q ==> (FullGeqBit(q, len, a, b) == 1 <==> a >= b))
            <==> q == Pow2(len) - 1
  {
    var half, top := Pow2(len - 1), q / 2;
    assert Pow2(len) == 2 * half;
    forall a, b | 0 <= a && 2 * a < q && 0 <= b && 2 * b < q
      ensures (FullGeqBit(q, len, a, b) == 1 <==> a >= b) <==> (a >= b || b - a <= q - half)
    {
      FullGeqExact(q, len, a, b);
    }
    if q < 2 * half - 1 {
      assert !(FullGeqBit(q, len, 0, top) == 1 <==> 0 >= top);
    }
  }

  // A pair below half the modulus and below 2^(len-1) on which the comparison is wrong.
  lemma WrongComparison()
    ensures Width(11, 4) && 0 < 4 < Pow2(3) && 2 * 4 < 11
    ensures FullGeqBit(11, 4, 0, 4) == 1
  {
    assert Pow2(1) == 2 && Pow2(2) == 4 && Pow2(3) == 8 && Pow2(4) == 16;
    ModUnique(0 - 4, -1, 7, 11);
    ShrBetween(7, 3, 0);
  }

  // ---- bounded conversion and comparison: the networked and the local form agree ----

  function LocalS2B<E(==)>(q: int, B: Field<E>, x: seq<Share<int>>, pair: BitExtractPair<E>, n: nat,
                           cf: Committee<int>, cb: Committee<E>, coins: AdderCoins<E>)
    : (r: Result<seq<seq<Share<E>>>, MpcError>)
    requires 1 < q && AdderCoinsFit(cb, coins, n)
  {
    if cf.Size() != cb.Size() || cf.threshold != cb.threshold then Err(InconsistentShares)
    else if cb.Size() <= 2 * cb.threshold then Err(TooFewParties)
    else if |x| != cf.Size() || |pair.arithmetic| != cf.Size() then Err(ShareCountMismatch)
    else if |pair.bits| != n then Err(InvalidBitLength)
    else
      var deltaShares :- MaskedDifference(Zq(q), x, pair.arithmetic);
      var delta :- Reconstruct(Zq(q), deltaShares, cf.threshold + 1);
      var sum :- LocalRippleAdd(B, TwoComplementBits(CenteredLift(q, delta), n), pair.bits, cb, coins);
      Ok(sum.0)
  }

  // The same checks as the full-width conversion makes.
  lemma LocalS2BRefuses<E>(q: int, B: Field<E>, x: seq<Share<int>>, pair: BitExtractPair<E>, n: nat,
      cf: Committee<int>, cb: Committee<E>, coins: AdderCoins<E>)
    requires 1 < q && AdderCoinsFit(cb, coins, n)
    ensures var r := LocalS2B(q, B, x, pair, n, cf, cb, coins);
      var committees := cf.Size() == cb.Size() && cf.threshold == cb.threshold;
      var shares := |x| == cf.Size() && |pair.arithmetic| == cf.Size();
      && (r.Ok? ==> committees && cb.Size() > 2 * cb.threshold && shares && |pair.bits| == n)
      && (!committees ==> r == Err(InconsistentShares))
      && (committees && cb.Size() <= 2 * cb.threshold ==> r == Err(TooFewParties))
      && (committees && cb.Size() > 2 * cb.threshold && !shares ==> r == Err(ShareCountMismatch))
      && (committees && cb.Size() > 2 * cb.threshold && shares && |pair.bits| != n ==> r == Err(InvalidBitLength))
  {
    hide LocalRippleAdd, MaskedDifference, Reconstruct, Zq, TwoComplementBits, CenteredLift;
  }

  function LocalGeq<E(==)>(q: int, B: Field<E>, a: seq<Share<int>>, b: seq<Share<int>>, pair: BitExtractPair<E>,
      len: nat, cf: Committee<int>, cb: Committee<E>, coins: AdderCoins<E>)
    : (r: Result<seq<Share<E>>, MpcError>)
    requires 1 < q && AdderCoinsFit(cb, coins, len + 1)
  {
    if |a| != |b| || |a| != cf.Size() then Err(ShareCountMismatch)
    else if !SamePoints(a, b) then Err(InconsistentShares)
    else
      var w := ShiftedDifference(Zq(q), a, b, Zq(q).ofNat(Pow2(len)));
      var bits :- LocalS2B(q, B, w, pair, len + 1, cf, cb, coins);
      if len < |bits| then Ok(bits[len]) else Err(InvalidBitLength)
  }

  lemma LocalGeqRefuses<E>(q: int, B: Field<E>, a: seq<Share<int>>, b: seq<Share<int>>, pair: BitExtractPair<E>,
      len: nat, cf: Committee<int>, cb: Committee<E>, coins: AdderCoins<E>)
    requires 1 < q && AdderCoinsFit(cb, coins, len + 1)
    ensures var r := LocalGeq(q, B, a, b, pair, len, cf, cb, coins); var shares := |a| == |b| == cf.Size();
      && (r.Ok? ==> shares && SamePoints(a, b))
      && (!shares ==> r == Err(ShareCountMismatch))
      && (shares && !SamePoints(a, b) ==> r == Err(InconsistentShares))
  {
    hide LocalS2B, Zq;
  }

  lemma RippleAddTwins<E(!new)>(B: Field<E>, d: int, r: int, n: nat, rBits: seq<seq<Share<E>>>, cb: Committee<E>,
      coins: AdderCoins<E>)
    requires BooleanField(B) && ValidCommittee(B, cb) && 2 * cb.threshold < cb.Size()
    requires ValidAdderCoins(B, cb, coins, n) && SharesBits(B, cb, r, rBits, n)
    ensures LocalRippleAdd(B, TwoComplementBits(d, n), rBits, cb, coins)
        == RippleAdd(B, TwoComplementBits(d, n), rBits, cb, coins)
  {
    hide Holds, Carry, Shr, RippleFrom, LocalRippleFrom;
    SplitIsSharing(B, B.zero, cb.threshold, cb.points, coins.carry);
    var carry := Split(B, B.zero, cb.threshold, cb.points, coins.carry).value;
    StartCarry(B, cb, Canonical(d, n), r, carry);
    RippleTwins(B, TwoComplementBits(d, n), rBits, cb, coins.masks, 0, carry, Canonical(d, n), r);
  }

  // Opening by points and values, or by shares that carry the committee's points.
  lemma OpenTwins<E>(F: Field<E>, sh: seq<Share<E>>, c: Committee<E>, required: nat)
    requires Points(sh) == c.points
    ensures Reconstruct(F, sh, required) == OpenValue(F, sh, c, required)
  {
    assert c.points[..|sh|] == c.points;
  }

  lemma S2BTwins<E(!new)>(q: int, B: Field<E>, x: int, xs: seq<Share<int>>, pair: BitExtractPair<E>, r: int, n: nat,
                          cf: Committee<int>, cb: Committee<E>, coins: AdderCoins<E>)
    requires Ready(q, B, cf, cb) && ValidPair(q, B, cf, cb, pair, r, n) && ValidAdderCoins(B, cb, coins, n)
    requires cf.Size() == cb.Size() && cf.threshold == cb.threshold && |pair.bits| == n
    requires Holds(Zq(q), cf, x, xs)
    ensures AdderCoinsFit(cb, coins, n)
        && LocalS2B(q, B, xs, pair, n, cf, cb, coins) == S2B(q, B, xs, pair, n, cf, cb, coins)
  {
    hide RippleAdd, LocalRippleAdd, Holds, Enc, BooleanField, TwoComplementBits, CenteredLift;
    ZqLaws(q);
    SharingShapes(Zq(q), cf, x, r % q, xs, pair.arithmetic);
    var w := Zip(SubOf(Zq(q)), xs, pair.arithmetic);
    assert Points(w) == cf.points;
    OpenTwins(Zq(q), w, cf, cf.threshold + 1);
    var delta := OpenValue(Zq(q), w, cf, cf.threshold + 1);
    if delta.Ok? {
      RippleAddTwins(B, CenteredLift(q, delta.value), r, n, pair.bits, cb, coins);
    }
  }

  lemma SharingShapes<E(!new)>(F: Field<E>, c: Committee<E>, u: E, v: E, a: seq<Share<E>>, b: seq<Share<E>>)
    requires Laws(F) && Holds(F, c, u, a) && Holds(F, c, v, b)
    ensures |a| == |b| == c.Size() && SamePoints(a, b) && Points(a) == c.points && Points(b) == c.points
  {
    SharingShape(F, c.points, c.threshold, u, a);
    SharingShape(F, c.points, c.threshold, v, b);
  }

  // On sharings, the local bounded comparison returns what the networked one returns.
  lemma GeqTwins<E(!new)>(q: int, B: Field<E>, a: int, b: int, xs: seq<Share<int>>, ys: seq<Share<int>>,
      pair: BitExtractPair<E>, r: int, len: nat, cf: Committee<int>, cb: Committee<E>, coins: AdderCoins<E>)
    requires Ready(q, B, cf, cb) && ValidPair(q, B, cf, cb, pair, r, len + 1) && ValidAdderCoins(B, cb, coins, len + 1)
    requires cf.Size() == cb.Size() && cf.threshold == cb.threshold && |pair.bits| == len + 1
    requires Holds(Zq(q), cf, a, xs) && Holds(Zq(q), cf, b, ys)
    ensures 1 < q && AdderCoinsFit(cb, coins, len + 1)
    ensures LocalGeq(q, B, xs, ys, pair, len, cf, cb, coins) == Geq(q, B, xs, ys, pair, len, cf, cb, coins)
  {
    hide S2B, LocalS2B, Holds, Enc, BooleanField, ValidCommittee, Pow2, ShiftedDifference, Zq;
    RunFacts(q, B, cf, cb, coins, len + 1);
    ZqLaws(q);
    SharingShapes(Zq(q), cf, a, b, xs, ys);
    ShiftedResidue(q, B, a, b, xs, ys, len, cf, cb);
    S2BTwins(q, B, (a - b + Pow2(len)) % q, ShiftedDifference(Zq(q), xs, ys, Zq(q).ofNat(Pow2(len))), pair, r, len + 1,
        cf, cb, coins);
  }

  function LocalB2A<A, E(==)>(F: Field<A>, B: Field<E>, bit: seq<Share<E>>, rb: RandomBitPair<A, E>, cb: Committee<E>)
    : (r: Result<seq<Share<A>>, MpcError>)
  {
    if |bit| != |rb.boolean| then Err(ShareCountMismatch)
    else if !SamePoints(bit, rb.boolean) then Err(InconsistentShares)
    else
      var c :- Reconstruct(B, Zip(B.add, bit, rb.boolean), cb.threshold + 1);
      Ok(XorShares(F, if c == B.one then F.one else F.zero, rb.arithmetic))
  }

  function LocalSelect<A(==), E(==)>(F: Field<A>, B: Field<E>, bit: seq<Share<E>>, x: seq<Share<A>>, y: seq<Share<A>>,
                                     rb: RandomBitPair<A, E>, mask: HandoffMask<A>, cf: Committee<A>, cb: Committee<E>)
    : (r: Result<seq<Share<A>>, MpcError>)
  {
    if |x| != |y| || |x| != cf.Size() then Err(ShareCountMismatch)
    else
      var bitArith :- LocalB2A(F, B, bit, rb, cb);
      if !SamePoints(x, y) then Err(InconsistentShares)
      else
        var t :- MultiplyAndHandoff(F, bitArith, Zip(SubOf(F), x, y), mask, cf, cf);
        Ok(Zip(F.add, y, t))
  }

  // A selection goes through only for two numbers per member at the same points.
  lemma SelectRefuses<A, E>(F: Field<A>, B: Field<E>, bit: seq<Share<E>>, x: seq<Share<A>>, y: seq<Share<A>>,
      rb: RandomBitPair<A, E>, mask: HandoffMask<A>, cf: Committee<A>, cb: Committee<E>)
    ensures var r := LocalSelect(F, B, bit, x, y, rb, mask, cf, cb); var shares := |x| == |y| == cf.Size();
      && (r.Ok? ==> shares && SamePoints(x, y))
      && (!shares ==> r == Err(ShareCountMismatch))
      && (shares && LocalB2A(F, B, bit, rb, cb).Ok? && !SamePoints(x, y) ==> r == Err(InconsistentShares))
  {
    hide LocalB2A, MultiplyAndHandoff;
  }

  // On sharings, the local conversion and selection return what the networked ones return.
  lemma SelectTwins<A(!new), E(!new)>(F: Field<A>, B: Field<E>, cf: Committee<A>, cb: Committee<E>, b: int, rho: int,
      u: A, v: A, bit: seq<Share<E>>, x: seq<Share<A>>, y: seq<Share<A>>, rb: RandomBitPair<A, E>, mask: HandoffMask<A>)
    requires Paired(F, B, cf, cb) && ValidRandomBit(F, B, cf, cb, rb, rho) && GoodMask(F, cf, cf, mask)
    requires 0 <= b <= 1 && Holds(B, cb, Enc(B, b), bit) && Holds(F, cf, u, x) && Holds(F, cf, v, y)
    ensures LocalB2A(F, B, bit, rb, cb) == B2A(F, B, bit, rb, cb)
    ensures LocalSelect(F, B, bit, x, y, rb, mask, cf, cb) == ConditionalSelect(F, B, bit, x, y, rb, mask, cf, cb)
  {
    hide MultiplyAndHandoff, MultiplyOpen, XorShares, OpenValue, Reconstruct;
    SharingShapes(B, cb, Enc(B, b), Enc(B, rho), bit, rb.boolean);
    SharingShapes(F, cf, u, v, x, y);
    var sum := Zip(B.add, bit, rb.boolean);
    assert Points(sum) == cb.points;
    OpenTwins(B, sum, cb, cb.threshold + 1);
    B2AHolds(F, B, cf, cb, b, rho, bit, rb);
    DifferenceHolds(F, cf, u, v, x, y);
    MultiplyTwins(F, B2A(F, B, bit, rb, cb).value, Zip(SubOf(F), x, y), Enc(F, b), Sub(F, u, v), mask, cf);
  }

  // ---- the local conditional transfer, on the full-width comparison ----

  datatype LocalCoins<E> = LocalCoins(
    conversion: ConversionCoins<E>,
    bit1: RandomBitCoins<int, E>, mask1: HandoffMask<int>,
    bit2: RandomBitCoins<int, E>, mask2: HandoffMask<int>)

  predicate LocalFits<E>(len: nat, cf: Committee<int>, cb: Committee<E>, coins: LocalCoins<E>) {
    ConversionFits(cb, coins.conversion, len) && BitCoinsFit(cf, cb, coins.bit1) && BitCoinsFit(cf, cb, coins.bit2)
  }

  function LocalTransfer<E(==)>(q: int, len: nat, B: Field<E>, sh: TransferShares, pair: BitExtractPair<E>,
                                cf: Committee<int>, cb: Committee<E>, coins: LocalCoins<E>)
    : (r: Result<(seq<Share<int>>, seq<Share<int>>), MpcError>)
    requires 1 < q && LocalFits(len, cf, cb, coins)
  {
    if |sh.sender| != |sh.receiver| || |sh.sender| != |sh.minimum| || |sh.sender| != |sh.amount|
        || |sh.sender| != cf.Size()
    then Err(ShareCountMismatch)
    else
      var geqMin :- FullGeq(q, len, B, sh.minimum, sh.sender, pair, cf, cb, coins.conversion);
      var gt := NotShares(B, geqMin);
      var rb1 :- GenerateRandomBit(Zq(q), B, cf, cb, coins.bit1);
      var senderNew :- LocalSelect(Zq(q), B, gt, Zip(SubOf(Zq(q)), sh.sender, sh.amount), sh.sender, rb1, coins.mask1,
          cf, cb);
      var rb2 :- GenerateRandomBit(Zq(q), B, cf, cb, coins.bit2);
      var receiverNew :- LocalSelect(Zq(q), B, gt, Zip(Zq(q).add, sh.receiver, sh.amount), sh.receiver, rb2,
          coins.mask2, cf, cb);
      Ok((senderNew, receiverNew))
  }

  ghost predicate ValidLocalCoins<E(!new)>(q: int, len: nat, B: Field<E>, cf: Committee<int>, cb: Committee<E>,
      coins: LocalCoins<E>)
    requires 1 < q
  {
    && LocalFits(len, cf, cb, coins) && ValidConversion(B, cb, coins.conversion, len)
    && Elems(Zq(q), coins.bit1.arithmetic) && Elems(B, coins.bit1.boolean) && GoodMask(Zq(q), cf, cf, coins.mask1)
    && Elems(Zq(q), coins.bit2.arithmetic) && Elems(B, coins.bit2.boolean) && GoodMask(Zq(q), cf, cf, coins.mask2)
  }

  // One of the two selections: x where the bit is one, y where it is zero.
  lemma LocalSelectHolds<A(!new), E(!new)>(F: Field<A>, B: Field<E>, cf: Committee<A>, cb: Committee<E>, b: int, u: A,
      v: A, bit: seq<Share<E>>, x: seq<Share<A>>, y: seq<Share<A>>, coins: RandomBitCoins<A, E>, mask: HandoffMask<A>)
    requires Paired(F, B, cf, cb) && BitCoinsFit(cf, cb, coins) && Elems(F, coins.arithmetic) && Elems(B, coins.boolean)
    requires GoodMask(F, cf, cf, mask)
    requires 0 <= b <= 1 && Holds(B, cb, Enc(B, b), bit) && Holds(F, cf, u, x) && Holds(F, cf, v, y)
    ensures GenerateRandomBit(F, B, cf, cb, coins).Ok?
    ensures var out := LocalSelect(F, B, bit, x, y, GenerateRandomBit(F, B, cf, cb, coins).value, mask, cf, cb);
      out.Ok? && Holds(F, cf, Choose(b, u, v), out.value)
  {
    hide LocalSelect, ConditionalSelect, GenerateRandomBit, Holds, Enc;
    GeneratedBitValid(F, B, cf, cb, coins);
    var rb := GenerateRandomBit(F, B, cf, cb, coins).value;
    SelectTwins(F, B, cf, cb, b, coins.bit, u, v, bit, x, y, rb, mask);
    SelectHolds(F, B, cf, cb, b, coins.bit, u, v, bit, x, y, rb, mask);
  }

  // For any shared values the two outputs are threshold sharings, both moved or both kept,
  // according to the full-width comparison of minimum with sender.
  lemma LocalTransferOutputs<E(!new)>(q: int, len: nat, B: Field<E>, v: TransferValues, sh: TransferShares,
      pair: BitExtractPair<E>, r: int, cf: Committee<int>, cb: Committee<E>, coins: LocalCoins<E>)
    requires 1 < q && FullReady(q, len, B, cf, cb, coins.conversion) && FullPair(q, len, B, cf, cb, pair, r)
    requires ValidLocalCoins(q, len, B, cf, cb, coins) && ShareInputs(q, cf, sh, v)
    ensures 0 < len && LocalFits(len, cf, cb, coins)
    ensures var out := LocalTransfer(q, len, B, sh, pair, cf, cb, coins);
        var bit := 1 - FullGeqBit(q, len, v.minimum, v.sender);
      && out.Ok?
      && Holds(Zq(q), cf, Choose(bit, (v.sender - v.amount) % q, v.sender), out.value.0)
      && Holds(Zq(q), cf, Choose(bit, (v.receiver + v.amount) % q, v.receiver), out.value.1)
  {
    hide FullGeq, LocalSelect, GenerateRandomBit, Holds, Enc, Choose, FullGeqBit, NotShares, Zq;
    hide ValidCommittee, BooleanField;
    var conversion := coins.conversion;
    FullGeqDigit(q, len, B, v.minimum, v.sender, sh.minimum, sh.sender, pair, r, cf, cb, conversion);
    var geqMin := FullGeq(q, len, B, sh.minimum, sh.sender, pair, cf, cb, conversion).value;
    var geq := FullGeqBit(q, len, v.minimum, v.sender);
    NotReady(q, B, cf, cb, geq, geqMin);
    ReadyPairs(q, B, cf, cb);
    ZqLaws(q);
    SharingShapes(Zq(q), cf, v.sender, v.receiver, sh.sender, sh.receiver);
    SharingShapes(Zq(q), cf, v.minimum, v.amount, sh.minimum, sh.amount);
    MoveHolds(q, B, cf, cb, v.sender, v.receiver, v.amount, sh.sender, sh.receiver, sh.amount);
    LocalSelectHolds(Zq(q), B, cf, cb, 1 - geq, (v.sender - v.amount) % q, v.sender, NotShares(B, geqMin),
      Zip(SubOf(Zq(q)), sh.sender, sh.amount), sh.sender, coins.bit1, coins.mask1);
    LocalSelectHolds(Zq(q), B, cf, cb, 1 - geq, (v.receiver + v.amount) % q, v.receiver, NotShares(B, geqMin),
      Zip(Zq(q).add, sh.receiver, sh.amount), sh.receiver, coins.bit2, coins.mask2);
  }

  // Close enough for the full-width comparison: balances below 2^32 are, for any modulus of at
  // least 2^(len-1) + 2^32.
  predicate Close(q: int, len: nat, a: int, b: int)
    requires 0 < len
  {
    if a >= b then a - b < Pow2(len - 1) else b - a <= q - Pow2(len - 1)
  }

  // The bit that drives the local transfer is "sender > minimum" exactly while the two are close.
  lemma LocalTransferExact(q: int, len: nat, v: TransferValues)
    requires Width(q, len) && 0 <= v.sender < q && 0 <= v.minimum < q
    ensures var bit := 1 - FullGeqBit(q, len, v.minimum, v.sender);
      (bit == 1 <==> v.sender > v.minimum) <==> Close(q, len, v.minimum, v.sender)
  {
    FullGeqExact(q, len, v.minimum, v.sender);
  }

  // Then the local transfer leaves the same values shared as the networked one.
  lemma LocalTransferTheorem<E(!new)>(q: int, len: nat, B: Field<E>, v: TransferValues, sh: TransferShares,
      pair: BitExtractPair<E>, r: int, cf: Committee<int>, cb: Committee<E>, coins: LocalCoins<E>)
    requires 1 < q && FullReady(q, len, B, cf, cb, coins.conversion) && FullPair(q, len, B, cf, cb, pair, r)
    requires ValidLocalCoins(q, len, B, cf, cb, coins) && ShareInputs(q, cf, sh, v)
    requires 0 < len && Close(q, len, v.minimum, v.sender)
    ensures LocalFits(len, cf, cb, coins)
    ensures var out := LocalTransfer(q, len, B, sh, pair, cf, cb, coins);
      out.Ok? && Holds(Zq(q), cf, Moved(q, v).0, out.value.0) && Holds(Zq(q), cf, Moved(q, v).1, out.value.1)
  {
    hide LocalTransfer, Holds, FullGeqBit, Close, BooleanField, ValidCommittee, ValidConversion, SharesBits;
    LocalTransferOutputs(q, len, B, v, sh, pair, r, cf, cb, coins);
    InputElems(q, B, cf, cb, sh, v);
    LocalTransferExact(q, len, v);
  }
}
