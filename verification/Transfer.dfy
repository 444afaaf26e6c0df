/** Boolean-to-arithmetic conversion, oblivious selection, and the conditional transfer whose
    comparison bit is never opened. */
module Transfer {
  import opened Wrappers
  import opened Fields
  import opened PrimeField
  import opened Shamir
  import opened Sharings
  import opened Handoff
  import opened Bits
  import opened Adder
  import opened Comparison
  import opened Backend
  import Gf256

  const BALANCE_BITS: nat := 32

  // Arithmetic and boolean sharings of one random bit.
  datatype RandomBitPair<A, E> = RandomBitPair(arithmetic: seq<Share<A>>, boolean: seq<Share<E>>)

  datatype RandomBitCoins<A, E> = RandomBitCoins(bit: int, arithmetic: seq<A>, boolean: seq<E>)

  predicate BitCoinsFit<A, E>(cf: Committee<A>, cb: Committee<E>, coins: RandomBitCoins<A, E>) {
    && 0 <= coins.bit <= 1 && |coins.arithmetic| == cf.threshold && |coins.boolean| == cb.threshold
  }

  function GenerateRandomBit<A, E>(F: Field<A>, B: Field<E>, cf: Committee<A>, cb: Committee<E>,
      coins: RandomBitCoins<A, E>)
    : (r: Result<RandomBitPair<A, E>, MpcError>)
    requires BitCoinsFit(cf, cb, coins)
  {
    var arithmetic :- Split(F, Enc(F, coins.bit), cf.threshold, cf.points, coins.arithmetic);
    var boolean :- Split(B, Enc(B, coins.bit), cb.threshold, cb.points, coins.boolean);
    Ok(RandomBitPair(arithmetic, boolean))
  }

  function XorValue<A>(F: Field<A>, c: A, v: A): (r: A) {
    Sub(F, F.add(v, c), F.mul(F.add(c, c), v))
  }

  // r + c - 2 c r, share by share.
  function XorShares<A>(F: Field<A>, c: A, r: seq<Share<A>>): (s: seq<Share<A>>) {
    MapValues(v => XorValue(F, c, v), r)
  }

  // Boolean sharing to arithmetic sharing of the same bit, by opening its sum with a random bit.
  function B2A<A, E(==)>(F: Field<A>, B: Field<E>, bit: seq<Share<E>>, rb: RandomBitPair<A, E>, cb: Committee<E>)
    : (r: Result<seq<Share<A>>, MpcError>)
  {
    var c :- OpenValue(B, Zip(B.add, bit, rb.boolean), cb, cb.threshold + 1);
    Ok(XorShares(F, if c == B.one then F.one else F.zero, rb.arithmetic))
  }

  // bit ? x : y, as y + bit (x - y).
  function ConditionalSelect<A(==), E(==)>(F: Field<A>, B: Field<E>, bit: seq<Share<E>>, x: seq<Share<A>>,
      y: seq<Share<A>>, rb: RandomBitPair<A, E>, mask: HandoffMask<A>, cf: Committee<A>, cb: Committee<E>)
    : (r: Result<seq<Share<A>>, MpcError>)
  {
    var bitArith :- B2A(F, B, bit, rb, cb);
    var t :- MultiplyOpen(F, bitArith, Zip(SubOf(F), x, y), mask, cf);
    Ok(Zip(F.add, y, t))
  }

  // The randomness of one selection: a random bit and a degree-reducing mask.
  datatype SelectCoins<A, E> = SelectCoins(bit: RandomBitCoins<A, E>, mask: MaskCoins<A>)

  predicate SelectCoinsFit<A, E>(cf: Committee<A>, cb: Committee<E>, coins: SelectCoins<A, E>) {
    BitCoinsFit(cf, cb, coins.bit) && CoinsFit(cf, coins.mask)
  }

  function FreshSelect<A(==), E(==)>(F: Field<A>, B: Field<E>, bit: seq<Share<E>>, x: seq<Share<A>>, y: seq<Share<A>>,
                                     cf: Committee<A>, cb: Committee<E>, coins: SelectCoins<A, E>)
    : (r: Result<seq<Share<A>>, MpcError>)
    requires SelectCoinsFit(cf, cb, coins)
  {
    var rb :- GenerateRandomBit(F, B, cf, cb, coins.bit);
    var mask :- ReshareDealer(F, cf, 2 * cf.threshold, cf, cf.threshold, coins.mask);
    ConditionalSelect(F, B, bit, x, y, rb, mask, cf, cb)
  }

  function NotShares<E>(B: Field<E>, bit: seq<Share<E>>): (s: seq<Share<E>>) {
    MapValues(v => B.add(v, B.one), bit)
  }

  datatype TransferCoins<E> = TransferCoins(adder: AdderCoins<E>, first: SelectCoins<int, E>,
      second: SelectCoins<int, E>)

  predicate TransferCoinsFit<E>(cf: Committee<int>, cb: Committee<E>, coins: TransferCoins<E>) {
    && AdderCoinsFit(cb, coins.adder, BALANCE_BITS + 1)
    && SelectCoinsFit(cf, cb, coins.first) && SelectCoinsFit(cf, cb, coins.second)
  }

  function ConditionalTransfer<E(==)>(q: int, B: Field<E>, sender: seq<Share<int>>, receiver: seq<Share<int>>,
                                      minimum: seq<Share<int>>, amount: seq<Share<int>>, pair: BitExtractPair<E>,
                                      cf: Committee<int>, cb: Committee<E>, coins: TransferCoins<E>)
    : (r: Result<(seq<Share<int>>, seq<Share<int>>), MpcError>)
    requires 1 < q && TransferCoinsFit(cf, cb, coins)
  {
    var geqMin :- Geq(q, B, minimum, sender, pair, BALANCE_BITS, cf, cb, coins.adder);
    var gt := NotShares(B, geqMin);
    var senderNew :- FreshSelect(Zq(q), B, gt, Zip(SubOf(Zq(q)), sender, amount), sender, cf, cb, coins.first);
    var receiverNew :- FreshSelect(Zq(q), B, gt, Zip(Zq(q).add, receiver, amount), receiver, cf, cb, coins.second);
    Ok((senderNew, receiverNew))
  }

  // ---- correctness ----

  // Two committees that can run the protocol together.
  ghost predicate Paired<A(!new), E(!new)>(F: Field<A>, B: Field<E>, cf: Committee<A>, cb: Committee<E>) {
    && Laws(F) && ValidCommittee(F, cf) && 2 * cf.threshold < cf.Size()
    && BooleanField(B) && ValidCommittee(B, cb)
  }

  ghost predicate ValidRandomBit<A(!new), E(!new)>(F: Field<A>, B: Field<E>, cf: Committee<A>, cb: Committee<E>,
      rb: RandomBitPair<A, E>, rho: int)
  {
    && 0 <= rho <= 1 && Holds(F, cf, Enc(F, rho), rb.arithmetic) && Holds(B, cb, Enc(B, rho), rb.boolean)
  }

  ghost predicate ValidSelectCoins<A(!new), E(!new)>(F: Field<A>, B: Field<E>, cf: Committee<A>, cb: Committee<E>,
      coins: SelectCoins<A, E>)
  {
    && SelectCoinsFit(cf, cb, coins)
    && Elems(F, coins.bit.arithmetic) && Elems(B, coins.bit.boolean) && ValidMaskCoins(F, cf, coins.mask)
  }

  lemma GeneratedBitValid<A(!new), E(!new)>(F: Field<A>, B: Field<E>, cf: Committee<A>, cb: Committee<E>,
      coins: RandomBitCoins<A, E>)
    requires Paired(F, B, cf, cb) && BitCoinsFit(cf, cb, coins)
    requires Elems(F, coins.arithmetic) && Elems(B, coins.boolean)
    ensures var rb := GenerateRandomBit(F, B, cf, cb, coins);
      rb.Ok? && ValidRandomBit(F, B, cf, cb, rb.value, coins.bit)
  {
    SplitIsSharing(F, Enc(F, coins.bit), cf.threshold, cf.points, coins.arithmetic);
    SplitIsSharing(B, Enc(B, coins.bit), cb.threshold, cb.points, coins.boolean);
  }

  function Xor(a: int, b: int): (r: int) { if a == b then 0 else 1 }

  // The arithmetic expression of exclusive or, on bits of any field.
  lemma XorBits<A(!new)>(F: Field<A>, c: int, rho: int)
    requires Laws(F) && 0 <= c <= 1 && 0 <= rho <= 1
    ensures XorValue(F, Enc(F, c), Enc(F, rho)) == Enc(F, Xor(c, rho))
  {
    var v := Enc(F, rho);
    Units(F, F.zero);
    Units(F, F.one);
    MulZero(F, v);
    NegMul(F, F.zero, F.zero);
    MulZero(F, F.add(Enc(F, c), Enc(F, c)));
    if c == 1 && rho == 1 {
      var two := F.add(F.one, F.one);
      Units(F, two);
    }
  }

  lemma BooleanXor<E(!new)>(B: Field<E>, b: int, rho: int)
    requires BooleanField(B) && 0 <= b <= 1 && 0 <= rho <= 1
    ensures B.add(Enc(B, b), Enc(B, rho)) == Enc(B, Xor(b, rho))
  {
    OnePlusOne(B);
    Units(B, B.one);
    Units(B, B.zero);
  }

  lemma XorSharesHold<A(!new)>(F: Field<A>, c: Committee<A>, k: A, u: A, r: seq<Share<A>>)
    requires Laws(F) && ValidCommittee(F, c) && F.elem(k) && Holds(F, c, u, r)
    ensures Holds(F, c, XorValue(F, k, u), XorShares(F, k, r))
  {
    SharingShape(F, c.points, c.threshold, u, r);
    var kk := F.add(k, k);
    var shifted := MapValues(v => F.add(v, k), r);
    var scaled := MapValues(v => F.mul(kk, v), r);
    SharingShift(F, c.points, c.threshold, u, k, r, shifted);
    SharingScale(F, c.points, c.threshold, kk, u, r, scaled);
    SharingSub(F, c.points, c.threshold, F.add(u, k), F.mul(kk, u), shifted, scaled, XorShares(F, k, r));
  }

  lemma OpenSum<E(!new)>(B: Field<E>, c: Committee<E>, u: E, v: E, a: seq<Share<E>>, b: seq<Share<E>>)
    requires Laws(B) && ValidCommittee(B, c) && Holds(B, c, u, a) && Holds(B, c, v, b)
    ensures OpenValue(B, Zip(B.add, a, b), c, c.threshold + 1) == Ok(B.add(u, v))
  {
    SharingShape(B, c.points, c.threshold, u, a);
    SharingShape(B, c.points, c.threshold, v, b);
    SharingAdd(B, c.points, c.threshold, u, v, a, b, Zip(B.add, a, b));
    OpenHolds(B, c, c.threshold, B.add(u, v), Zip(B.add, a, b), c.threshold + 1);
  }

  // The conversion keeps the bit, whatever the random bit was.
  lemma B2AHolds<A(!new), E(!new)>(F: Field<A>, B: Field<E>, cf: Committee<A>, cb: Committee<E>, b: int, rho: int,
                                   bit: seq<Share<E>>, rb: RandomBitPair<A, E>)
    requires Paired(F, B, cf, cb) && ValidRandomBit(F, B, cf, cb, rb, rho)
    requires 0 <= b <= 1 && Holds(B, cb, Enc(B, b), bit)
    ensures B2A(F, B, bit, rb, cb).Ok? && Holds(F, cf, Enc(F, b), B2A(F, B, bit, rb, cb).value)
  {
    hide Holds, OpenValue, XorShares, XorValue;
    var c := Xor(b, rho);
    OpenSum(B, cb, Enc(B, b), Enc(B, rho), bit, rb.boolean);
    BooleanXor(B, b, rho);
    XorSharesHold(F, cf, Enc(F, c), Enc(F, rho), rb.arithmetic);
    XorBits(F, c, rho);
  }

  function Choose<A>(bit: int, x: A, y: A): (r: A) { if bit == 1 then x else y }

  lemma SelectValue<A(!new)>(F: Field<A>, b: int, x: A, y: A)
    requires Laws(F) && 0 <= b <= 1 && F.elem(x) && F.elem(y)
    ensures F.add(y, F.mul(Enc(F, b), Sub(F, x, y))) == Choose(b, x, y)
  {
    SubAdd(F, x, y);
    Units(F, Sub(F, x, y));
    MulZero(F, Sub(F, x, y));
    Units(F, y);
  }

  lemma DifferenceHolds<A(!new)>(F: Field<A>, c: Committee<A>, u: A, v: A, a: seq<Share<A>>, b: seq<Share<A>>)
    requires Laws(F) && ValidCommittee(F, c) && Holds(F, c, u, a) && Holds(F, c, v, b)
    ensures F.elem(u) && F.elem(v) && Holds(F, c, Sub(F, u, v), Zip(SubOf(F), a, b))
  {
    SharingShape(F, c.points, c.threshold, u, a);
    SharingShape(F, c.points, c.threshold, v, b);
    SharingSub(F, c.points, c.threshold, u, v, a, b, Zip(SubOf(F), a, b));
  }

  lemma TotalHolds<A(!new)>(F: Field<A>, c: Committee<A>, u: A, v: A, a: seq<Share<A>>, b: seq<Share<A>>)
    requires Laws(F) && ValidCommittee(F, c) && Holds(F, c, u, a) && Holds(F, c, v, b)
    ensures F.elem(u) && F.elem(v) && Holds(F, c, F.add(u, v), Zip(F.add, a, b))
  {
    SharingShape(F, c.points, c.threshold, u, a);
    SharingShape(F, c.points, c.threshold, v, b);
    SharingAdd(F, c.points, c.threshold, u, v, a, b, Zip(F.add, a, b));
  }

  // Selection returns a threshold sharing of the chosen value.
  lemma SelectHolds<A(!new), E(!new)>(F: Field<A>, B: Field<E>, cf: Committee<A>, cb: Committee<E>, b: int, rho: int,
      u: A, v: A, bit: seq<Share<E>>, x: seq<Share<A>>, y: seq<Share<A>>, rb: RandomBitPair<A, E>, mask: HandoffMask<A>)
    requires Paired(F, B, cf, cb) && ValidRandomBit(F, B, cf, cb, rb, rho) && GoodMask(F, cf, cf, mask)
    requires 0 <= b <= 1 && Holds(B, cb, Enc(B, b), bit) && Holds(F, cf, u, x) && Holds(F, cf, v, y)
    ensures var out := ConditionalSelect(F, B, bit, x, y, rb, mask, cf, cb);
      out.Ok? && Holds(F, cf, Choose(b, u, v), out.value)
  {
    hide Holds, B2A, MultiplyOpen, GoodMask, ValidRandomBit, ValidCommittee, Laws;
    B2AHolds(F, B, cf, cb, b, rho, bit, rb);
    DifferenceHolds(F, cf, u, v, x, y);
    var d := Zip(SubOf(F), x, y);
    var w := F.mul(Enc(F, b), Sub(F, u, v));
    MultiplyOpenHolds(F, B2A(F, B, bit, rb, cb).value, d, Enc(F, b), Sub(F, u, v), mask, cf);
    TotalHolds(F, cf, v, w, y, MultiplyOpen(F, B2A(F, B, bit, rb, cb).value, d, mask, cf).value);
    SelectValue(F, b, u, v);
  }

  lemma FreshSelectHolds<A(!new), E(!new)>(F: Field<A>, B: Field<E>, cf: Committee<A>, cb: Committee<E>, b: int, u: A,
      v: A, bit: seq<Share<E>>, x: seq<Share<A>>, y: seq<Share<A>>, coins: SelectCoins<A, E>)
    requires Paired(F, B, cf, cb) && ValidSelectCoins(F, B, cf, cb, coins)
    requires 0 <= b <= 1 && Holds(B, cb, Enc(B, b), bit) && Holds(F, cf, u, x) && Holds(F, cf, v, y)
    ensures var out := FreshSelect(F, B, bit, x, y, cf, cb, coins);
      out.Ok? && Holds(F, cf, Choose(b, u, v), out.value)
  {
    hide Holds, GenerateRandomBit, ReshareDealer, ConditionalSelect, ValidRandomBit, Laws, ValidMask;
    GeneratedBitValid(F, B, cf, cb, coins.bit);
    DealerMask(F, cf, 2 * cf.threshold, cf, coins.mask);
    var rb := GenerateRandomBit(F, B, cf, cb, coins.bit).value;
    var mask := ReshareDealer(F, cf, 2 * cf.threshold, cf, cf.threshold, coins.mask).value;
    SelectHolds(F, B, cf, cb, b, coins.bit.bit, u, v, bit, x, y, rb, mask);
  }

  ghost predicate ValidTransferCoins<E(!new)>(q: int, B: Field<E>, cf: Committee<int>, cb: Committee<E>,
      coins: TransferCoins<E>)
    requires 1 < q
  {
    && ValidAdderCoins(B, cb, coins.adder, BALANCE_BITS + 1)
    && ValidSelectCoins(Zq(q), B, cf, cb, coins.first) && ValidSelectCoins(Zq(q), B, cf, cb, coins.second)
  }

  // The four shared inputs of a transfer and their values.
  datatype TransferShares = TransferShares(sender: seq<Share<int>>, receiver: seq<Share<int>>, minimum: seq<Share<int>>,
      amount: seq<Share<int>>)

  datatype TransferValues = TransferValues(sender: int, receiver: int, minimum: int, amount: int)

  ghost predicate ShareInputs(q: int, cf: Committee<int>, sh: TransferShares, v: TransferValues)
    requires 1 < q
  {
    && Holds(Zq(q), cf, v.sender, sh.sender) && Holds(Zq(q), cf, v.receiver, sh.receiver)
    && Holds(Zq(q), cf, v.minimum, sh.minimum) && Holds(Zq(q), cf, v.amount, sh.amount)
  }

  function RunTransfer<E(==)>(q: int, B: Field<E>, sh: TransferShares, pair: BitExtractPair<E>, cf: Committee<int>,
      cb: Committee<E>, coins: TransferCoins<E>)
    : (r: Result<(seq<Share<int>>, seq<Share<int>>), MpcError>)
    requires 1 < q && TransferCoinsFit(cf, cb, coins)
  {
    ConditionalTransfer(q, B, sh.sender, sh.receiver, sh.minimum, sh.amount, pair, cf, cb, coins)
  }

  lemma ReadyPairs<E(!new)>(q: int, B: Field<E>, cf: Committee<int>, cb: Committee<E>)
    requires Ready(q, B, cf, cb)
    ensures 1 < q && Paired(Zq(q), B, cf, cb)
  {
    ZqLaws(q);
  }

  lemma NotHolds<E(!new)>(B: Field<E>, cb: Committee<E>, b: int, bit: seq<Share<E>>)
    requires BooleanField(B) && ValidCommittee(B, cb) && 0 <= b <= 1 && Holds(B, cb, Enc(B, b), bit)
    ensures Holds(B, cb, Enc(B, 1 - b), NotShares(B, bit))
  {
    SharingShape(B, cb.points, cb.threshold, Enc(B, b), bit);
    SharingShift(B, cb.points, cb.threshold, Enc(B, b), B.one, bit, NotShares(B, bit));
    BooleanXor(B, b, 1);
  }

  lemma NotReady<E(!new)>(q: int, B: Field<E>, cf: Committee<int>, cb: Committee<E>, b: int, bit: seq<Share<E>>)
    requires Ready(q, B, cf, cb) && 0 <= b <= 1 && Holds(B, cb, Enc(B, b), bit)
    ensures Holds(B, cb, Enc(B, 1 - b), NotShares(B, bit))
  {
    hide Holds, Laws;
    NotHolds(B, cb, b, bit);
  }

  lemma TransferFits<E(!new)>(q: int, B: Field<E>, cf: Committee<int>, cb: Committee<E>, coins: TransferCoins<E>)
    requires 1 < q && ValidTransferCoins(q, B, cf, cb, coins)
    ensures TransferCoinsFit(cf, cb, coins) && AdderCoinsFit(cb, coins.adder, BALANCE_BITS + 1)
    ensures SelectCoinsFit(cf, cb, coins.first) && SelectCoinsFit(cf, cb, coins.second)
  {
    hide Zq, Elems, ValidMaskCoins, CoinsFit, BitCoinsFit;
  }

  lemma TransferUnfold<E(!new)>(q: int, B: Field<E>, sh: TransferShares, pair: BitExtractPair<E>, cf: Committee<int>,
      cb: Committee<E>, coins: TransferCoins<E>, geqMin: seq<Share<E>>, s: seq<Share<int>>, r: seq<Share<int>>)
    requires 1 < q && TransferCoinsFit(cf, cb, coins)
    requires Geq(q, B, sh.minimum, sh.sender, pair, BALANCE_BITS, cf, cb, coins.adder) == Ok(geqMin)
    requires FreshSelect(Zq(q), B, NotShares(B, geqMin), Zip(SubOf(Zq(q)), sh.sender, sh.amount), sh.sender, cf, cb,
        coins.first) == Ok(s)
    requires FreshSelect(Zq(q), B, NotShares(B, geqMin), Zip(Zq(q).add, sh.receiver, sh.amount), sh.receiver, cf, cb,
        coins.second) == Ok(r)
    ensures RunTransfer(q, B, sh, pair, cf, cb, coins) == Ok((s, r))
  {
    hide Geq, FreshSelect, NotShares, Zq, Zip;
  }

  lemma ResidueArith(q: int, a: int, b: int)
    requires 1 < q
    ensures Sub(Zq(q), a, b) == (a - b) % q && Zq(q).add(a, b) == (a + b) % q
  {
    ZqSub(q, a, b);
  }

  lemma MoveHolds<E(!new)>(q: int, B: Field<E>, cf: Committee<int>, cb: Committee<E>, s: int, r: int, a: int,
                           ss: seq<Share<int>>, rs: seq<Share<int>>, am: seq<Share<int>>)
    requires 1 < q && Paired(Zq(q), B, cf, cb) && Holds(Zq(q), cf, s, ss) && Holds(Zq(q), cf, r, rs)
        && Holds(Zq(q), cf, a, am)
    ensures Holds(Zq(q), cf, (s - a) % q, Zip(SubOf(Zq(q)), ss, am))
    ensures Holds(Zq(q), cf, (r + a) % q, Zip(Zq(q).add, rs, am))
  {
    hide Holds, Zip, SubOf, Laws, BooleanField, ValidCommittee;
    DifferenceHolds(Zq(q), cf, s, a, ss, am);
    TotalHolds(Zq(q), cf, r, a, rs, am);
    ResidueArith(q, s, a);
    ResidueArith(q, r, a);
  }

  // The bit that drives the transfer: 1 when the comparison of minimum with sender ends in 0.
  function MovesBit(q: int, v: TransferValues, mask: int): (bit: int)
    requires 1 < q
    ensures bit == 0 || bit == 1
  {
    1 - GeqBit(q, v.minimum, v.sender, mask, BALANCE_BITS)
  }

  // For any shared values the two outputs are threshold sharings, both moved or both kept.
  lemma TransferOutputs<E(!new)>(q: int, B: Field<E>, v: TransferValues, sh: TransferShares, pair: BitExtractPair<E>,
      mask: int, cf: Committee<int>, cb: Committee<E>, coins: TransferCoins<E>)
    requires Ready(q, B, cf, cb) && ShareInputs(q, cf, sh, v)
    requires ValidPair(q, B, cf, cb, pair, mask, BALANCE_BITS + 1) && ValidTransferCoins(q, B, cf, cb, coins)
    ensures TransferCoinsFit(cf, cb, coins)
    ensures var out := RunTransfer(q, B, sh, pair, cf, cb, coins); var bit := MovesBit(q, v, mask);
      && out.Ok?
      && Holds(Zq(q), cf, Choose(bit, (v.sender - v.amount) % q, v.sender), out.value.0)
      && Holds(Zq(q), cf, Choose(bit, (v.receiver + v.amount) % q, v.receiver), out.value.1)
  {
    hide *;
    ReadyPairs(q, B, cf, cb);
    OpenInputs(q, B, cf, cb, sh, v, coins);
    TransferFits(q, B, cf, cb, coins);
    GeqDigit(q, B, v.minimum, v.sender, sh.minimum, sh.sender, pair, mask, BALANCE_BITS, cf, cb, coins.adder);
    var geqMin := Geq(q, B, sh.minimum, sh.sender, pair, BALANCE_BITS, cf, cb, coins.adder).value;
    var g := GeqBit(q, v.minimum, v.sender, mask, BALANCE_BITS);
    MovesUnfold(q, v, mask);
    NotReady(q, B, cf, cb, g, geqMin);
    var gt := NotShares(B, geqMin);
    MoveHolds(q, B, cf, cb, v.sender, v.receiver, v.amount, sh.sender, sh.receiver, sh.amount);
    var less, more := Zip(SubOf(Zq(q)), sh.sender, sh.amount), Zip(Zq(q).add, sh.receiver, sh.amount);
    FreshSelectHolds(Zq(q), B, cf, cb, 1 - g, (v.sender - v.amount) % q, v.sender, gt, less, sh.sender, coins.first);
    FreshSelectHolds(Zq(q), B, cf, cb, 1 - g, (v.receiver + v.amount) % q, v.receiver, gt, more, sh.receiver,
        coins.second);
    TransferUnfold(q, B, sh, pair, cf, cb, coins, geqMin,
      FreshSelect(Zq(q), B, gt, less, sh.sender, cf, cb, coins.first).value,
      FreshSelect(Zq(q), B, gt, more, sh.receiver, cf, cb, coins.second).value);
  }

  lemma MovesUnfold(q: int, v: TransferValues, mask: int)
    requires 1 < q
    ensures MovesBit(q, v, mask) == 1 - GeqBit(q, v.minimum, v.sender, mask, BALANCE_BITS)
  {
  }

  lemma OpenInputs<E(!new)>(q: int, B: Field<E>, cf: Committee<int>, cb: Committee<E>, sh: TransferShares,
      v: TransferValues, coins: TransferCoins<E>)
    requires 1 < q && ShareInputs(q, cf, sh, v) && ValidTransferCoins(q, B, cf, cb, coins)
    ensures Holds(Zq(q), cf, v.sender, sh.sender) && Holds(Zq(q), cf, v.receiver, sh.receiver)
    ensures Holds(Zq(q), cf, v.minimum, sh.minimum) && Holds(Zq(q), cf, v.amount, sh.amount)
    ensures ValidAdderCoins(B, cb, coins.adder, BALANCE_BITS + 1)
    ensures ValidSelectCoins(Zq(q), B, cf, cb, coins.first) && ValidSelectCoins(Zq(q), B, cf, cb, coins.second)
  {
    hide Holds, ValidAdderCoins, ValidSelectCoins, Zq;
  }

  lemma InputElems<E(!new)>(q: int, B: Field<E>, cf: Committee<int>, cb: Committee<E>, sh: TransferShares,
      v: TransferValues)
    requires Ready(q, B, cf, cb) && ShareInputs(q, cf, sh, v)
    ensures 0 <= v.sender < q && 0 <= v.receiver < q && 0 <= v.minimum < q && 0 <= v.amount < q
  {
    hide Prime, BooleanField, ValidCommittee;
    ZqLaws(q);
    SharingShape(Zq(q), cf.points, cf.threshold, v.sender, sh.sender);
    SharingShape(Zq(q), cf.points, cf.threshold, v.receiver, sh.receiver);
    SharingShape(Zq(q), cf.points, cf.threshold, v.minimum, sh.minimum);
    SharingShape(Zq(q), cf.points, cf.threshold, v.amount, sh.amount);
  }

  // Conservation: whatever the shared values and the masks are, even out of the comparison's
  // range, the two balances keep their sum modulo q.
  lemma TransferConserves<E(!new)>(q: int, B: Field<E>, v: TransferValues, sh: TransferShares, pair: BitExtractPair<E>,
      mask: int, cf: Committee<int>, cb: Committee<E>, coins: TransferCoins<E>) returns (s: int, r: int)
    requires Ready(q, B, cf, cb) && ShareInputs(q, cf, sh, v)
    requires ValidPair(q, B, cf, cb, pair, mask, BALANCE_BITS + 1) && ValidTransferCoins(q, B, cf, cb, coins)
    ensures TransferCoinsFit(cf, cb, coins)
    ensures var out := RunTransfer(q, B, sh, pair, cf, cb, coins);
      out.Ok? && Holds(Zq(q), cf, s, out.value.0) && Holds(Zq(q), cf, r, out.value.1)
    ensures (s + r) % q == (v.sender + v.receiver) % q
  {
    hide *;
    ReadyPairs(q, B, cf, cb);
    TransferOutputs(q, B, v, sh, pair, mask, cf, cb, coins);
    var bit := MovesBit(q, v, mask);
    s := Choose(bit, (v.sender - v.amount) % q, v.sender);
    r := Choose(bit, (v.receiver + v.amount) % q, v.receiver);
    ChosenSum(q, bit, v);
  }

  lemma ChosenSum(q: int, bit: int, v: TransferValues)
    requires 1 < q
    ensures (Choose(bit, (v.sender - v.amount) % q, v.sender)
        + Choose(bit, (v.receiver + v.amount) % q, v.receiver)) % q
            == (v.sender + v.receiver) % q
  {
    ModAdd(v.sender - v.amount, (v.receiver + v.amount) % q, q);
    ModAdd(v.sender - v.amount, v.receiver + v.amount, q);
  }

  // On balances below 2^32 the secret bit is "sender > minimum".
  lemma MovesBitCorrect(q: int, v: TransferValues, mask: int)
    requires Pow2(BALANCE_BITS + 2) < q && 0 <= mask < Pow2(BALANCE_BITS + 1)
    requires 0 <= v.sender < Pow2(BALANCE_BITS) && 0 <= v.minimum < Pow2(BALANCE_BITS)
    ensures 1 < q && (MovesBit(q, v, mask) == 1 <==> v.sender > v.minimum)
  {
    GeqBitCorrect(q, v.minimum, v.sender, mask, BALANCE_BITS);
  }

  // The values the transfer leaves shared.
  function Moved(q: int, v: TransferValues): (w: (int, int))
    requires 0 < q
  {
    if v.sender > v.minimum then ((v.sender - v.amount) % q, (v.receiver + v.amount) % q) else (v.sender, v.receiver)
  }

  lemma TransferTheorem<E(!new)>(q: int, B: Field<E>, v: TransferValues, sh: TransferShares, pair: BitExtractPair<E>,
      mask: int, cf: Committee<int>, cb: Committee<E>, coins: TransferCoins<E>)
    requires Ready(q, B, cf, cb) && ShareInputs(q, cf, sh, v)
    requires ValidPair(q, B, cf, cb, pair, mask, BALANCE_BITS + 1) && ValidTransferCoins(q, B, cf, cb, coins)
    requires Pow2(BALANCE_BITS + 2) < q
    requires 0 <= v.sender < Pow2(BALANCE_BITS) && 0 <= v.minimum < Pow2(BALANCE_BITS)
    ensures TransferCoinsFit(cf, cb, coins)
    ensures var out := RunTransfer(q, B, sh, pair, cf, cb, coins);
      out.Ok? && Holds(Zq(q), cf, Moved(q, v).0, out.value.0) && Holds(Zq(q), cf, Moved(q, v).1, out.value.1)
  {
    hide *;
    TransferOutputs(q, B, v, sh, pair, mask, cf, cb, coins);
    PairRange(q, B, cf, cb, pair, mask, BALANCE_BITS + 1);
    MovesBitCorrect(q, v, mask);
    MovedUnfold(q, v, mask);
  }

  lemma MovedUnfold(q: int, v: TransferValues, mask: int)
    requires 1 < q && (MovesBit(q, v, mask) == 1 <==> v.sender > v.minimum)
    ensures Moved(q, v) == (Choose(MovesBit(q, v, mask), (v.sender - v.amount) % q, v.sender),
        Choose(MovesBit(q, v, mask), (v.receiver + v.amount) % q, v.receiver))
  {
    hide MovesBit;
  }

  // Refinement of the plaintext backend: exactly when it succeeds on the amounts, the shared
  // outputs are its outputs; when the amount exceeds the balance the sharing wraps instead.
  lemma TransferRefines(q: int, v: TransferValues)
    requires 0 <= v.sender < q && 0 <= v.receiver < q && 0 <= v.minimum && 0 <= v.amount < q
    requires v.sender < U128 && v.receiver < U128 && v.minimum < U128 && v.amount < U128
    ensures var plain := ConditionalTransferStrictlyGreater(v.sender, v.receiver, v.minimum, v.amount);
      && (plain == Err(InsufficientBalance) <==> v.sender > v.minimum && v.sender < v.amount)
      && (plain == Err(InsufficientBalance) ==> Moved(q, v).0 == v.sender - v.amount + q)
      && (plain.Ok? ==> (Moved(q, v) == plain.value <==> plain.value.1 < q))
  {
    if v.sender > v.minimum {
      if v.sender >= v.amount {
        ModSmall(v.sender - v.amount, q);
        if v.receiver + v.amount < q {
          ModSmall(v.receiver + v.amount, q);
        } else {
          ModShift(v.receiver + v.amount, v.receiver + v.amount - q, 1, q);
          ModSmall(v.receiver + v.amount - q, q);
        }
      } else {
        ModShift(v.sender - v.amount + q, v.sender - v.amount, 1, q);
        ModSmall(v.sender - v.amount + q, q);
      }
    }
  }

  // Whenever the plaintext backend can make the move and the field can hold it, the output shares
  // reconstruct to exactly what it returns.
  lemma TransferReconstructs<E(!new)>(q: int, B: Field<E>, v: TransferValues, sh: TransferShares,
      pair: BitExtractPair<E>, mask: int, cf: Committee<int>, cb: Committee<E>, coins: TransferCoins<E>)
    requires Ready(q, B, cf, cb) && ShareInputs(q, cf, sh, v)
    requires ValidPair(q, B, cf, cb, pair, mask, BALANCE_BITS + 1) && ValidTransferCoins(q, B, cf, cb, coins)
    requires Pow2(BALANCE_BITS + 2) < q
    requires 0 <= v.sender < Pow2(BALANCE_BITS) && 0 <= v.minimum < Pow2(BALANCE_BITS)
    requires 0 <= v.receiver < U128 && 0 <= v.amount < U128
    requires v.sender > v.minimum ==> v.amount <= v.sender && v.receiver + v.amount < q && v.receiver + v.amount < U128
    ensures TransferCoinsFit(cf, cb, coins) && v.sender < U128 && v.minimum < U128
    ensures var out := RunTransfer(q, B, sh, pair, cf, cb, coins);
      var plain := ConditionalTransferStrictlyGreater(v.sender, v.receiver, v.minimum, v.amount);
      && out.Ok? && plain.Ok?
      && Reconstruct(Zq(q), out.value.0, cf.threshold + 1) == Ok(plain.value.0)
      && Reconstruct(Zq(q), out.value.1, cf.threshold + 1) == Ok(plain.value.1)
  {
    LimbPow(BALANCE_BITS);
    InputElems(q, B, cf, cb, sh, v);
    PlainMoves(q, v);
    hide *;
    TransferTheorem(q, B, v, sh, pair, mask, cf, cb, coins);
    var out := RunTransfer(q, B, sh, pair, cf, cb, coins).value;
    OpenOutput(q, B, cf, cb, Moved(q, v).0, out.0);
    OpenOutput(q, B, cf, cb, Moved(q, v).1, out.1);
  }

  lemma PlainMoves(q: int, v: TransferValues)
    requires 0 <= v.sender < q && 0 <= v.receiver < q && 0 <= v.minimum && 0 <= v.amount < q
    requires v.sender < U128 && v.receiver < U128 && v.minimum < U128 && v.amount < U128
    requires v.sender > v.minimum ==> v.amount <= v.sender && v.receiver + v.amount < q && v.receiver + v.amount < U128
    ensures ConditionalTransferStrictlyGreater(v.sender, v.receiver, v.minimum, v.amount) == Ok(Moved(q, v))
  {
    if v.sender > v.minimum {
      ModSmall(v.sender - v.amount, q);
      ModSmall(v.receiver + v.amount, q);
    }
  }

  lemma OpenOutput<E(!new)>(q: int, B: Field<E>, cf: Committee<int>, cb: Committee<E>, u: int, sh: seq<Share<int>>)
    requires Ready(q, B, cf, cb) && 1 < q && Holds(Zq(q), cf, u, sh)
    ensures Reconstruct(Zq(q), sh, cf.threshold + 1) == Ok(u)
  {
    ZqLaws(q);
    hide Zq, BooleanField;
    OpenSharing(Zq(q), cf.points, cf.threshold, u, sh, cf.threshold + 1);
  }

  // Committees of one size over Z_q and over the byte field satisfy every requirement above
  // as soon as n > 2t, n < q, and the byte field has enough points.
  lemma ReadyCommittees(q: int, t: nat, n: nat)
    requires Prime(q) && 0 < t && 2 * t < n <= 255 && n < q
    ensures NewCommittee(Zq(q), t, n).Ok? && NewCommittee(Gf256.Gf(), t, n).Ok?
    ensures Ready(q, Gf256.Gf(), NewCommittee(Zq(q), t, n).value, NewCommittee(Gf256.Gf(), t, n).value)
  {
    hide ValidCommittee, BooleanField, NewCommittee, EvaluationPoints, Prime;
    ArithmeticCommittee(q, t, n);
    BooleanCommittee(t, n);
  }

  lemma ArithmeticCommittee(q: int, t: nat, n: nat)
    requires Prime(q) && 0 < t < n && n < q
    ensures NewCommittee(Zq(q), t, n).Ok? && ValidCommittee(Zq(q), NewCommittee(Zq(q), t, n).value)
    ensures NewCommittee(Zq(q), t, n).value.threshold == t && NewCommittee(Zq(q), t, n).value.Size() == n
  {
    hide Inverse;
    ZqPoints(q, n);
    ZqLaws(q);
  }

  lemma BooleanCommittee(t: nat, n: nat)
    requires 0 < t < n <= 255
    ensures BooleanField(Gf256.Gf()) && NewCommittee(Gf256.Gf(), t, n).Ok?
        && ValidCommittee(Gf256.Gf(), NewCommittee(Gf256.Gf(), t, n).value)
    ensures NewCommittee(Gf256.Gf(), t, n).value.threshold == t && NewCommittee(Gf256.Gf(), t, n).value.Size() == n
  {
    hide Gf256.Mul, Gf256.Xor, Gf256.Inv;
    Gf256.GfPoints(n);
    Gf256.GfLaws();
  }
}
