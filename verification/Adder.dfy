/** Addition of a public number to a bit-shared one: opens, secret AND, full adder, ripple adder. */
module Adder {
  import opened Wrappers
  import opened Fields
  import opened Shamir
  import opened Sharings
  import opened Handoff
  import opened Network
  import opened Bits

  // A field in which every element is its own negative, as boolean shares need.
  ghost predicate BooleanField<E(!new)>(B: Field<E>) {
    Laws(B) && forall a {:trigger B.neg(a)} :: B.neg(a) == a
  }

  function Enc<E>(B: Field<E>, bit: int): (r: E) {
    if bit == 1 then B.one else B.zero
  }

  // The opened value. An error stands for the panic of the implementation.
  function OpenValue<E(==)>(F: Field<E>, sh: seq<Share<E>>, c: Committee<E>, required: nat): (r: Result<E, MpcError>) {
    if |sh| > c.Size() then Err(ShareCountMismatch)
    else ReconstructFromParts(F, c.points[..|sh|], Values(sh), required)
  }

  // Everybody sends (index, value) to the dealer, who reconstructs and broadcasts the result.
  method OpenShares<E(==)>(F: Field<E>, sh: seq<Share<E>>, c: Committee<E>, nodes: seq<Id>, dealer: Id, required: nat)
    returns (r: Result<E, MpcError>)
    requires |sh| <= c.Size()
    ensures r == OpenValue(F, sh, c, required)
  {
    var mailbox := new MemoryMailbox<(nat, E)>();
    ghost var sent := seq(|sh|, i requires 0 <= i < |sh| => (i as nat, sh[i].value));
    for i := 0 to |sh|
      invariant fresh(mailbox) && mailbox.Pending(dealer) == sent[..i]
    {
      mailbox.Send(dealer, (i, sh[i].value));
      assert sent[..i + 1] == sent[..i] + [sent[i]];
    }
    var subs := mailbox.Drain(dealer);
    assert subs == sent;
    var points := seq(|subs|, k requires 0 <= k < |subs| => c.points[subs[k].0]);
    var values := seq(|subs|, k requires 0 <= k < |subs| => subs[k].1);
    assert points == c.points[..|sh|] && values == Values(sh);
    r := ReconstructFromParts(F, points, values, required);
  }

  function MultiplyOpen<E(==)>(F: Field<E>, a: seq<Share<E>>, b: seq<Share<E>>, mask: HandoffMask<E>, c: Committee<E>)
    : (r: Result<seq<Share<E>>, MpcError>)
  {
    var delta :- OpenValue(F, MaskedProduct(F, a, b, mask.source), c, 2 * c.threshold + 1);
    Ok(ApplyDifference(F, delta, mask.destination))
  }

  predicate CoinsFit<E>(c: Committee<E>, coins: MaskCoins<E>) {
    |coins.source| == 2 * c.threshold && |coins.destination| == c.threshold
  }

  predicate AllFit<E>(c: Committee<E>, coins: seq<MaskCoins<E>>) {
    forall i :: 0 <= i < |coins| ==> CoinsFit(c, coins[i])
  }

  // Coins of one degree-reducing mask within a committee.
  ghost predicate ValidMaskCoins<E(!new)>(F: Field<E>, c: Committee<E>, coins: MaskCoins<E>) {
    CoinsFit(c, coins) && F.elem(coins.r) && Elems(F, coins.source) && Elems(F, coins.destination)
  }

  function SecretAnd<E(==)>(B: Field<E>, a: seq<Share<E>>, b: seq<Share<E>>, c: Committee<E>, coins: MaskCoins<E>)
    : (r: Result<seq<Share<E>>, MpcError>)
    requires CoinsFit(c, coins)
  {
    var mask :- ReshareDealer(B, c, 2 * c.threshold, c, c.threshold, coins);
    MultiplyOpen(B, a, b, mask, c)
  }

  function SumShare<E>(B: Field<E>, a: E, b: Share<E>, c: Share<E>): (s: Share<E>) {
    Share(b.point, B.add(B.add(a, b.value), c.value))
  }

  function CarryShare<E>(B: Field<E>, a: E, b: Share<E>, c: Share<E>, t: Share<E>): (s: Share<E>) {
    Share(b.point, B.add(B.mul(a, B.add(b.value, c.value)), t.value))
  }

  // a is public, b and c are shared; the result is the sum bit and the carry bit.
  function FullAdder<E(==)>(B: Field<E>, a: bool, b: seq<Share<E>>, c: seq<Share<E>>, com: Committee<E>,
      coins: MaskCoins<E>)
    : (r: Result<(seq<Share<E>>, seq<Share<E>>), MpcError>)
    requires CoinsFit(com, coins)
  {
    var t :- SecretAnd(B, b, c, com, coins);
    if |c| < |b| || |t| < |b| then Err(ShareCountMismatch)
    else
      var af := if a then B.one else B.zero;
      Ok((seq(|b|, i requires 0 <= i < |b| => SumShare(B, af, b[i], c[i])),
          seq(|b|, i requires 0 <= i < |b| => CarryShare(B, af, b[i], c[i], t[i]))))
  }

  method FullAdderLoop<E(==)>(B: Field<E>, a: bool, b: seq<Share<E>>, c: seq<Share<E>>, com: Committee<E>,
      coins: MaskCoins<E>)
    returns (r: Result<(seq<Share<E>>, seq<Share<E>>), MpcError>)
    requires CoinsFit(com, coins)
    ensures r == FullAdder(B, a, b, c, com, coins)
  {
    hide SecretAnd, SumShare, CarryShare;
    var product := SecretAnd(B, b, c, com, coins);
    if product.Err? { return Err(product.error); }
    var t := product.value;
    if |c| < |b| || |t| < |b| { return Err(ShareCountMismatch); }
    var af := if a then B.one else B.zero;
    var sum, carry := [], [];
    for i := 0 to |b|
      invariant |sum| == |carry| == i
      invariant forall k :: 0 <= k < i ==> sum[k] == SumShare(B, af, b[k], c[k])
      invariant forall k :: 0 <= k < i ==> carry[k] == CarryShare(B, af, b[k], c[k], t[k])
    {
      sum := sum + [SumShare(B, af, b[i], c[i])];
      carry := carry + [CarryShare(B, af, b[i], c[i], t[i])];
    }
    assert sum == seq(|b|, i requires 0 <= i < |b| => SumShare(B, af, b[i], c[i]));
    assert carry == seq(|b|, i requires 0 <= i < |b| => CarryShare(B, af, b[i], c[i], t[i]));
    return Ok((sum, carry));
  }

  // The adder from position k on, with the given carry into it.
  function RippleFrom<E(==)>(B: Field<E>, bits: seq<bool>, rBits: seq<seq<Share<E>>>, com: Committee<E>,
      coins: seq<MaskCoins<E>>, k: nat, carry: seq<Share<E>>)
    : (r: Result<(seq<seq<Share<E>>>, seq<Share<E>>), MpcError>)
    requires k <= |bits| == |coins| && AllFit(com, coins)
    decreases |bits| - k
  {
    if k == |bits| then Ok(([], carry))
    else if k >= |rBits| then Err(InvalidBitLength)
    else
      var step :- FullAdder(B, bits[k], rBits[k], carry, com, coins[k]);
      var rest :- RippleFrom(B, bits, rBits, com, coins, k + 1, step.1);
      Ok(([step.0] + rest.0, rest.1))
  }

  datatype AdderCoins<E> = AdderCoins(carry: seq<E>, masks: seq<MaskCoins<E>>)

  predicate AdderCoinsFit<E>(com: Committee<E>, coins: AdderCoins<E>, n: nat) {
    |coins.carry| == com.threshold && |coins.masks| == n && AllFit(com, coins.masks)
  }

  function RippleAdd<E(==)>(B: Field<E>, bits: seq<bool>, rBits: seq<seq<Share<E>>>, com: Committee<E>,
      coins: AdderCoins<E>)
    : (r: Result<(seq<seq<Share<E>>>, seq<Share<E>>), MpcError>)
    requires AdderCoinsFit(com, coins, |bits|)
  {
    var carry :- Split(B, B.zero, com.threshold, com.points, coins.carry);
    RippleFrom(B, bits, rBits, com, coins.masks, 0, carry)
  }

  // Digits already produced, followed by the rest of the run.
  function Continue<E>(sum: seq<seq<Share<E>>>, rest: Result<(seq<seq<Share<E>>>, seq<Share<E>>), MpcError>)
    : (r: Result<(seq<seq<Share<E>>>, seq<Share<E>>), MpcError>)
  {
    match rest
    case Err(e) => Err(e)
    case Ok(more) => Ok((sum + more.0, more.1))
  }

  lemma ContinueStep<E>(B: Field<E>, bits: seq<bool>, rBits: seq<seq<Share<E>>>, com: Committee<E>,
      coins: seq<MaskCoins<E>>, k: nat, carry: seq<Share<E>>, sum: seq<seq<Share<E>>>)
    requires k < |bits| == |coins| && AllFit(com, coins)
    ensures Continue(sum, RippleFrom(B, bits, rBits, com, coins, k, carry))
            == if k >= |rBits| then Err(InvalidBitLength)
               else match FullAdder(B, bits[k], rBits[k], carry, com, coins[k])
                 case Err(e) => Err(e)
                 case Ok(step) => Continue(sum + [step.0], RippleFrom(B, bits, rBits, com, coins, k + 1, step.1))
  {
    hide FullAdder;
    if k < |rBits| && FullAdder(B, bits[k], rBits[k], carry, com, coins[k]).Ok? {
      var step := FullAdder(B, bits[k], rBits[k], carry, com, coins[k]).value;
      var next := RippleFrom(B, bits, rBits, com, coins, k + 1, step.1);
      if next.Ok? {
        assert sum + ([step.0] + next.value.0) == (sum + [step.0]) + next.value.0;
      }
    }
  }

  method RippleAddLoop<E(==)>(B: Field<E>, bits: seq<bool>, rBits: seq<seq<Share<E>>>, com: Committee<E>,
      coins: AdderCoins<E>)
    returns (r: Result<(seq<seq<Share<E>>>, seq<Share<E>>), MpcError>)
    requires AdderCoinsFit(com, coins, |bits|)
    ensures r == RippleAdd(B, bits, rBits, com, coins)
  {
    hide FullAdder, Split, RippleFrom;
    var start := Split(B, B.zero, com.threshold, com.points, coins.carry);
    if start.Err? { return Err(start.error); }
    var carry, sum := start.value, [];
    ghost var whole := RippleFrom(B, bits, rBits, com, coins.masks, 0, start.value);
    if whole.Ok? { assert [] + whole.value.0 == whole.value.0; }
    for k := 0 to |bits|
      invariant Continue(sum, RippleFrom(B, bits, rBits, com, coins.masks, k, carry)) == whole
    {
      ContinueStep(B, bits, rBits, com, coins.masks, k, carry, sum);
      if k >= |rBits| { return Err(InvalidBitLength); }
      var step := FullAdderLoop(B, bits[k], rBits[k], carry, com, coins.masks[k]);
      if step.Err? { return Err(step.error); }
      sum := sum + [step.value.0];
      carry := step.value.1;
    }
    RippleEnd(B, bits, rBits, com, coins.masks, carry);
    assert sum + [] == sum;
    return Ok((sum, carry));
  }

  lemma RippleEnd<E>(B: Field<E>, bits: seq<bool>, rBits: seq<seq<Share<E>>>, com: Committee<E>,
      coins: seq<MaskCoins<E>>, carry: seq<Share<E>>)
    requires |bits| == |coins| && AllFit(com, coins)
    ensures RippleFrom(B, bits, rBits, com, coins, |bits|, carry) == Ok(([], carry))
  {
  }

  // ---- correctness ----

  // `sh` is a threshold-degree sharing of v among the committee.
  ghost predicate Holds<E(!new)>(F: Field<E>, c: Committee<E>, v: E, sh: seq<Share<E>>) {
    IsSharing(F, c.points, c.threshold, v, sh)
  }

  lemma OpenHolds<E(!new)>(F: Field<E>, c: Committee<E>, d: nat, v: E, sh: seq<Share<E>>, required: nat)
    requires Laws(F) && ValidCommittee(F, c) && IsSharing(F, c.points, d, v, sh)
    requires d < c.Size() && required <= c.Size()
    ensures OpenValue(F, sh, c, required) == Ok(v)
  {
    SharingShape(F, c.points, d, v, sh);
    assert c.points[..|sh|] == c.points;
    OpenSharing(F, c.points, d, v, sh, required);
  }

  lemma MultiplyOpenHolds<E(!new)>(F: Field<E>, a: seq<Share<E>>, b: seq<Share<E>>, u: E, v: E, mask: HandoffMask<E>,
      c: Committee<E>)
    requires Laws(F) && ValidCommittee(F, c) && 2 * c.threshold < c.Size() && GoodMask(F, c, c, mask)
    requires Holds(F, c, u, a) && Holds(F, c, v, b)
    ensures MultiplyOpen(F, a, b, mask, c).Ok? && Holds(F, c, F.mul(u, v), MultiplyOpen(F, a, b, mask, c).value)
  {
    var r :| ValidMask(F, c, c, mask, r);
    ProductSharing(F, c.points, c.threshold, u, v, a, b);
    OpenDifference(F, c.points, 2 * c.threshold, mask.sourceDegree, F.mul(u, v), r, Zip(F.mul, a, b), mask.source,
        2 * c.threshold + 1);
    var m := MaskedProduct(F, a, b, mask.source);
    assert c.points[..|m|] == c.points;
    SharingShape(F, c.points, 2 * c.threshold, F.mul(u, v), Zip(F.mul, a, b));
    MaskedTransfer(F, c, F.mul(u, v), r, mask.destination);
  }

  lemma SecretAndHolds<E(!new)>(B: Field<E>, a: seq<Share<E>>, b: seq<Share<E>>, u: E, v: E, c: Committee<E>,
      coins: MaskCoins<E>)
    requires Laws(B) && ValidCommittee(B, c) && 2 * c.threshold < c.Size() && ValidMaskCoins(B, c, coins)
    requires Holds(B, c, u, a) && Holds(B, c, v, b)
    ensures SecretAnd(B, a, b, c, coins).Ok? && Holds(B, c, B.mul(u, v), SecretAnd(B, a, b, c, coins).value)
  {
    DealerMask(B, c, 2 * c.threshold, c, coins);
    MultiplyOpenHolds(B, a, b, u, v, ReshareDealer(B, c, 2 * c.threshold, c, c.threshold, coins).value, c);
  }

  lemma OnePlusOne<E(!new)>(B: Field<E>)
    requires BooleanField(B)
    ensures B.add(B.one, B.one) == B.zero
  {
    assert B.neg(B.one) == B.one;
  }

  // The full adder's formulas on encoded bits.
  lemma AdderBits<E(!new)>(B: Field<E>, a: int, b: int, c: int)
    requires BooleanField(B) && 0 <= a <= 1 && 0 <= b <= 1 && 0 <= c <= 1
    ensures B.add(B.add(Enc(B, a), Enc(B, b)), Enc(B, c)) == Enc(B, (a + b + c) % 2)
    ensures B.add(B.mul(Enc(B, a), B.add(Enc(B, b), Enc(B, c))), B.mul(Enc(B, b), Enc(B, c))) == Enc(B, (a + b + c) / 2)
  {
    OnePlusOne(B);
    Units(B, B.one);
    Units(B, B.zero);
    MulZero(B, B.one);
    MulZero(B, B.zero);
  }

  lemma SumHolds<E(!new)>(B: Field<E>, com: Committee<E>, a: E, u: E, v: E, b: seq<Share<E>>, c: seq<Share<E>>,
      s: seq<Share<E>>)
    requires Laws(B) && ValidCommittee(B, com) && B.elem(a)
    requires Holds(B, com, u, b) && Holds(B, com, v, c)
    requires |s| == |b| == |c| && forall i :: 0 <= i < |s| ==> s[i] == SumShare(B, a, b[i], c[i])
    ensures Holds(B, com, B.add(B.add(a, u), v), s)
  {
    SharingShape(B, com.points, com.threshold, u, b);
    SharingShape(B, com.points, com.threshold, v, c);
    var k := Constant(com.points, a);
    SharingConst(B, com.points, a, k);
    SharingWiden(B, com.points, 0, com.threshold, a, k);
    var ab := Zip(B.add, k, b);
    SharingAdd(B, com.points, com.threshold, a, u, k, b, ab);
    SharingAdd(B, com.points, com.threshold, B.add(a, u), v, ab, c, s);
  }

  lemma CarryHolds<E(!new)>(B: Field<E>, com: Committee<E>, a: E, u: E, v: E, w: E, b: seq<Share<E>>, c: seq<Share<E>>,
      t: seq<Share<E>>, s: seq<Share<E>>)
    requires Laws(B) && ValidCommittee(B, com) && B.elem(a)
    requires Holds(B, com, u, b) && Holds(B, com, v, c) && Holds(B, com, w, t)
    requires |s| == |b| == |c| == |t| && forall i :: 0 <= i < |s| ==> s[i] == CarryShare(B, a, b[i], c[i], t[i])
    ensures Holds(B, com, B.add(B.mul(a, B.add(u, v)), w), s)
  {
    SharingShape(B, com.points, com.threshold, u, b);
    SharingShape(B, com.points, com.threshold, v, c);
    SharingShape(B, com.points, com.threshold, w, t);
    var bc := Zip(B.add, b, c);
    SharingAdd(B, com.points, com.threshold, u, v, b, c, bc);
    var abc := MapValues(x => B.mul(a, x), bc);
    SharingScale(B, com.points, com.threshold, a, B.add(u, v), bc, abc);
    SharingAdd(B, com.points, com.threshold, B.mul(a, B.add(u, v)), w, abc, t, s);
  }

  lemma FullAdderHolds<E(!new)>(B: Field<E>, a: bool, b: seq<Share<E>>, c: seq<Share<E>>, com: Committee<E>,
      coins: MaskCoins<E>, x: int, y: int)
    requires BooleanField(B) && ValidCommittee(B, com) && 2 * com.threshold < com.Size()
        && ValidMaskCoins(B, com, coins)
    requires 0 <= x <= 1 && 0 <= y <= 1
    requires Holds(B, com, Enc(B, x), b) && Holds(B, com, Enc(B, y), c)
    ensures var r := FullAdder(B, a, b, c, com, coins); var n := (if a then 1 else 0) + x + y;
      r.Ok? && Holds(B, com, Enc(B, n % 2), r.value.0) && Holds(B, com, Enc(B, n / 2), r.value.1)
  {
    hide SecretAnd;
    SharingShape(B, com.points, com.threshold, Enc(B, x), b);
    SharingShape(B, com.points, com.threshold, Enc(B, y), c);
    SecretAndHolds(B, b, c, Enc(B, x), Enc(B, y), com, coins);
    var t := SecretAnd(B, b, c, com, coins).value;
    SharingShape(B, com.points, com.threshold, B.mul(Enc(B, x), Enc(B, y)), t);
    var av := if a then 1 else 0;
    var r := FullAdder(B, a, b, c, com, coins).value;
    SumHolds(B, com, Enc(B, av), Enc(B, x), Enc(B, y), b, c, r.0);
    CarryHolds(B, com, Enc(B, av), Enc(B, x), Enc(B, y), B.mul(Enc(B, x), Enc(B, y)), b, c, t, r.1);
    AdderBits(B, av, x, y);
  }

  // `bits` spells the low digits of d, and `rBits` shares the low digits of r.
  ghost predicate SharesBits<E(!new)>(B: Field<E>, com: Committee<E>, r: int, rBits: seq<seq<Share<E>>>, n: nat) {
    n <= |rBits| && forall k :: 0 <= k < n ==> Holds(B, com, Enc(B, Bit(r, k)), rBits[k])
  }

  lemma RippleStepHolds<E(!new)>(B: Field<E>, bits: seq<bool>, rBits: seq<seq<Share<E>>>, com: Committee<E>,
      coins: seq<MaskCoins<E>>, k: nat, carry: seq<Share<E>>, d: int, r: int)
    returns (step: (seq<Share<E>>, seq<Share<E>>))
    requires BooleanField(B) && ValidCommittee(B, com) && 2 * com.threshold < com.Size()
    requires k < |bits| == |coins| && ValidMaskCoins(B, com, coins[k])
    requires bits[k] == (Bit(d, k) == 1)
    requires SharesBits(B, com, r, rBits, |bits|)
    requires Holds(B, com, Enc(B, Carry(d, r, k)), carry)
    ensures FullAdder(B, bits[k], rBits[k], carry, com, coins[k]) == Ok(step)
    ensures Holds(B, com, Enc(B, Bit(d + r, k)), step.0) && Holds(B, com, Enc(B, Carry(d, r, k + 1)), step.1)
  {
    hide FullAdder, Holds, Carry, Enc, Shr, BooleanField, ValidCommittee;
    AdderStep(d, r, k);
    FullAdderHolds(B, bits[k], rBits[k], carry, com, coins[k], Bit(r, k), Carry(d, r, k));
    step := FullAdder(B, bits[k], rBits[k], carry, com, coins[k]).value;
  }

  // Every position of the ripple adder holds the digit of d + r.
  lemma {:induction false} RippleHolds<E(!new)>(B: Field<E>, bits: seq<bool>, rBits: seq<seq<Share<E>>>,
      com: Committee<E>, coins: seq<MaskCoins<E>>, k: nat, carry: seq<Share<E>>, d: int, r: int)
    requires BooleanField(B) && ValidCommittee(B, com) && 2 * com.threshold < com.Size()
    requires k <= |bits| == |coins| && AllFit(com, coins)
    requires forall i :: 0 <= i < |coins| ==> ValidMaskCoins(B, com, coins[i])
    requires forall i :: 0 <= i < |bits| ==> bits[i] == (Bit(d, i) == 1)
    requires SharesBits(B, com, r, rBits, |bits|)
    requires Holds(B, com, Enc(B, Carry(d, r, k)), carry)
    ensures var out := RippleFrom(B, bits, rBits, com, coins, k, carry);
      && out.Ok? && |out.value.0| == |bits| - k
      && (forall j :: 0 <= j < |bits| - k ==> Holds(B, com, Enc(B, Bit(d + r, k + j)), out.value.0[j]))
      && Holds(B, com, Enc(B, Carry(d, r, |bits|)), out.value.1)
    decreases |bits| - k
  {
    hide FullAdder, Holds, Carry, Enc, Shr, BooleanField, ValidCommittee;
    if k < |bits| {
      var step := RippleStepHolds(B, bits, rBits, com, coins, k, carry, d, r);
      RippleHolds(B, bits, rBits, com, coins, k + 1, step.1, d, r);
      var rest := RippleFrom(B, bits, rBits, com, coins, k + 1, step.1).value.0;
      forall j | 0 <= j < |bits| - k ensures Holds(B, com, Enc(B, Bit(d + r, k + j)), ([step.0] + rest)[j]) {
        if j > 0 {
          assert ([step.0] + rest)[j] == rest[j - 1] && k + 1 + (j - 1) == k + j;
        }
      }
    }
  }
}
