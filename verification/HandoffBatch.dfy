/** Batches of handoffs between one pair of committees, each value with its own correlated mask. */
module HandoffBatch {
  import opened Wrappers
  import opened Sequences
  import opened Fields
  import opened Shamir
  import opened Handoff
  import opened Network
  import opened HandoffSession
  import opened HandoffRuntime
  import opened Prss

  // The randomness of one value: the coefficients of its sharing and the elements of its mask.
  datatype BatchCoins<!E> = BatchCoins(split: seq<E>, zeta: (nat, nat) -> E)

  ghost predicate ValidCoins<E(!new)>(F: Field<E>, src: Committee<E>, c: BatchCoins<E>) {
    |c.split| == src.threshold && Elems(F, c.split) && forall a, b :: F.elem(c.zeta(a, b))
  }

  // Right numbers of nodes on both sides, none listed twice.
  predicate NodesFit<E>(h: Header<E>, destinationNodes: seq<Id>) {
    && |h.senders| == h.src.Size() && |destinationNodes| == h.dst.Size()
    && Distinct(h.senders) && Distinct(destinationNodes)
  }

  // A batch goes through exactly when the node lists fit, and then every output is a sharing of
  // its value among the destination committee.
  method RunBatch<E(!new,==)>(F: Field<E>, h: Header<E>, xs: seq<E>, coins: seq<BatchCoins<E>>,
      destinationNodes: seq<Id>)
    returns (r: Result<seq<seq<Share<E>>>, HandoffError>)
    requires Laws(F) && ValidCommittee(F, h.src) && ValidCommittee(F, h.dst) && Elems(F, xs)
    requires |coins| == |xs| && forall i :: 0 <= i < |coins| ==> ValidCoins(F, h.src, coins[i])
    ensures r.Ok? <==> xs == [] || NodesFit(h, destinationNodes)
    ensures r.Ok? ==> |r.value| == |xs| && forall i :: 0 <= i < |xs| ==>
      IsSharing(F, h.dst.points, h.dst.threshold, xs[i], r.value[i])
  {
    var outputs := [];
    for i := 0 to |xs|
      invariant |outputs| == i && (i > 0 ==> NodesFit(h, destinationNodes))
      invariant forall k :: 0 <= k < i ==> IsSharing(F, h.dst.points, h.dst.threshold, xs[k], outputs[k])
    {
      var one := RunOne(F, h, xs[i], coins[i], destinationNodes);
      if one.Err? { return Err(one.error); }
      outputs := outputs + [one.value.output];
    }
    return Ok(outputs);
  }

  // Share one value, draw its mask, hand it off.
  method RunOne<E(!new,==)>(F: Field<E>, h: Header<E>, x: E, coins: BatchCoins<E>, destinationNodes: seq<Id>)
    returns (r: Result<HandoffOutcome<E>, HandoffError>)
    requires Laws(F) && ValidCommittee(F, h.src) && ValidCommittee(F, h.dst) && F.elem(x) && ValidCoins(F, h.src, coins)
    ensures r.Ok? <==> NodesFit(h, destinationNodes)
    ensures r.Ok? ==> IsSharing(F, h.dst.points, h.dst.threshold, x, r.value.output)
    ensures exists mask ::
      && Reshared(F, h.src, h.src.threshold, h.dst, h.dst.threshold, coins.zeta, mask)
      && r == HandoffRun(F, h, Split(F, x, h.src.threshold, h.src.points, coins.split).value, mask, destinationNodes)
  {
    SplitIsSharing(F, x, h.src.threshold, h.src.points, coins.split);
    var shares := Split(F, x, h.src.threshold, h.src.points, coins.split);
    var mask, secret := ResharePair(F, h.src, h.src.threshold, h.dst, h.dst.threshold, coins.zeta);
    assert ValidMask(F, h.src, h.dst, mask.value, secret);
    SharingShape(F, h.src.points, h.src.threshold, x, shares.value);
    HandoffMoves(F, shares.value, x, mask.value, h.src, h.dst);
    ghost var out := BasicHandoff(F, shares.value, mask.value, h.src, h.dst).value;
    assert Points(shares.value) == h.src.points;
    if |h.senders| == h.src.Size() && |destinationNodes| == h.dst.Size() {
      RunRefinesHandoff(F, h, shares.value, mask.value, destinationNodes, out);
    }
    r := RunHandoff(F, h, shares.value, mask.value, destinationNodes);
  }
}
