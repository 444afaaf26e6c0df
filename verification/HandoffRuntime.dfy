/** The multi-node handoff and multiplication: source members, a dealer and destination members
    exchanging messages through mailboxes. */
module HandoffRuntime {
  import opened Wrappers
  import opened Sequences
  import opened Fields
  import opened Shamir
  import opened Sharings
  import opened Handoff
  import opened Network
  import opened HandoffSession

  datatype HandoffOutcome<E> = HandoffOutcome(output: seq<Share<E>>, delta: E)

  // Submissions of the values, the dealer's opening, and its broadcast to the destination nodes.
  // A destination listed twice finds its mailbox already drained, which is an error.
  function RelayOutcome<E(==)>(F: Field<E>, h: Header<E>, values: seq<E>, required: nat, destinationNodes: seq<Id>)
    : (r: Result<E, HandoffError>)
  {
    var delta :- DealerOutcome(F, h, values, required);
    if Distinct(destinationNodes) then Ok(delta) else Err(InvalidState)
  }

  method Relay<E(==)>(F: Field<E>, h: Header<E>, values: seq<E>, required: nat, destinationNodes: seq<Id>)
    returns (r: Result<E, HandoffError>)
    requires |values| == |h.senders| == h.src.Size()
    ensures r == RelayOutcome(F, h, values, required, destinationNodes)
  {
    var submissionsMailbox := new MemoryMailbox<Submission<E>>();
    for i := 0 to |values|
      invariant submissionsMailbox.Pending(h.dealer) == SubmissionsOf(h, values)[..i]
      invariant fresh(submissionsMailbox)
    {
      submissionsMailbox.Send(h.dealer, SubmissionOf(h, i, values[i]));
      assert SubmissionsOf(h, values)[..i + 1] == SubmissionsOf(h, values)[..i] + [SubmissionOf(h, i, values[i])];
    }
    var submissions := submissionsMailbox.Drain(h.dealer);
    assert submissions == SubmissionsOf(h, values);
    if |submissions| < required {
      return Err(TooFewShares(|submissions|, required));
    }
    var checked := ValidateLoop(h, submissions);
    HonestSubmissions(h, values, 0, {});
    if checked.Err? {
      return Err(checked.error);
    }
    var points := seq(|submissions|, k requires 0 <= k < |submissions| => h.src.points[submissions[k].shareIndex]);
    var shares := seq(|submissions|, k requires 0 <= k < |submissions| => submissions[k].maskedShare);
    assert points == h.src.points && shares == values;
    var delta := ReconstructFromParts(F, points, shares, required);
    if delta.Err? {
      return Err(Crypto(delta.error));
    }
    var announced := Announce(h, delta.value, destinationNodes);
    if !announced {
      return Err(InvalidState);
    }
    return Ok(delta.value);
  }

  predicate Expected<E(==)>(h: Header<E>, delta: E, b: Broadcast<E>) {
    b.dealer == h.dealer && b.executionId == h.executionId && b.delta == delta
  }

  // The broadcast and its reception: every destination node must find a broadcast of this delta.
  method Announce<E(==)>(h: Header<E>, delta: E, destinationNodes: seq<Id>) returns (ok: bool)
    ensures ok <==> Distinct(destinationNodes)
  {
    var mailbox := new MemoryMailbox<Broadcast<E>>();
    var broadcast := Broadcast(h.executionId, h.from, h.to, h.dealer, delta);
    for i := 0 to |destinationNodes|
      invariant fresh(mailbox)
      invariant forall n :: n in destinationNodes[..i] ==> broadcast in mailbox.Pending(n)
    {
      mailbox.Send(destinationNodes[i], broadcast);
    }
    assert destinationNodes[..|destinationNodes|] == destinationNodes;
    for i := 0 to |destinationNodes|
      invariant fresh(mailbox)
      invariant forall n :: n in destinationNodes[..i] ==> mailbox.Pending(n) == []
      invariant forall n :: n in destinationNodes && n !in destinationNodes[..i] ==> broadcast in mailbox.Pending(n)
      invariant Distinct(destinationNodes[..i])
    {
      var node := destinationNodes[i];
      var received := mailbox.Drain(node);
      var valid := exists k :: 0 <= k < |received| && Expected(h, delta, received[k]);
      if !valid {
        assert node in destinationNodes[..i];
        var j :| 0 <= j < i && destinationNodes[..i][j] == node;
        assert destinationNodes[j] == destinationNodes[i];
        return false;
      }
      assert destinationNodes[..i + 1] == destinationNodes[..i] + [node];
    }
    return true;
  }

  function HandoffRun<E(==)>(F: Field<E>, h: Header<E>, x: seq<Share<E>>, mask: HandoffMask<E>,
      destinationNodes: seq<Id>)
    : (r: Result<HandoffOutcome<E>, HandoffError>)
  {
    if |x| != h.src.Size() || |mask.source| != h.src.Size() || |h.senders| != h.src.Size() then Err(CountMismatch)
    else if |mask.destination| != h.dst.Size() || |destinationNodes| != h.dst.Size() then Err(CountMismatch)
    else
      var deltaShares :- Lift(MaskedDifference(F, x, mask.source));
      var delta :- RelayOutcome(F, h, Values(deltaShares), h.src.threshold + 1, destinationNodes);
      Ok(HandoffOutcome(ApplyDifference(F, delta, mask.destination), delta))
  }

  method RunHandoff<E(==)>(F: Field<E>, h: Header<E>, x: seq<Share<E>>, mask: HandoffMask<E>, destinationNodes: seq<Id>)
    returns (r: Result<HandoffOutcome<E>, HandoffError>)
    ensures r == HandoffRun(F, h, x, mask, destinationNodes)
  {
    if |x| != h.src.Size() || |mask.source| != h.src.Size() || |h.senders| != h.src.Size() {
      return Err(CountMismatch);
    }
    if |mask.destination| != h.dst.Size() || |destinationNodes| != h.dst.Size() {
      return Err(CountMismatch);
    }
    var deltaShares := MaskedDifference(F, x, mask.source);
    if deltaShares.Err? {
      return Err(Crypto(deltaShares.error));
    }
    var delta := Relay(F, h, Values(deltaShares.value), h.src.threshold + 1, destinationNodes);
    if delta.Err? {
      return Err(delta.error);
    }
    return Ok(HandoffOutcome(ApplyDifference(F, delta.value, mask.destination), delta.value));
  }

  function MultiplyRun<E(==)>(F: Field<E>, h: Header<E>, x: seq<Share<E>>, y: seq<Share<E>>, mask: HandoffMask<E>,
      destinationNodes: seq<Id>)
    : (r: Result<HandoffOutcome<E>, HandoffError>)
  {
    if |x| != |y| || |x| != |mask.source| || |x| != h.src.Size() || |h.senders| != h.src.Size() then Err(CountMismatch)
    else if |mask.destination| != h.dst.Size() || |destinationNodes| != h.dst.Size() then Err(CountMismatch)
    else if h.src.Size() <= 2 * h.src.threshold then Err(InvalidState)
    else
      var delta :- RelayOutcome(F, h, Values(MaskedProduct(F, x, y, mask.source)), 2 * h.src.threshold + 1,
          destinationNodes);
      Ok(HandoffOutcome(ApplyDifference(F, delta, mask.destination), delta))
  }

  method RunMultiply<E(==)>(F: Field<E>, h: Header<E>, x: seq<Share<E>>, y: seq<Share<E>>, mask: HandoffMask<E>,
      destinationNodes: seq<Id>)
    returns (r: Result<HandoffOutcome<E>, HandoffError>)
    ensures r == MultiplyRun(F, h, x, y, mask, destinationNodes)
  {
    if |x| != |y| || |x| != |mask.source| || |x| != h.src.Size() || |h.senders| != h.src.Size() {
      return Err(CountMismatch);
    }
    if |mask.destination| != h.dst.Size() || |destinationNodes| != h.dst.Size() {
      return Err(CountMismatch);
    }
    if h.src.Size() <= 2 * h.src.threshold {
      return Err(InvalidState);
    }
    var delta := Relay(F, h, Values(MaskedProduct(F, x, y, mask.source)), 2 * h.src.threshold + 1, destinationNodes);
    if delta.Err? {
      return Err(delta.error);
    }
    return Ok(HandoffOutcome(ApplyDifference(F, delta.value, mask.destination), delta.value));
  }

  // For shares held at the source points, the multi-node run with pairwise different nodes on
  // each side is the one-shot handoff; a repeated node on either side is exactly what breaks it.
  lemma RunRefinesHandoff<E>(F: Field<E>, h: Header<E>, x: seq<Share<E>>, mask: HandoffMask<E>,
      destinationNodes: seq<Id>, out: seq<Share<E>>)
    requires Points(x) == h.src.points && |h.senders| == h.src.Size() && |destinationNodes| == h.dst.Size()
    requires BasicHandoff(F, x, mask, h.src, h.dst) == Ok(out)
    ensures HandoffRun(F, h, x, mask, destinationNodes).Ok? <==> Distinct(h.senders) && Distinct(destinationNodes)
    ensures HandoffRun(F, h, x, mask, destinationNodes).Ok?
        ==> HandoffRun(F, h, x, mask, destinationNodes).value.output == out
    ensures !Distinct(h.senders) ==> exists n ::
        n in h.senders && HandoffRun(F, h, x, mask, destinationNodes) == Err(DuplicateSender(n))
  {
    RepeatFree(h.senders);
    FirstRepeatMember(h.senders, 0);
    var delta := Zip(SubOf(F), x, mask.source);
    assert Points(delta) == h.src.points by {
      assert forall i :: 0 <= i < |x| ==> Points(delta)[i] == Points(x)[i];
    }
  }

  lemma {:induction false} FirstRepeatMember(ids: seq<Id>, i: nat)
    requires i <= |ids|
    ensures FirstRepeat(ids, i).Some? ==> FirstRepeat(ids, i).value in ids
    decreases |ids| - i
  {
    if i < |ids| { FirstRepeatMember(ids, i + 1); }
  }

  lemma RunRefinesMultiply<E>(F: Field<E>, h: Header<E>, x: seq<Share<E>>, y: seq<Share<E>>, mask: HandoffMask<E>,
      destinationNodes: seq<Id>, out: seq<Share<E>>)
    requires Points(x) == h.src.points && |h.senders| == h.src.Size() && |destinationNodes| == h.dst.Size()
    requires MultiplyAndHandoff(F, x, y, mask, h.src, h.dst) == Ok(out)
    ensures MultiplyRun(F, h, x, y, mask, destinationNodes).Ok? <==> Distinct(h.senders) && Distinct(destinationNodes)
    ensures MultiplyRun(F, h, x, y, mask, destinationNodes).Ok?
        ==> MultiplyRun(F, h, x, y, mask, destinationNodes).value.output == out
  {
    RepeatFree(h.senders);
    var delta := MaskedProduct(F, x, y, mask.source);
    assert Points(delta) == h.src.points by {
      assert forall i :: 0 <= i < |x| ==> Points(delta)[i] == Points(x)[i];
    }
  }
}
