/** The message-driven handoff: one session as a typestate, and the multi-node run over mailboxes. */
module HandoffSession {
  import opened Wrappers
  import opened Sequences
  import opened Fields
  import opened Shamir
  import opened Sharings
  import opened Handoff
  import opened Network

  datatype HandoffError =
    | InvalidState
    | CountMismatch
    | TooFewShares(received: nat, required: nat)
    | DuplicateSender(node: Id)
    | WrongCommittee
    | WrongDegree
    | WrongExecution
    | InvalidShareIndex(index: nat)
    | Crypto(error: MpcError)

  datatype Submission<E> = Submission(executionId: Id, from: Id, to: Id, sender: Id, shareIndex: nat, degree: nat,
      maskedShare: E)

  datatype Broadcast<E> = Broadcast(executionId: Id, from: Id, to: Id, dealer: Id, delta: E)

  // What stays fixed during one handoff.
  datatype Header<E> = Header(
    executionId: Id, from: Id, to: Id,
    src: Committee<E>, dst: Committee<E>,
    sourceDegree: nat, dealer: Id, senders: seq<Id>)

  datatype Phase<E> =
    | Initialized(x: seq<Share<E>>, mask: HandoffMask<E>)
    | Collecting(submissions: seq<Submission<E>>, dstMask: seq<Share<E>>)
    | Reconstructed(delta: E, dstMask: seq<Share<E>>)
    | OutputReady(output: seq<Share<E>>)

  datatype Session<E> = Session(header: Header<E>, phase: Phase<E>)

  function Lift<T>(r: Result<T, MpcError>): (s: Result<T, HandoffError>) {
    match r
    case Ok(v) => Ok(v)
    case Err(e) => Err(Crypto(e))
  }

  function NewSession<E>(h: Header<E>, x: seq<Share<E>>, mask: HandoffMask<E>): (r: Result<Session<E>, HandoffError>) {
    if |x| != h.src.Size() || |mask.source| != h.src.Size() || |h.senders| != h.src.Size() then Err(CountMismatch)
    else if |mask.destination| != h.dst.Size() then Err(CountMismatch)
    else Ok(Session(h.(sourceDegree := mask.sourceDegree), Initialized(x, mask)))
  }

  function SubmissionOf<E>(h: Header<E>, i: nat, value: E): (s: Submission<E>)
    requires i < |h.senders|
  {
    Submission(h.executionId, h.from, h.to, h.senders[i], i, h.sourceDegree, value)
  }

  function SubmissionsOf<E>(h: Header<E>, values: seq<E>): (subs: seq<Submission<E>>)
    requires |values| <= |h.senders|
    ensures |subs| == |values|
  {
    seq(|values|, i requires 0 <= i < |values| => SubmissionOf(h, i, values[i]))
  }

  // Stage 1: every source member masks its share.
  function ComputeMaskedShares<E(==)>(F: Field<E>, s: Session<E>): (r: Result<Session<E>, HandoffError>)
    requires s.phase.Initialized? ==> |s.phase.x| <= |s.header.senders|
  {
    if !s.phase.Initialized? then Err(InvalidState)
    else
      var delta :- Lift(MaskedDifference(F, s.phase.x, s.phase.mask.source));
      Ok(s.(phase := Collecting(SubmissionsOf(s.header, Values(delta)), s.phase.mask.destination)))
  }

  // The dealer's check of submissions i.. when the senders in `seen` have been accepted.
  function Validate<E(==)>(h: Header<E>, subs: seq<Submission<E>>, i: nat, seen: set<Id>): (r: Result<(), HandoffError>)
    requires i <= |subs|
    ensures r.Ok? ==> forall k :: i <= k < |subs| ==> WellFormed(h, subs[k])
    decreases |subs| - i
  {
    if i == |subs| then Ok(())
    else
      var s := subs[i];
      if s.executionId != h.executionId then Err(WrongExecution)
      else if s.from != h.from || s.to != h.to then Err(WrongCommittee)
      else if s.degree != h.sourceDegree then Err(WrongDegree)
      else if s.shareIndex >= h.src.Size() then Err(InvalidShareIndex(s.shareIndex))
      else if s.sender in seen then Err(DuplicateSender(s.sender))
      else Validate(h, subs, i + 1, seen + {s.sender})
  }

  method ValidateLoop<E(==)>(h: Header<E>, subs: seq<Submission<E>>) returns (r: Result<(), HandoffError>)
    ensures r == Validate(h, subs, 0, {})
  {
    var seen: set<Id> := {};
    for i := 0 to |subs|
      invariant Validate(h, subs, 0, {}) == Validate(h, subs, i, seen)
    {
      var s := subs[i];
      if s.executionId != h.executionId { return Err(WrongExecution); }
      if s.from != h.from || s.to != h.to { return Err(WrongCommittee); }
      if s.degree != h.sourceDegree { return Err(WrongDegree); }
      if s.shareIndex >= h.src.Size() { return Err(InvalidShareIndex(s.shareIndex)); }
      if s.sender in seen { return Err(DuplicateSender(s.sender)); }
      seen := seen + {s.sender};
    }
    return Ok(());
  }

  predicate WellFormed<E(==)>(h: Header<E>, s: Submission<E>) {
    && s.executionId == h.executionId && s.from == h.from && s.to == h.to
    && s.degree == h.sourceDegree && s.shareIndex < h.src.Size()
  }

  predicate NoRepeats<E(==)>(subs: seq<Submission<E>>) {
    forall i, j :: 0 <= i < j < |subs| ==> subs[i].sender != subs[j].sender
  }

  // The dealer accepts exactly the lists of well-formed submissions from different senders.
  lemma {:induction false} ValidateAccepts<E>(h: Header<E>, subs: seq<Submission<E>>, i: nat, seen: set<Id>)
    requires i <= |subs|
    ensures Validate(h, subs, i, seen).Ok? <==>
      && (forall k :: i <= k < |subs| ==> WellFormed(h, subs[k]) && subs[k].sender !in seen)
      && NoRepeats(subs[i..])
    decreases |subs| - i
  {
    if i < |subs| {
      var rest := seen + {subs[i].sender};
      ValidateAccepts(h, subs, i + 1, rest);
      assert subs[i..] == [subs[i]] + subs[i + 1..];
      if NoRepeats(subs[i..]) {
        var tail := subs[i + 1..];
        forall a, b | 0 <= a < b < |tail| ensures tail[a].sender != tail[b].sender {
          assert subs[i..][a + 1].sender != subs[i..][b + 1].sender;
        }
        forall k | i + 1 <= k < |subs| ensures subs[k].sender != subs[i].sender {
          assert subs[i..][0].sender != subs[i..][k - i].sender;
        }
      }
    }
  }

  // The first sender that repeats an earlier one.
  function FirstRepeat(ids: seq<Id>, i: nat): (r: Option<Id>)
    requires i <= |ids|
    decreases |ids| - i
  {
    if i == |ids| then None
    else if ids[i] in ids[..i] then Some(ids[i])
    else FirstRepeat(ids, i + 1)
  }

  lemma {:induction false} FirstRepeatNone(ids: seq<Id>, i: nat)
    requires i <= |ids|
    ensures FirstRepeat(ids, i) == None <==> forall k :: i <= k < |ids| ==> ids[k] !in ids[..k]
    decreases |ids| - i
  {
    if i < |ids| { FirstRepeatNone(ids, i + 1); }
  }

  lemma RepeatFree(ids: seq<Id>)
    ensures FirstRepeat(ids, 0) == None <==> Distinct(ids)
  {
    FirstRepeatNone(ids, 0);
    if !Distinct(ids) {
      var i, j :| 0 <= i < j < |ids| && ids[i] == ids[j];
      assert ids[..j][i] == ids[j];
    }
  }

  // On the submissions honest members make, only a repeated sender is refused.
  lemma {:induction false} HonestSubmissions<E>(h: Header<E>, values: seq<E>, i: nat, seen: set<Id>)
    requires |values| == |h.senders| == h.src.Size() && i <= |values|
    requires forall n :: n in seen <==> n in h.senders[..i]
    ensures Validate(h, SubmissionsOf(h, values), i, seen)
            == match FirstRepeat(h.senders, i) case None => Ok(()) case Some(n) => Err(DuplicateSender(n))
    decreases |values| - i
  {
    if i < |values| {
      assert h.senders[..i + 1] == h.senders[..i] + [h.senders[i]];
      HonestSubmissions(h, values, i + 1, seen + {h.senders[i]});
    }
  }

  // Stage 2: the dealer validates the submissions and opens x - r at the source points they name.
  function DealerReconstruct<E(==)>(F: Field<E>, s: Session<E>): (r: Result<Session<E>, HandoffError>) {
    if !s.phase.Collecting? then Err(InvalidState)
    else
      var subs, h := s.phase.submissions, s.header;
      var required := h.src.threshold + 1;
      if |subs| < required then Err(TooFewShares(|subs|, required))
      else
        var _ :- Validate(h, subs, 0, {});
        var pts := seq(|subs|, k requires 0 <= k < |subs| => h.src.points[subs[k].shareIndex]);
        var vals := seq(|subs|, k requires 0 <= k < |subs| => subs[k].maskedShare);
        var delta :- Lift(ReconstructFromParts(F, pts, vals, required));
        Ok(s.(phase := Reconstructed(delta, s.phase.dstMask)))
  }

  // Stage 3: the message the dealer sends out.
  function DealerBroadcast<E>(s: Session<E>): (r: Result<Broadcast<E>, HandoffError>) {
    if !s.phase.Reconstructed? then Err(InvalidState)
    else Ok(Broadcast(s.header.executionId, s.header.from, s.header.to, s.header.dealer, s.phase.delta))
  }

  // Stage 4: every destination member adds the opened difference to its mask share.
  function DestinationApply<E>(F: Field<E>, s: Session<E>): (r: Result<Session<E>, HandoffError>) {
    if !s.phase.Reconstructed? then Err(InvalidState)
    else Ok(s.(phase := OutputReady(ApplyDifference(F, s.phase.delta, s.phase.dstMask))))
  }

  function Finalize<E>(s: Session<E>): (r: Result<seq<Share<E>>, HandoffError>) {
    if !s.phase.OutputReady? then Err(InvalidState) else Ok(s.phase.output)
  }

  // The stages in protocol order.
  function RunSession<E(==)>(F: Field<E>, h: Header<E>, x: seq<Share<E>>,
      mask: HandoffMask<E>): (r: Result<seq<Share<E>>, HandoffError>)
  {
    var s0 :- NewSession(h, x, mask);
    var s1 :- ComputeMaskedShares(F, s0);
    var s2 :- DealerReconstruct(F, s1);
    var _ :- DealerBroadcast(s2);
    var s3 :- DestinationApply(F, s2);
    Finalize(s3)
  }

  // What the dealer learns from honest values submitted by all source members.
  function DealerOutcome<E(==)>(F: Field<E>, h: Header<E>, values: seq<E>,
      required: nat): (r: Result<E, HandoffError>)
  {
    if |values| < required then Err(TooFewShares(|values|, required))
    else match FirstRepeat(h.senders, 0)
      case Some(n) => Err(DuplicateSender(n))
      case None => Lift(ReconstructFromParts(F, h.src.points, values, required))
  }

  lemma DealerOnHonest<E>(F: Field<E>, h: Header<E>, values: seq<E>, dstMask: seq<Share<E>>)
    requires |values| == |h.senders| == h.src.Size()
    ensures DealerReconstruct(F, Session(h, Collecting(SubmissionsOf(h, values), dstMask)))
            == match DealerOutcome(F, h, values, h.src.threshold + 1)
               case Err(e) => Err(e)
               case Ok(delta) => Ok(Session(h, Reconstructed(delta, dstMask)))
  {
    var subs := SubmissionsOf(h, values);
    HonestSubmissions(h, values, 0, {});
    if Validate(h, subs, 0, {}).Ok? {
      assert seq(|subs|, k requires 0 <= k < |subs| => h.src.points[subs[k].shareIndex]) == h.src.points;
      assert seq(|subs|, k requires 0 <= k < |subs| => subs[k].maskedShare) == values;
    }
  }

  // The session refines the one-shot handoff: for shares held at the source points it gives the
  // same output, and otherwise exactly the dealer's own refusals.
  lemma SessionRefinesHandoff<E>(F: Field<E>, h: Header<E>, x: seq<Share<E>>, mask: HandoffMask<E>)
    requires |x| == |h.src.points| ==> Points(x) == h.src.points
    ensures RunSession(F, h, x, mask)
            == if |x| != h.src.Size() || |mask.source| != h.src.Size() || |h.senders| != h.src.Size()
                then Err(CountMismatch)
               else if |mask.destination| != h.dst.Size() then Err(CountMismatch)
               else if !SamePoints(x, mask.source) then Err(Crypto(InconsistentShares))
               else if h.src.Size() < h.src.threshold + 1 then Err(TooFewShares(h.src.Size(), h.src.threshold + 1))
               else match FirstRepeat(h.senders, 0)
                 case Some(n) => Err(DuplicateSender(n))
                 case None => Lift(BasicHandoff(F, x, mask, h.src, h.dst))
  {
    var h' := h.(sourceDegree := mask.sourceDegree);
    if |x| == |mask.source| == |h.senders| == h.src.Size() && |mask.destination| == h.dst.Size()
        && SamePoints(x, mask.source) {
      var delta := Zip(SubOf(F), x, mask.source);
      assert Points(delta) == h.src.points by {
        assert forall i :: 0 <= i < |x| ==> Points(delta)[i] == Points(x)[i];
      }
      DealerOnHonest(F, h', Values(delta), mask.destination);
    }
  }

  // The message of a run.
  function SessionBroadcast<E(==)>(F: Field<E>, h: Header<E>, x: seq<Share<E>>,
      mask: HandoffMask<E>): (r: Result<Broadcast<E>, HandoffError>)
  {
    var s0 :- NewSession(h, x, mask);
    var s1 :- ComputeMaskedShares(F, s0);
    var s2 :- DealerReconstruct(F, s1);
    DealerBroadcast(s2)
  }

  // A run that goes through broadcasts, under its own ids, the opened difference of x and the source
  // mask, and that difference is what its output adds to the destination mask.
  lemma BroadcastOpens<E>(F: Field<E>, h: Header<E>, x: seq<Share<E>>, mask: HandoffMask<E>)
    requires (|x| == |h.src.points| ==> Points(x) == h.src.points) && RunSession(F, h, x, mask).Ok?
    ensures var b := SessionBroadcast(F, h, x, mask);
      && b.Ok? && b.value == Broadcast(h.executionId, h.from, h.to, h.dealer, b.value.delta)
      && ReconstructFromParts(F, h.src.points, Values(Zip(SubOf(F), x, mask.source)), h.src.threshold + 1)
          == Ok(b.value.delta)
      && RunSession(F, h, x, mask) == Ok(ApplyDifference(F, b.value.delta, mask.destination))
  {
    var h' := h.(sourceDegree := mask.sourceDegree);
    var delta := Zip(SubOf(F), x, mask.source);
    assert Points(delta) == h.src.points by {
      assert forall i :: 0 <= i < |x| ==> Points(delta)[i] == Points(x)[i];
    }
    DealerOnHonest(F, h', Values(delta), mask.destination);
  }

  datatype Stage = SourceStage | DealerStage | DestinationStage

  function Step<E(==)>(F: Field<E>, s: Session<E>, stage: Stage): (r: Result<Session<E>, HandoffError>)
    requires s.phase.Initialized? ==> |s.phase.x| <= |s.header.senders|
  {
    match stage
    case SourceStage => ComputeMaskedShares(F, s)
    case DealerStage => DealerReconstruct(F, s)
    case DestinationStage => DestinationApply(F, s)
  }

  function Steps<E(==)>(F: Field<E>, s: Session<E>, stages: seq<Stage>): (r: Result<Session<E>, HandoffError>)
    requires s.phase.Initialized? ==> |s.phase.x| <= |s.header.senders|
    decreases |stages|
  {
    if stages == [] then Ok(s)
    else
      var next :- Step(F, s, stages[0]);
      Steps(F, next, stages[1..])
  }

  const PROTOCOL: seq<Stage> := [SourceStage, DealerStage, DestinationStage]

  function Rank<E>(p: Phase<E>): (r: nat)
    ensures r <= 3
  {
    match p
    case Initialized(_, _) => 0
    case Collecting(_, _) => 1
    case Reconstructed(_, _) => 2
    case OutputReady(_) => 3
  }

  lemma {:induction false} StagesLeft<E>(F: Field<E>, s: Session<E>, stages: seq<Stage>)
    requires s.phase.Initialized? ==> |s.phase.x| <= |s.header.senders|
    requires Steps(F, s, stages).Ok? && Finalize(Steps(F, s, stages).value).Ok?
    ensures stages == PROTOCOL[Rank(s.phase)..]
    decreases |stages|
  {
    if stages != [] {
      var next := Step(F, s, stages[0]).value;
      assert Rank(next.phase) == Rank(s.phase) + 1 && stages[0] == PROTOCOL[Rank(s.phase)];
      StagesLeft(F, next, stages[1..]);
      assert PROTOCOL[Rank(s.phase)..] == [stages[0]] + PROTOCOL[Rank(next.phase)..];
    }
  }

  // A fresh session can be finalized only after exactly the three stages in protocol order.
  lemma StageOrder<E>(F: Field<E>, h: Header<E>, x: seq<Share<E>>, mask: HandoffMask<E>, stages: seq<Stage>)
    requires NewSession(h, x, mask).Ok?
    requires var r := Steps(F, NewSession(h, x, mask).value, stages); r.Ok? && Finalize(r.value).Ok?
    ensures stages == [SourceStage, DealerStage, DestinationStage]
  {
    StagesLeft(F, NewSession(h, x, mask).value, stages);
  }
}
