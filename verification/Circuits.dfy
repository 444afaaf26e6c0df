/** Circuits of local operations, handoffs and multiplications across any committees. */
module Circuits {
  import opened Wrappers
  import opened Fields
  import opened Shamir
  import opened Sharings
  import opened Handoff

  datatype Circuit<E> =
    | Input(index: nat)
    | Sum(left: Circuit<E>, right: Circuit<E>)
    | Scaled(factor: E, arg: Circuit<E>)
    | Moved(arg: Circuit<E>, src: Committee<E>, dst: Committee<E>, mask: HandoffMask<E>)
    | Product(left: Circuit<E>, right: Circuit<E>, src: Committee<E>, dst: Committee<E>, mask: HandoffMask<E>)

  function AddPointwise<E(==)>(F: Field<E>, a: seq<Share<E>>, b: seq<Share<E>>): (r: Result<seq<Share<E>>, MpcError>) {
    if |a| != |b| then Err(ShareCountMismatch)
    else if !SamePoints(a, b) then Err(InconsistentShares)
    else Ok(Zip(F.add, a, b))
  }

  function ScaleShares<E>(F: Field<E>, c: E, a: seq<Share<E>>): (r: seq<Share<E>>) {
    MapValues(v => F.mul(c, v), a)
  }

  // The protocol run: what the parties compute from the input sharings.
  function Run<E(==)>(F: Field<E>, c: Circuit<E>, inputs: seq<seq<Share<E>>>): (r: Result<seq<Share<E>>, MpcError>) {
    match c
    case Input(i) => if i < |inputs| then Ok(inputs[i]) else Err(ShareCountMismatch)
    case Sum(a, b) =>
      var x :- Run(F, a, inputs);
      var y :- Run(F, b, inputs);
      AddPointwise(F, x, y)
    case Scaled(k, a) =>
      var x :- Run(F, a, inputs);
      Ok(ScaleShares(F, k, x))
    case Moved(a, src, dst, mask) =>
      var x :- Run(F, a, inputs);
      BasicHandoff(F, x, mask, src, dst)
    case Product(a, b, src, dst, mask) =>
      var x :- Run(F, a, inputs);
      var y :- Run(F, b, inputs);
      MultiplyAndHandoff(F, x, y, mask, src, dst)
  }

  // The value the circuit stands for.
  function Meaning<E>(F: Field<E>, c: Circuit<E>, secrets: seq<E>): (v: E) {
    match c
    case Input(i) => if i < |secrets| then secrets[i] else F.zero
    case Sum(a, b) => F.add(Meaning(F, a, secrets), Meaning(F, b, secrets))
    case Scaled(k, a) => F.mul(k, Meaning(F, a, secrets))
    case Moved(a, _, _, _) => Meaning(F, a, secrets)
    case Product(a, b, _, _, _) => F.mul(Meaning(F, a, secrets), Meaning(F, b, secrets))
  }

  // Inputs sit where they are used, masks are good, and every multiplying committee has n > 2t.
  ghost predicate WellPlaced<E(!new)>(F: Field<E>, c: Circuit<E>, at: Committee<E>, inputs: seq<seq<Share<E>>>,
      secrets: seq<E>)
  {
    && ValidCommittee(F, at)
    && match c
       case Input(i) => i < |inputs| && i < |secrets| && IsSharing(F, at.points, at.threshold, secrets[i], inputs[i])
       case Sum(a, b) => WellPlaced(F, a, at, inputs, secrets) && WellPlaced(F, b, at, inputs, secrets)
       case Scaled(k, a) => F.elem(k) && WellPlaced(F, a, at, inputs, secrets)
       case Moved(a, src, dst, mask) =>
         && dst == at && ValidCommittee(F, src) && GoodMask(F, src, dst, mask)
         && WellPlaced(F, a, src, inputs, secrets)
       case Product(a, b, src, dst, mask) =>
         && dst == at && ValidCommittee(F, src) && GoodMask(F, src, dst, mask) && 2 * src.threshold < src.Size()
         && WellPlaced(F, a, src, inputs, secrets) && WellPlaced(F, b, src, inputs, secrets)
  }

  lemma SumStep<E(!new)>(F: Field<E>, at: Committee<E>, u: E, v: E, x: seq<Share<E>>, y: seq<Share<E>>)
    requires Laws(F) && ValidCommittee(F, at)
    requires IsSharing(F, at.points, at.threshold, u, x) && IsSharing(F, at.points, at.threshold, v, y)
    ensures AddPointwise(F, x, y).Ok?
    ensures IsSharing(F, at.points, at.threshold, F.add(u, v), AddPointwise(F, x, y).value)
  {
    SharingShape(F, at.points, at.threshold, u, x);
    SharingShape(F, at.points, at.threshold, v, y);
    SharingAdd(F, at.points, at.threshold, u, v, x, y, Zip(F.add, x, y));
  }

  lemma ScaleStep<E(!new)>(F: Field<E>, at: Committee<E>, k: E, v: E, x: seq<Share<E>>)
    requires Laws(F) && ValidCommittee(F, at) && F.elem(k)
    requires IsSharing(F, at.points, at.threshold, v, x)
    ensures IsSharing(F, at.points, at.threshold, F.mul(k, v), ScaleShares(F, k, x))
  {
    SharingShape(F, at.points, at.threshold, v, x);
    SharingScale(F, at.points, at.threshold, k, v, x, ScaleShares(F, k, x));
  }

  // Every well-placed circuit, over any sequence of committees, runs without error and ends in a
  // sharing of its meaning at the threshold degree of its last committee.
  lemma {:induction false} CircuitTheorem<E(!new)>(F: Field<E>, c: Circuit<E>, at: Committee<E>,
      inputs: seq<seq<Share<E>>>, secrets: seq<E>)
    requires Laws(F) && WellPlaced(F, c, at, inputs, secrets)
    ensures var r := Run(F, c, inputs);
      r.Ok? && IsSharing(F, at.points, at.threshold, Meaning(F, c, secrets), r.value)
  {
    match c
    case Input(_) =>
    case Sum(a, b) =>
      CircuitTheorem(F, a, at, inputs, secrets);
      CircuitTheorem(F, b, at, inputs, secrets);
      SumStep(F, at, Meaning(F, a, secrets), Meaning(F, b, secrets), Run(F, a, inputs).value, Run(F, b, inputs).value);
    case Scaled(k, a) =>
      CircuitTheorem(F, a, at, inputs, secrets);
      ScaleStep(F, at, k, Meaning(F, a, secrets), Run(F, a, inputs).value);
    case Moved(a, src, dst, mask) =>
      CircuitTheorem(F, a, src, inputs, secrets);
      HandoffMoves(F, Run(F, a, inputs).value, Meaning(F, a, secrets), mask, src, dst);
    case Product(a, b, src, dst, mask) =>
      CircuitTheorem(F, a, src, inputs, secrets);
      CircuitTheorem(F, b, src, inputs, secrets);
      MultiplyMoves(F, Run(F, a, inputs).value, Run(F, b, inputs).value, Meaning(F, a, secrets), Meaning(F, b, secrets),
          mask, src, dst);
  }
}
