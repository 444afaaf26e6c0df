/** Authenticated sharings: a value sharing together with a sharing of its MAC tag. */
module Authentication {
  import opened Wrappers
  import opened Fields
  import opened Shamir
  import opened Sharings
  import opened Handoff
  import opened Circuits

  datatype AuthSharing<E> = AuthSharing(value: seq<Share<E>>, mac: seq<Share<E>>)

  function AuthAdd<E(==)>(F: Field<E>, a: AuthSharing<E>, b: AuthSharing<E>): (r: Result<AuthSharing<E>, MpcError>) {
    if |a.value| != |b.value| || |a.mac| != |b.mac| then Err(ShareCountMismatch)
    else
      var value :- AddPointwise(F, a.value, b.value);
      var mac :- AddPointwise(F, a.mac, b.mac);
      Ok(AuthSharing(value, mac))
  }

  // Two authenticated values are added exactly when their values and their tags are of one length at
  // the same points; then share by share.
  lemma AuthAddExactly<E>(F: Field<E>, a: AuthSharing<E>, b: AuthSharing<E>)
    ensures var lengths := |a.value| == |b.value| && |a.mac| == |b.mac|;
      && (!lengths ==> AuthAdd(F, a, b) == Err(ShareCountMismatch))
      && (lengths && !(SamePoints(a.value, b.value) && SamePoints(a.mac, b.mac)) ==>
          AuthAdd(F, a, b) == Err(InconsistentShares))
      && (lengths && SamePoints(a.value, b.value) && SamePoints(a.mac, b.mac) ==>
          AuthAdd(F, a, b) == Ok(AuthSharing(Zip(F.add, a.value, b.value), Zip(F.add, a.mac, b.mac))))
  {
  }

  function AuthScale<E>(F: Field<E>, c: E, a: AuthSharing<E>): (r: AuthSharing<E>) {
    AuthSharing(ScaleShares(F, c, a.value), ScaleShares(F, c, a.mac))
  }

  function AuthHandoff<E(==)>(F: Field<E>, x: AuthSharing<E>, maskValue: HandoffMask<E>, maskMac: HandoffMask<E>,
      src: Committee<E>, dst: Committee<E>)
    : (r: Result<AuthSharing<E>, MpcError>)
  {
    var value :- BasicHandoff(F, x.value, maskValue, src, dst);
    var mac :- BasicHandoff(F, x.mac, maskMac, src, dst);
    Ok(AuthSharing(value, mac))
  }

  function AuthMultiply<E(==)>(F: Field<E>, x: AuthSharing<E>, y: seq<Share<E>>, maskValue: HandoffMask<E>,
      maskMac: HandoffMask<E>, src: Committee<E>, dst: Committee<E>)
    : (r: Result<AuthSharing<E>, MpcError>)
  {
    var value :- MultiplyAndHandoff(F, x.value, y, maskValue, src, dst);
    var mac :- MultiplyAndHandoff(F, x.mac, y, maskMac, src, dst);
    Ok(AuthSharing(value, mac))
  }

  // The tag is alpha times the value, both at the committee's threshold degree.
  ghost predicate Authenticates<E(!new)>(F: Field<E>, at: Committee<E>, alpha: E, v: E, a: AuthSharing<E>) {
    && IsSharing(F, at.points, at.threshold, v, a.value)
    && IsSharing(F, at.points, at.threshold, F.mul(alpha, v), a.mac)
  }

  datatype AuthCircuit<E> =
    | AuthInput(index: nat)
    | AuthSum(left: AuthCircuit<E>, right: AuthCircuit<E>)
    | AuthScaled(factor: E, arg: AuthCircuit<E>)
    | AuthMoved(arg: AuthCircuit<E>, src: Committee<E>, dst: Committee<E>, maskValue: HandoffMask<E>,
        maskMac: HandoffMask<E>)
    | AuthProduct(left: AuthCircuit<E>, factorShares: Circuit<E>, src: Committee<E>, dst: Committee<E>,
        maskValue: HandoffMask<E>, maskMac: HandoffMask<E>)

  // Authenticated inputs come from `auth`, the plain factors of products from `plain`.
  function RunAuth<E(==)>(F: Field<E>, c: AuthCircuit<E>, auth: seq<AuthSharing<E>>, plain: seq<seq<Share<E>>>)
    : (r: Result<AuthSharing<E>, MpcError>)
  {
    match c
    case AuthInput(i) => if i < |auth| then Ok(auth[i]) else Err(ShareCountMismatch)
    case AuthSum(a, b) =>
      var x :- RunAuth(F, a, auth, plain);
      var y :- RunAuth(F, b, auth, plain);
      AuthAdd(F, x, y)
    case AuthScaled(k, a) =>
      var x :- RunAuth(F, a, auth, plain);
      Ok(AuthScale(F, k, x))
    case AuthMoved(a, src, dst, mv, mm) =>
      var x :- RunAuth(F, a, auth, plain);
      AuthHandoff(F, x, mv, mm, src, dst)
    case AuthProduct(a, b, src, dst, mv, mm) =>
      var x :- RunAuth(F, a, auth, plain);
      var y :- Run(F, b, plain);
      AuthMultiply(F, x, y, mv, mm, src, dst)
  }

  function AuthMeaning<E>(F: Field<E>, c: AuthCircuit<E>, authSecrets: seq<E>, plainSecrets: seq<E>): (v: E) {
    match c
    case AuthInput(i) => if i < |authSecrets| then authSecrets[i] else F.zero
    case AuthSum(a, b) =>
      F.add(AuthMeaning(F, a, authSecrets, plainSecrets), AuthMeaning(F, b, authSecrets, plainSecrets))
    case AuthScaled(k, a) => F.mul(k, AuthMeaning(F, a, authSecrets, plainSecrets))
    case AuthMoved(a, _, _, _, _) => AuthMeaning(F, a, authSecrets, plainSecrets)
    case AuthProduct(a, b, _, _, _, _) =>
      F.mul(AuthMeaning(F, a, authSecrets, plainSecrets), Meaning(F, b, plainSecrets))
  }

  ghost predicate AuthPlaced<E(!new)>(F: Field<E>, c: AuthCircuit<E>, at: Committee<E>, alpha: E,
      auth: seq<AuthSharing<E>>, authSecrets: seq<E>, plain: seq<seq<Share<E>>>, plainSecrets: seq<E>)
  {
    && ValidCommittee(F, at) && F.elem(alpha)
    && match c
       case AuthInput(i) => i < |auth| && i < |authSecrets| && Authenticates(F, at, alpha, authSecrets[i], auth[i])
       case AuthSum(a, b) =>
         && AuthPlaced(F, a, at, alpha, auth, authSecrets, plain, plainSecrets)
         && AuthPlaced(F, b, at, alpha, auth, authSecrets, plain, plainSecrets)
       case AuthScaled(k, a) => F.elem(k) && AuthPlaced(F, a, at, alpha, auth, authSecrets, plain, plainSecrets)
       case AuthMoved(a, src, dst, mv, mm) =>
         && dst == at && ValidCommittee(F, src) && GoodMask(F, src, dst, mv) && GoodMask(F, src, dst, mm)
         && AuthPlaced(F, a, src, alpha, auth, authSecrets, plain, plainSecrets)
       case AuthProduct(a, b, src, dst, mv, mm) =>
         && dst == at && ValidCommittee(F, src) && GoodMask(F, src, dst, mv) && GoodMask(F, src, dst, mm)
         && 2 * src.threshold < src.Size()
         && AuthPlaced(F, a, src, alpha, auth, authSecrets, plain, plainSecrets)
         && WellPlaced(F, b, src, plain, plainSecrets)
  }

  lemma AuthSumStep<E(!new)>(F: Field<E>, at: Committee<E>, alpha: E, u: E, v: E, x: AuthSharing<E>, y: AuthSharing<E>)
    requires Laws(F) && ValidCommittee(F, at) && F.elem(alpha)
    requires Authenticates(F, at, alpha, u, x) && Authenticates(F, at, alpha, v, y)
    ensures AuthAdd(F, x, y).Ok? && Authenticates(F, at, alpha, F.add(u, v), AuthAdd(F, x, y).value)
  {
    SharingShape(F, at.points, at.threshold, u, x.value);
    SharingShape(F, at.points, at.threshold, v, y.value);
    SumStep(F, at, u, v, x.value, y.value);
    SumStep(F, at, F.mul(alpha, u), F.mul(alpha, v), x.mac, y.mac);
    Distrib(F, alpha, u, v);
  }

  lemma AuthScaleStep<E(!new)>(F: Field<E>, at: Committee<E>, alpha: E, k: E, v: E, x: AuthSharing<E>)
    requires Laws(F) && ValidCommittee(F, at) && F.elem(alpha) && F.elem(k)
    requires Authenticates(F, at, alpha, v, x)
    ensures Authenticates(F, at, alpha, F.mul(k, v), AuthScale(F, k, x))
  {
    SharingShape(F, at.points, at.threshold, v, x.value);
    ScaleStep(F, at, k, v, x.value);
    ScaleStep(F, at, k, F.mul(alpha, v), x.mac);
    Assoc(F, k, alpha, v);
    Comm(F, k, alpha);
    Assoc(F, alpha, k, v);
  }

  lemma AuthProductStep<E(!new)>(F: Field<E>, src: Committee<E>, dst: Committee<E>, alpha: E, u: E, v: E,
      x: AuthSharing<E>, y: seq<Share<E>>, mv: HandoffMask<E>, mm: HandoffMask<E>)
    requires Laws(F) && ValidCommittee(F, src) && ValidCommittee(F, dst) && F.elem(alpha)
    requires GoodMask(F, src, dst, mv) && GoodMask(F, src, dst, mm) && 2 * src.threshold < src.Size()
    requires Authenticates(F, src, alpha, u, x) && IsSharing(F, src.points, src.threshold, v, y)
    ensures AuthMultiply(F, x, y, mv, mm, src, dst).Ok?
    ensures Authenticates(F, dst, alpha, F.mul(u, v), AuthMultiply(F, x, y, mv, mm, src, dst).value)
  {
    SharingShape(F, src.points, src.threshold, u, x.value);
    SharingShape(F, src.points, src.threshold, v, y);
    MultiplyMoves(F, x.value, y, u, v, mv, src, dst);
    MultiplyMoves(F, x.mac, y, F.mul(alpha, u), v, mm, src, dst);
    Assoc(F, alpha, u, v);
  }

  // Over every circuit the tag sharing stays alpha times the value sharing.
  lemma {:induction false} AuthCircuitTheorem<E(!new)>(F: Field<E>, c: AuthCircuit<E>, at: Committee<E>, alpha: E,
      auth: seq<AuthSharing<E>>, authSecrets: seq<E>, plain: seq<seq<Share<E>>>, plainSecrets: seq<E>)
    requires Laws(F) && AuthPlaced(F, c, at, alpha, auth, authSecrets, plain, plainSecrets)
    ensures var r := RunAuth(F, c, auth, plain);
      r.Ok? && Authenticates(F, at, alpha, AuthMeaning(F, c, authSecrets, plainSecrets), r.value)
  {
    match c
    case AuthInput(_) =>
    case AuthSum(a, b) =>
      AuthCircuitTheorem(F, a, at, alpha, auth, authSecrets, plain, plainSecrets);
      AuthCircuitTheorem(F, b, at, alpha, auth, authSecrets, plain, plainSecrets);
      AuthSumStep(F, at, alpha, AuthMeaning(F, a, authSecrets, plainSecrets),
          AuthMeaning(F, b, authSecrets, plainSecrets),
                  RunAuth(F, a, auth, plain).value, RunAuth(F, b, auth, plain).value);
    case AuthScaled(k, a) =>
      AuthCircuitTheorem(F, a, at, alpha, auth, authSecrets, plain, plainSecrets);
      AuthScaleStep(F, at, alpha, k, AuthMeaning(F, a, authSecrets, plainSecrets), RunAuth(F, a, auth, plain).value);
    case AuthMoved(a, src, dst, mv, mm) =>
      AuthCircuitTheorem(F, a, src, alpha, auth, authSecrets, plain, plainSecrets);
      var v, x := AuthMeaning(F, a, authSecrets, plainSecrets), RunAuth(F, a, auth, plain).value;
      HandoffMoves(F, x.value, v, mv, src, dst);
      HandoffMoves(F, x.mac, F.mul(alpha, v), mm, src, dst);
    case AuthProduct(a, b, src, dst, mv, mm) =>
      AuthCircuitTheorem(F, a, src, alpha, auth, authSecrets, plain, plainSecrets);
      CircuitTheorem(F, b, src, plain, plainSecrets);
      AuthProductStep(F, src, dst, alpha, AuthMeaning(F, a, authSecrets, plainSecrets), Meaning(F, b, plainSecrets),
                      RunAuth(F, a, auth, plain).value, Run(F, b, plain).value, mv, mm);
  }

  // The delayed check: open (z - tag) * r at the third committee, where z is the recomputed tag.
  function VerifyMac<E(==)>(F: Field<E>, value: seq<Share<E>>, mac: seq<Share<E>>, alpha: seq<Share<E>>,
                            maskMul: HandoffMask<E>, maskTag: HandoffMask<E>, rCheck: seq<Share<E>>,
                            comm2: Committee<E>, comm3: Committee<E>): (r: Result<bool, MpcError>)
  {
    var z :- MultiplyAndHandoff(F, value, alpha, maskMul, comm2, comm3);
    var tag :- BasicHandoff(F, mac, maskTag, comm2, comm3);
    var n := Min(Min(|z|, |tag|), |rCheck|);
    if !SamePoints(z[..n], tag[..n]) || !SamePoints(z[..n], rCheck[..n]) then Err(InconsistentShares)
    else
      var v :- Reconstruct(F, Zip(F.mul, Zip(SubOf(F), z, tag), rCheck), 2 * comm3.threshold + 1);
      Ok(v == F.zero)
  }

  lemma CheckShares<E(!new)>(F: Field<E>, c: Committee<E>, z: seq<Share<E>>, tag: seq<Share<E>>, rCheck: seq<Share<E>>,
      u: E, t: E, r: E)
    requires Laws(F) && ValidCommittee(F, c) && 2 * c.threshold < c.Size()
    requires IsSharing(F, c.points, c.threshold, u, z) && IsSharing(F, c.points, c.threshold, t, tag)
    requires IsSharing(F, c.points, c.threshold, r, rCheck)
    ensures |z| == |tag| == |rCheck| && SamePoints(z, tag) && SamePoints(z, rCheck)
    ensures Reconstruct(F, Zip(F.mul, Zip(SubOf(F), z, tag), rCheck), 2 * c.threshold + 1) == Ok(F.mul(Sub(F, u, t), r))
  {
    SharingShape(F, c.points, c.threshold, u, z);
    SharingShape(F, c.points, c.threshold, t, tag);
    SharingShape(F, c.points, c.threshold, r, rCheck);
    var d := Zip(SubOf(F), z, tag);
    SharingSub(F, c.points, c.threshold, u, t, z, tag, d);
    SharingMul(F, c.points, c.threshold, c.threshold, Sub(F, u, t), r, d, rCheck, Zip(F.mul, d, rCheck));
    OpenSharing(F, c.points, 2 * c.threshold, F.mul(Sub(F, u, t), r), Zip(F.mul, d, rCheck), 2 * c.threshold + 1);
  }

  // The check accepts exactly when (alpha * x - tag) * r_check is zero; so with a nonzero mask,
  // exactly when the claimed tag is right.
  lemma VerifyMacCorrect<E(!new)>(F: Field<E>, value: seq<Share<E>>, mac: seq<Share<E>>, alpha: seq<Share<E>>,
                                  maskMul: HandoffMask<E>, maskTag: HandoffMask<E>, rCheck: seq<Share<E>>,
                                  comm2: Committee<E>, comm3: Committee<E>, x: E, tag: E, a: E, r: E)
    requires Laws(F) && ValidCommittee(F, comm2) && ValidCommittee(F, comm3)
    requires 2 * comm2.threshold < comm2.Size() && 2 * comm3.threshold < comm3.Size()
    requires GoodMask(F, comm2, comm3, maskMul) && GoodMask(F, comm2, comm3, maskTag)
    requires IsSharing(F, comm2.points, comm2.threshold, x, value)
        && IsSharing(F, comm2.points, comm2.threshold, tag, mac)
    requires IsSharing(F, comm2.points, comm2.threshold, a, alpha)
        && IsSharing(F, comm3.points, comm3.threshold, r, rCheck)
    ensures VerifyMac(F, value, mac, alpha, maskMul, maskTag, rCheck, comm2, comm3)
            == Ok(F.mul(Sub(F, F.mul(x, a), tag), r) == F.zero)
    ensures r != F.zero ==>
      VerifyMac(F, value, mac, alpha, maskMul, maskTag, rCheck, comm2, comm3) == Ok(tag == F.mul(a, x))
  {
    MultiplyMoves(F, value, alpha, x, a, maskMul, comm2, comm3);
    HandoffMoves(F, mac, tag, maskTag, comm2, comm3);
    var z := MultiplyAndHandoff(F, value, alpha, maskMul, comm2, comm3).value;
    var t := BasicHandoff(F, mac, maskTag, comm2, comm3).value;
    CheckShares(F, comm3, z, t, rCheck, F.mul(x, a), tag, r);
    assert z[..|z|] == z && t[..|z|] == t && rCheck[..|z|] == rCheck;
    SharingElems(F, comm2, x, value, a, alpha);
    SharingShape(F, comm2.points, comm2.threshold, tag, mac);
    SharingShape(F, comm3.points, comm3.threshold, r, rCheck);
    SubAdd(F, F.mul(x, a), tag);
    NoZeroDivisors(F, Sub(F, F.mul(x, a), tag), r);
    SubZero(F, F.mul(x, a), tag);
    Comm(F, x, a);
  }

  lemma SharingElems<E(!new)>(F: Field<E>, c: Committee<E>, x: E, xs: seq<Share<E>>, y: E, ys: seq<Share<E>>)
    requires Laws(F) && IsSharing(F, c.points, c.threshold, x, xs) && IsSharing(F, c.points, c.threshold, y, ys)
    ensures F.elem(x) && F.elem(y) && F.elem(F.mul(x, y))
  {
    SharingShape(F, c.points, c.threshold, x, xs);
    SharingShape(F, c.points, c.threshold, y, ys);
  }
}
