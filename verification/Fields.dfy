/** The share-field abstraction and the equational kit every sharing proof uses.
    A field is a record of operations; `Laws` says when the record is a field. */
module Fields {

  datatype Field<!E> = Field(
    elem: E -> bool,
    zero: E,
    one: E,
    add: (E, E) -> E,
    neg: E -> E,
    mul: (E, E) -> E,
    inv: E -> E,
    ofNat: nat -> E)

  function Sub<E>(F: Field<E>, a: E, b: E): (r: E) {
    F.add(a, F.neg(b))
  }

  function Div<E>(F: Field<E>, a: E, b: E): (r: E) {
    F.mul(a, F.inv(b))
  }

  ghost predicate Elems<E>(F: Field<E>, s: seq<E>) {
    forall i :: 0 <= i < |s| ==> F.elem(s[i])
  }

  // `Use2` and `Use3` are always true. They are the only triggers of the laws that would
  // otherwise rewrite terms endlessly, so a law is used exactly where a lemma below asks for it.
  ghost predicate Use2<E>(a: E, b: E) { true }
  ghost predicate Use3<E>(a: E, b: E, c: E) { true }

  ghost predicate Closed<E(!new)>(F: Field<E>) {
    && F.elem(F.zero) && F.elem(F.one) && F.zero != F.one
    && (forall a, b {:trigger F.add(a, b)} :: F.elem(a) && F.elem(b) ==> F.elem(F.add(a, b)))
    && (forall a, b {:trigger F.mul(a, b)} :: F.elem(a) && F.elem(b) ==> F.elem(F.mul(a, b)))
    && (forall a {:trigger F.neg(a)} :: F.elem(a) ==> F.elem(F.neg(a)))
    && (forall a {:trigger F.inv(a)} :: F.elem(a) && a != F.zero ==> F.elem(F.inv(a)))
    && (forall n: nat {:trigger F.ofNat(n)} :: F.elem(F.ofNat(n)))
  }

  ghost predicate Commutes<E(!new)>(F: Field<E>) {
    forall a, b {:trigger Use2(a, b)} :: Use2(a, b) && F.elem(a) && F.elem(b) ==>
      F.add(a, b) == F.add(b, a) && F.mul(a, b) == F.mul(b, a)
  }

  ghost predicate Associates<E(!new)>(F: Field<E>) {
    forall a, b, c {:trigger Use3(a, b, c)} :: Use3(a, b, c) && F.elem(a) && F.elem(b) && F.elem(c) ==>
      && F.add(F.add(a, b), c) == F.add(a, F.add(b, c))
      && F.mul(F.mul(a, b), c) == F.mul(a, F.mul(b, c))
      && F.mul(a, F.add(b, c)) == F.add(F.mul(a, b), F.mul(a, c))
  }

  ghost predicate HasUnits<E(!new)>(F: Field<E>) {
    && (forall a {:trigger F.add(a, F.zero)} :: F.elem(a) ==> F.add(a, F.zero) == a)
    && (forall a {:trigger F.mul(a, F.one)} :: F.elem(a) ==> F.mul(a, F.one) == a)
    && (forall a {:trigger F.neg(a)} :: F.elem(a) ==> F.add(a, F.neg(a)) == F.zero)
    && (forall a {:trigger F.inv(a)} :: F.elem(a) && a != F.zero ==> F.mul(a, F.inv(a)) == F.one)
  }

  ghost predicate Laws<E(!new)>(F: Field<E>) {
    Closed(F) && Commutes(F) && Associates(F) && HasUnits(F)
  }

  lemma Comm<E(!new)>(F: Field<E>, a: E, b: E)
    requires Laws(F) && F.elem(a) && F.elem(b)
    ensures F.add(a, b) == F.add(b, a)
    ensures F.mul(a, b) == F.mul(b, a)
  {
    assert Use2(a, b);
  }

  lemma Assoc<E(!new)>(F: Field<E>, a: E, b: E, c: E)
    requires Laws(F) && F.elem(a) && F.elem(b) && F.elem(c)
    ensures F.add(F.add(a, b), c) == F.add(a, F.add(b, c))
    ensures F.mul(F.mul(a, b), c) == F.mul(a, F.mul(b, c))
  {
    assert Use3(a, b, c);
  }

  lemma Distrib<E(!new)>(F: Field<E>, a: E, b: E, c: E)
    requires Laws(F) && F.elem(a) && F.elem(b) && F.elem(c)
    ensures F.mul(a, F.add(b, c)) == F.add(F.mul(a, b), F.mul(a, c))
    ensures F.mul(F.add(b, c), a) == F.add(F.mul(b, a), F.mul(c, a))
  {
    assert Use3(a, b, c);
    Comm(F, a, F.add(b, c));
    Comm(F, a, b);
    Comm(F, a, c);
  }

  lemma Units<E(!new)>(F: Field<E>, a: E)
    requires Laws(F) && F.elem(a)
    ensures F.add(a, F.zero) == a && F.add(F.zero, a) == a
    ensures F.mul(a, F.one) == a && F.mul(F.one, a) == a
    ensures F.add(a, F.neg(a)) == F.zero && F.add(F.neg(a), a) == F.zero
  {
    Comm(F, a, F.zero);
    Comm(F, a, F.one);
    Comm(F, a, F.neg(a));
  }

  // a + x == a + y only when x == y.
  lemma Cancel<E(!new)>(F: Field<E>, a: E, x: E, y: E)
    requires Laws(F) && F.elem(a) && F.elem(x) && F.elem(y)
    requires F.add(a, x) == F.add(a, y)
    ensures x == y
  {
    Assoc(F, F.neg(a), a, x);
    Assoc(F, F.neg(a), a, y);
    Units(F, a);
    Units(F, x);
    Units(F, y);
  }

  lemma MulZero<E(!new)>(F: Field<E>, a: E)
    requires Laws(F) && F.elem(a)
    ensures F.mul(a, F.zero) == F.zero && F.mul(F.zero, a) == F.zero
  {
    var z := F.mul(a, F.zero);
    Distrib(F, a, F.zero, F.zero);
    assert F.add(F.zero, F.zero) == F.zero;
    assert F.add(z, z) == F.add(z, F.zero);
    Cancel(F, z, z, F.zero);
    Comm(F, a, F.zero);
  }

  lemma NegUnique<E(!new)>(F: Field<E>, a: E, b: E)
    requires Laws(F) && F.elem(a) && F.elem(b) && F.add(a, b) == F.zero
    ensures b == F.neg(a)
  {
    Cancel(F, a, b, F.neg(a));
  }

  lemma NegMul<E(!new)>(F: Field<E>, a: E, b: E)
    requires Laws(F) && F.elem(a) && F.elem(b)
    ensures F.mul(F.neg(a), b) == F.neg(F.mul(a, b))
    ensures F.mul(a, F.neg(b)) == F.neg(F.mul(a, b))
    ensures F.neg(F.neg(a)) == a && F.neg(F.zero) == F.zero
  {
    Distrib(F, b, a, F.neg(a));
    MulZero(F, b);
    NegUnique(F, F.mul(a, b), F.mul(F.neg(a), b));
    Distrib(F, a, b, F.neg(b));
    MulZero(F, a);
    NegUnique(F, F.mul(a, b), F.mul(a, F.neg(b)));
    Units(F, a);
    NegUnique(F, F.neg(a), a);
    NegUnique(F, F.zero, F.zero);
  }

  // (a + b) + (c + d) == (a + c) + (b + d)
  lemma Interchange<E(!new)>(F: Field<E>, a: E, b: E, c: E, d: E)
    requires Laws(F) && F.elem(a) && F.elem(b) && F.elem(c) && F.elem(d)
    ensures F.add(F.add(a, b), F.add(c, d)) == F.add(F.add(a, c), F.add(b, d))
  {
    Assoc(F, a, b, F.add(c, d));
    Assoc(F, b, c, d);
    Comm(F, b, c);
    Assoc(F, c, b, d);
    Assoc(F, a, c, F.add(b, d));
  }

  // (a - b) + b == a and (a + b) - b == a
  lemma SubAdd<E(!new)>(F: Field<E>, a: E, b: E)
    requires Laws(F) && F.elem(a) && F.elem(b)
    ensures F.elem(Sub(F, a, b))
    ensures F.add(Sub(F, a, b), b) == a && F.add(b, Sub(F, a, b)) == a
    ensures Sub(F, F.add(a, b), b) == a
  {
    Assoc(F, a, F.neg(b), b);
    Units(F, b);
    Units(F, a);
    Comm(F, b, Sub(F, a, b));
    Assoc(F, a, b, F.neg(b));
  }

  lemma SubZero<E(!new)>(F: Field<E>, a: E, b: E)
    requires Laws(F) && F.elem(a) && F.elem(b)
    ensures Sub(F, a, b) == F.zero <==> a == b
  {
    SubAdd(F, a, b);
    Units(F, b);
  }

  lemma NoZeroDivisors<E(!new)>(F: Field<E>, a: E, b: E)
    requires Laws(F) && F.elem(a) && F.elem(b)
    ensures F.mul(a, b) == F.zero <==> a == F.zero || b == F.zero
  {
    MulZero(F, a);
    MulZero(F, b);
    if F.mul(a, b) == F.zero && a != F.zero {
      var i := F.inv(a);
      Assoc(F, i, a, b);
      Comm(F, a, i);
      Units(F, b);
      MulZero(F, i);
    }
  }

  // a * (b - c) == a * b - a * c
  lemma DistribSub<E(!new)>(F: Field<E>, a: E, b: E, c: E)
    requires Laws(F) && F.elem(a) && F.elem(b) && F.elem(c)
    ensures F.mul(a, Sub(F, b, c)) == Sub(F, F.mul(a, b), F.mul(a, c))
    ensures F.mul(Sub(F, b, c), a) == Sub(F, F.mul(b, a), F.mul(c, a))
  {
    Distrib(F, a, b, F.neg(c));
    NegMul(F, a, c);
    NegMul(F, c, a);
  }
}
