/** Polynomials over a share field, as coefficient lists with the constant term first. */
module Polynomials {
  import opened Sequences
  import opened Fields

  // Horner evaluation; coefficient 0 is added last.
  function Eval<E>(F: Field<E>, p: seq<E>, x: E): (r: E) {
    if p == [] then F.zero else F.add(F.mul(Eval(F, p[1..], x), x), p[0])
  }

  function PolyAdd<E>(F: Field<E>, p: seq<E>, q: seq<E>): (r: seq<E>)
    ensures |r| == if |p| >= |q| then |p| else |q|
  {
    if p == [] then q
    else if q == [] then p
    else [F.add(p[0], q[0])] + PolyAdd(F, p[1..], q[1..])
  }

  function PolyScale<E>(F: Field<E>, c: E, p: seq<E>): (r: seq<E>)
    ensures |r| == |p|
  {
    if p == [] then [] else [F.mul(c, p[0])] + PolyScale(F, c, p[1..])
  }

  function PolyMul<E>(F: Field<E>, p: seq<E>, q: seq<E>): (r: seq<E>)
    ensures p == [] ==> r == []
    ensures p != [] && q != [] ==> |r| == |p| + |q| - 1
  {
    if p == [] then []
    else if |p| == 1 then PolyScale(F, p[0], q)
    else PolyAdd(F, PolyScale(F, p[0], q), [F.zero] + PolyMul(F, p[1..], q))
  }

  // Quotient of p - p(c) by X - c.
  function Quotient<E>(F: Field<E>, p: seq<E>, c: E): (r: seq<E>)
    ensures |r| == if |p| <= 1 then 0 else |p| - 1
  {
    if |p| <= 1 then [] else [Eval(F, p[1..], c)] + Quotient(F, p[1..], c)
  }

  lemma {:induction false} EvalElem<E(!new)>(F: Field<E>, p: seq<E>, x: E)
    requires Laws(F) && Elems(F, p) && F.elem(x)
    ensures F.elem(Eval(F, p, x))
  {
    if p != [] {
      assert Elems(F, p[1..]);
      EvalElem(F, p[1..], x);
    }
  }

  // The constant coefficient is the value at zero.
  lemma EvalAtZero<E(!new)>(F: Field<E>, p: seq<E>)
    requires Laws(F) && Elems(F, p) && p != []
    ensures Eval(F, p, F.zero) == p[0]
  {
    assert Elems(F, p[1..]);
    EvalElem(F, p[1..], F.zero);
    MulZero(F, Eval(F, p[1..], F.zero));
    Units(F, p[0]);
  }

  lemma {:induction false} EvalAdd<E(!new)>(F: Field<E>, p: seq<E>, q: seq<E>, x: E)
    requires Laws(F) && Elems(F, p) && Elems(F, q) && F.elem(x)
    ensures Elems(F, PolyAdd(F, p, q))
    ensures Eval(F, PolyAdd(F, p, q), x) == F.add(Eval(F, p, x), Eval(F, q, x))
  {
    EvalElem(F, p, x);
    EvalElem(F, q, x);
    if p == [] {
      Units(F, Eval(F, q, x));
    } else if q == [] {
      Units(F, Eval(F, p, x));
    } else {
      var p', q' := p[1..], q[1..];
      assert Elems(F, p') && Elems(F, q');
      EvalAdd(F, p', q', x);
      assert PolyAdd(F, p, q)[1..] == PolyAdd(F, p', q');
      EvalElem(F, p', x);
      EvalElem(F, q', x);
      var u, v := Eval(F, p', x), Eval(F, q', x);
      Distrib(F, x, u, v);
      Interchange(F, F.mul(u, x), F.mul(v, x), p[0], q[0]);
    }
  }

  lemma {:induction false} EvalScale<E(!new)>(F: Field<E>, c: E, p: seq<E>, x: E)
    requires Laws(F) && F.elem(c) && Elems(F, p) && F.elem(x)
    ensures Elems(F, PolyScale(F, c, p))
    ensures Eval(F, PolyScale(F, c, p), x) == F.mul(c, Eval(F, p, x))
  {
    if p == [] {
      MulZero(F, c);
    } else {
      var p' := p[1..];
      assert Elems(F, p');
      EvalScale(F, c, p', x);
      assert PolyScale(F, c, p)[1..] == PolyScale(F, c, p');
      EvalElem(F, p', x);
      var u := Eval(F, p', x);
      Assoc(F, c, u, x);
      Distrib(F, c, F.mul(u, x), p[0]);
    }
  }

  lemma EvalShift<E(!new)>(F: Field<E>, p: seq<E>, x: E)
    requires Laws(F) && Elems(F, p) && F.elem(x)
    ensures Elems(F, [F.zero] + p)
    ensures Eval(F, [F.zero] + p, x) == F.mul(Eval(F, p, x), x)
  {
    assert ([F.zero] + p)[1..] == p;
    EvalElem(F, p, x);
  }

  lemma {:induction false} EvalMul<E(!new)>(F: Field<E>, p: seq<E>, q: seq<E>, x: E)
    requires Laws(F) && Elems(F, p) && Elems(F, q) && F.elem(x)
    ensures Elems(F, PolyMul(F, p, q))
    ensures Eval(F, PolyMul(F, p, q), x) == F.mul(Eval(F, p, x), Eval(F, q, x))
  {
    EvalElem(F, q, x);
    var v := Eval(F, q, x);
    if p == [] {
      MulZero(F, v);
    } else {
      var p' := p[1..];
      assert Elems(F, p');
      EvalElem(F, p', x);
      var u := Eval(F, p', x);
      EvalScale(F, p[0], q, x);
      if |p| == 1 {
        assert u == F.zero;
        MulZero(F, x);
        Units(F, p[0]);
      } else {
        var r := PolyMul(F, p', q);
        EvalMul(F, p', q, x);
        EvalShift(F, r, x);
        EvalAdd(F, PolyScale(F, p[0], q), [F.zero] + r, x);
        Assoc(F, u, v, x);
        Comm(F, v, x);
        Assoc(F, u, x, v);
        Distrib(F, v, F.mul(u, x), p[0]);
        Comm(F, F.mul(p[0], v), F.mul(F.mul(u, v), x));
      }
    }
  }

  // p(x) == p(c) + (x - c) * Quotient(p, c)(x)
  lemma {:induction false} FactorAt<E(!new)>(F: Field<E>, p: seq<E>, c: E, x: E)
    requires Laws(F) && Elems(F, p) && F.elem(c) && F.elem(x)
    ensures Elems(F, Quotient(F, p, c))
    ensures Eval(F, p, x) == F.add(Eval(F, p, c), F.mul(Sub(F, x, c), Eval(F, Quotient(F, p, c), x)))
  {
    SubAdd(F, x, c);
    var d := Sub(F, x, c);
    MulZero(F, d);
    if |p| <= 1 {
      EvalElem(F, p, c);
      Units(F, Eval(F, p, c));
      if |p| == 1 {
        assert p[1..] == [];
        MulZero(F, x);
        MulZero(F, c);
      }
    } else {
      var p' := p[1..];
      assert Elems(F, p');
      FactorAt(F, p', c, x);
      var q' := Quotient(F, p', c);
      assert Quotient(F, p, c)[1..] == q';
      EvalElem(F, p', c);
      EvalElem(F, q', x);
      FactorStep(F, Eval(F, p', c), Eval(F, q', x), c, d, p[0], x);
    }
  }

  lemma FactorStep<E(!new)>(F: Field<E>, u: E, w: E, c: E, d: E, k: E, x: E)
    requires Laws(F) && F.elem(u) && F.elem(w) && F.elem(c) && F.elem(d) && F.elem(k)
    requires x == F.add(d, c)
    ensures F.add(F.mul(F.add(u, F.mul(d, w)), x), k)
            == F.add(F.add(F.mul(u, c), k), F.mul(d, F.add(F.mul(w, x), u)))
  {
    var dw := F.mul(d, w);
    Distrib(F, x, u, dw);                          // (u + dw)x == ux + (dw)x
    Distrib(F, u, d, c);                           // ux == ud + uc
    Assoc(F, d, w, x);                             // (dw)x == d(wx)
    Distrib(F, d, F.mul(w, x), u);                 // d(wx + u) == d(wx) + du
    Comm(F, u, d);
    var ud, uc, dwx := F.mul(u, d), F.mul(u, c), F.mul(d, F.mul(w, x));
    // ((ud + uc) + dwx) + k == (uc + k) + (dwx + ud)
    Comm(F, ud, uc);
    Assoc(F, uc, ud, dwx);
    Comm(F, ud, dwx);
    var s := F.add(dwx, ud);
    Assoc(F, uc, s, k);
    Comm(F, s, k);
    Assoc(F, uc, k, s);
  }

  ghost predicate Roots<E(!new)>(F: Field<E>, p: seq<E>, xs: seq<E>) {
    forall i :: 0 <= i < |xs| ==> Eval(F, p, xs[i]) == F.zero
  }

  function PolySub<E>(F: Field<E>, p: seq<E>, q: seq<E>): (r: seq<E>)
    ensures |r| == if |p| >= |q| then |p| else |q|
  {
    PolyAdd(F, p, PolyScale(F, F.neg(F.one), q))
  }

  lemma EvalSub<E(!new)>(F: Field<E>, p: seq<E>, q: seq<E>, x: E)
    requires Laws(F) && Elems(F, p) && Elems(F, q) && F.elem(x)
    ensures Elems(F, PolySub(F, p, q))
    ensures Eval(F, PolySub(F, p, q), x) == Sub(F, Eval(F, p, x), Eval(F, q, x))
  {
    EvalElem(F, q, x);
    EvalScale(F, F.neg(F.one), q, x);
    EvalAdd(F, p, PolyScale(F, F.neg(F.one), q), x);
    NegMul(F, F.one, Eval(F, q, x));
    Units(F, Eval(F, q, x));
  }

  ghost predicate AllZero<E>(F: Field<E>, p: seq<E>) {
    forall i :: 0 <= i < |p| ==> p[i] == F.zero
  }

  lemma {:induction false} EvalAllZero<E(!new)>(F: Field<E>, p: seq<E>, x: E)
    requires Laws(F) && AllZero(F, p) && F.elem(x)
    ensures Eval(F, p, x) == F.zero
  {
    if p != [] {
      EvalAllZero(F, p[1..], x);
      MulZero(F, x);
    }
  }

  // Only constants have a zero quotient.
  lemma {:induction false} ZeroQuotient<E(!new)>(F: Field<E>, p: seq<E>, c: E)
    requires Laws(F) && Elems(F, p) && F.elem(c) && p != [] && AllZero(F, Quotient(F, p, c))
    ensures AllZero(F, p[1..])
  {
    if |p| > 1 {
      var p', q := p[1..], Quotient(F, p, c);
      assert Elems(F, p');
      assert q[1..] == Quotient(F, p', c);
      assert AllZero(F, q[1..]);
      ZeroQuotient(F, p', c);
      EvalAllZero(F, p'[1..], c);
      MulZero(F, c);
      Units(F, p'[0]);
      assert q[0] == p'[0];
      assert p' == [p'[0]] + p'[1..];
    }
  }

  lemma QuotientRoots<E(!new)>(F: Field<E>, p: seq<E>, c: E, xs: seq<E>)
    requires Laws(F) && Elems(F, p) && F.elem(c) && Elems(F, xs)
    requires Eval(F, p, c) == F.zero && Roots(F, p, xs) && c !in xs
    ensures Elems(F, Quotient(F, p, c)) && Roots(F, Quotient(F, p, c), xs)
  {
    var q := Quotient(F, p, c);
    FactorAt(F, p, c, c);
    forall i | 0 <= i < |xs| ensures Eval(F, q, xs[i]) == F.zero {
      FactorAt(F, p, c, xs[i]);
      SubAdd(F, xs[i], c);
      SubZero(F, xs[i], c);
      EvalElem(F, q, xs[i]);
      var d, v := Sub(F, xs[i], c), Eval(F, q, xs[i]);
      Units(F, F.mul(d, v));
      NoZeroDivisors(F, d, v);
    }
  }

  // A polynomial with as many distinct roots as coefficients is the zero polynomial.
  lemma {:induction false} ZeroPolynomial<E(!new)>(F: Field<E>, p: seq<E>, xs: seq<E>)
    requires Laws(F) && Elems(F, p) && Elems(F, xs)
    requires Distinct(xs) && |p| <= |xs| && Roots(F, p, xs)
    ensures AllZero(F, p)
    decreases |p|
  {
    if p != [] {
      var c, rest := xs[0], xs[1..];
      forall i | 0 <= i < |rest| ensures Eval(F, p, rest[i]) == F.zero && F.elem(rest[i]) && rest[i] != c {
        assert rest[i] == xs[i + 1];
      }
      QuotientRoots(F, p, c, rest);
      ZeroPolynomial(F, Quotient(F, p, c), rest);
      ZeroQuotient(F, p, c);
      EvalAllZero(F, p[1..], c);
      MulZero(F, c);
      Units(F, p[0]);
      assert p == [p[0]] + p[1..];
    }
  }

  // A polynomial with as many distinct roots as coefficients vanishes everywhere.
  lemma RootBound<E(!new)>(F: Field<E>, p: seq<E>, xs: seq<E>, x: E)
    requires Laws(F) && Elems(F, p) && Elems(F, xs) && F.elem(x)
    requires Distinct(xs) && |p| <= |xs| && Roots(F, p, xs)
    ensures Eval(F, p, x) == F.zero
  {
    ZeroPolynomial(F, p, xs);
    EvalAllZero(F, p, x);
  }

  // Two short polynomials that agree on enough distinct points agree everywhere.
  lemma Agreement<E(!new)>(F: Field<E>, p: seq<E>, q: seq<E>, xs: seq<E>, x: E)
    requires Laws(F) && Elems(F, p) && Elems(F, q) && Elems(F, xs) && F.elem(x)
    requires Distinct(xs) && |p| <= |xs| && |q| <= |xs|
    requires forall i :: 0 <= i < |xs| ==> Eval(F, p, xs[i]) == Eval(F, q, xs[i])
    ensures Eval(F, p, x) == Eval(F, q, x)
  {
    var d := PolySub(F, p, q);
    EvalSub(F, p, q, x);
    forall i | 0 <= i < |xs| ensures Eval(F, d, xs[i]) == F.zero {
      EvalSub(F, p, q, xs[i]);
      EvalElem(F, p, xs[i]);
      SubZero(F, Eval(F, p, xs[i]), Eval(F, q, xs[i]));
    }
    RootBound(F, d, xs, x);
    EvalElem(F, p, x);
    EvalElem(F, q, x);
    SubZero(F, Eval(F, p, x), Eval(F, q, x));
  }

  lemma {:induction false} SubCoefficients<E(!new)>(F: Field<E>, p: seq<E>, q: seq<E>)
    requires Laws(F) && Elems(F, p) && Elems(F, q) && |p| == |q| && AllZero(F, PolySub(F, p, q))
    ensures p == q
  {
    if p != [] {
      var m := F.neg(F.one);
      var d := PolySub(F, p, q);
      assert PolyScale(F, m, q)[1..] == PolyScale(F, m, q[1..]);
      assert d[1..] == PolySub(F, p[1..], q[1..]);
      assert AllZero(F, d[1..]);
      SubCoefficients(F, p[1..], q[1..]);
      NegMul(F, F.one, q[0]);
      Units(F, q[0]);
      assert d[0] == Sub(F, p[0], q[0]);
      SubZero(F, p[0], q[0]);
      assert p == [p[0]] + p[1..] && q == [q[0]] + q[1..];
    }
  }

  // Polynomials of one length that agree on that many distinct points are the same list.
  lemma SamePolynomial<E(!new)>(F: Field<E>, p: seq<E>, q: seq<E>, xs: seq<E>)
    requires Laws(F) && Elems(F, p) && Elems(F, q) && Elems(F, xs)
    requires Distinct(xs) && |p| == |q| <= |xs|
    requires forall i :: 0 <= i < |xs| ==> Eval(F, p, xs[i]) == Eval(F, q, xs[i])
    ensures p == q
  {
    var d := PolySub(F, p, q);
    EvalSub(F, p, q, F.zero);
    forall i | 0 <= i < |xs| ensures Eval(F, d, xs[i]) == F.zero {
      EvalSub(F, p, q, xs[i]);
      EvalElem(F, p, xs[i]);
      SubZero(F, Eval(F, p, xs[i]), Eval(F, q, xs[i]));
    }
    ZeroPolynomial(F, d, xs);
    SubCoefficients(F, p, q);
  }
}
