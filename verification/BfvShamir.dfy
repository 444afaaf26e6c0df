/** Per-modulus sharing of a ring key kept in residue form, and the precomputed recovery weights. */
module BfvShamir {
  import opened Sequences
  import opened Fields
  import opened Polynomials
  import opened Interpolation
  import opened PrimeField
  import opened Shamir
  import opened DynamicField
  import RingKeys

  // Moduli the implementation supports, each prime.
  ghost predicate PrimeModuli(moduli: seq<u64>) {
    forall j :: 0 <= j < |moduli| ==> Modulus(moduli[j]) && Prime(moduli[j] as int)
  }

  predicate Moduli(moduli: seq<u64>) {
    moduli != [] && forall j :: 0 <= j < |moduli| ==> Modulus(moduli[j])
  }

  function RingDim(coeffs: seq<u64>, moduli: seq<u64>): (n: nat)
    requires moduli != []
    ensures n * |moduli| <= |coeffs| < (n + 1) * |moduli|
  {
    |coeffs| / |moduli|
  }

  // Position idx of residue j in the flat coefficient list.
  function Slot(j: nat, idx: nat, dim: nat): (pos: nat) { j * dim + idx }

  lemma SlotBounds(j: nat, idx: nat, dim: nat, count: nat)
    requires j < count && idx < dim
    ensures Slot(j, idx, dim) < count * dim
    ensures Slot(j, idx, dim) / dim == j
    ensures Slot(j, idx + 1, dim) == Slot(j, idx, dim) + 1
  {
    MulMono(dim, j + 1, count);
    DivSlot(j, idx, dim);
  }

  lemma SlotEnd(j: nat, dim: nat)
    ensures Slot(j, dim, dim) == Slot(j + 1, 0, dim)
  {
  }

  lemma DivSlot(j: nat, idx: nat, dim: nat)
    requires idx < dim
    ensures (j * dim + idx) / dim == j
  {
    var v := j * dim + idx;
    assert v == dim * (v / dim) + v % dim;
    if v / dim > j { MulMono(dim, j + 1, v / dim); }
    if v / dim < j { MulMono(dim, v / dim + 1, j); }
  }

  // The key coefficient and the random words of one slot.
  function SlotCoeffs(q: u64, coeff: u64, words: seq<u64>): (p: seq<int>)
    requires Modulus(q)
    ensures |p| == |words| + 1
  {
    [coeff as int % q as int] + Coins(q, words)
  }

  // What party i holds at a slot of modulus q.
  function KeyShare(q: u64, coeff: u64, words: seq<u64>, i: nat): (v: int)
    requires Modulus(q)
  {
    Eval(Zq(q as int), SlotCoeffs(q, coeff, words), Zq(q as int).ofNat(i + 1))
  }

  // The sharing of one coefficient, as the list of values the parties get.
  method ShareSlot(q: u64, coeff: u64, points: seq<DynField>, words: seq<u64>) returns (values: seq<u64>)
    requires Modulus(q) && AllValid(points, q) && Ints(points) == EvaluationPoints(Zq(q as int), |points|)
    ensures |values| == |points|
    ensures forall i :: 0 <= i < |points| ==> values[i] as int == KeyShare(q, coeff, words, i)
  {
    var secret := DynField.New(coeff, q);
    var shares := SplitDyn(secret, |words|, points, words);
    values := seq(|shares|, i requires 0 <= i < |shares| => shares[i].value.value);
    forall i | 0 <= i < |points| ensures values[i] as int == KeyShare(q, coeff, words, i) {
      assert ValueInts(shares)[i] == values[i] as int;
      assert Ints(points)[i] == Zq(q as int).ofNat(i + 1);
    }
  }

  // Writes one slot of every party's copy.
  method WriteSlot(coeffs: seq<u64>, moduli: seq<u64>, dim: nat, words: seq<seq<u64>>, j: nat, pos: nat,
      values: seq<u64>, party: array2<u64>)
    requires Moduli(moduli) && |words| == |coeffs| == party.Length1 && j < |moduli|
    requires pos < |coeffs| && dim > 0 && pos / dim == j && |values| == party.Length0
    requires forall i :: 0 <= i < |values| ==> values[i] as int == KeyShare(moduli[j], coeffs[pos], words[pos], i)
    requires Shared(coeffs, moduli, dim, words, pos, party)
    modifies party
    ensures Shared(coeffs, moduli, dim, words, pos + 1, party)
  {
    hide KeyShare, Moduli;
    for i := 0 to |values|
      invariant forall k :: 0 <= k < i ==> party[k, pos] == values[k]
      invariant forall k, p ::
          0 <= k < party.Length0 && 0 <= p < |coeffs| && p != pos ==> party[k, p] == old(party[k, p])
    {
      party[i, pos] := values[i];
    }
    forall i, p | 0 <= i < party.Length0 && 0 <= p < |coeffs|
      ensures party[i, p] as int == SlotValue(coeffs, moduli, dim, words, pos + 1, i, p)
    {
      if p != pos {
        assert old(party[i, p]) as int == SlotValue(coeffs, moduli, dim, words, pos, i, p);
      }
    }
  }

  // All slots of one modulus.
  method ShareModulus(coeffs: seq<u64>, moduli: seq<u64>, dim: nat, words: seq<seq<u64>>, j: nat, party: array2<u64>)
    requires Moduli(moduli) && |words| == |coeffs| == party.Length1 && j < |moduli|
    requires party.Length0 < U64_LIMIT && |moduli| * dim <= |coeffs|
    requires Shared(coeffs, moduli, dim, words, Slot(j, 0, dim), party)
    modifies party
    ensures Shared(coeffs, moduli, dim, words, Slot(j + 1, 0, dim), party)
  {
    var points := EvalPoints(moduli[j], party.Length0);
    hide KeyShare, EvalPoints, EvaluationPoints, Ints, AllValid, Shared, Slot;
    for idx := 0 to dim
      invariant Shared(coeffs, moduli, dim, words, Slot(j, idx, dim), party)
    {
      SlotBounds(j, idx, dim, |moduli|);
      var pos := Slot(j, idx, dim);
      var values := ShareSlot(moduli[j], coeffs[pos], points, words[pos]);
      WriteSlot(coeffs, moduli, dim, words, j, pos, values, party);
    }
    SlotEnd(j, dim);
  }

  // Shares the key in place: every party starts from a copy of the key and every slot of every
  // modulus is overwritten by that party's share. words[pos] are the coins of slot pos.
  method ShareKeyPerModulus(coeffs: seq<u64>, moduli: seq<u64>, parties: nat, words: seq<seq<u64>>)
    returns (party: array2<u64>)
    requires Moduli(moduli) && parties < U64_LIMIT && |words| == |coeffs|
    ensures fresh(party) && party.Length0 == parties && party.Length1 == |coeffs|
    ensures Shared(coeffs, moduli, RingDim(coeffs, moduli), words, |moduli| * RingDim(coeffs, moduli), party)
  {
    var dim := RingDim(coeffs, moduli);
    party := new u64[parties, |coeffs|]((_, pos) requires 0 <= pos < |coeffs| => coeffs[pos]);
    assert Slot(0, 0, dim) == 0;
    for j := 0 to |moduli|
      invariant Shared(coeffs, moduli, dim, words, Slot(j, 0, dim), party)
    {
      ShareModulus(coeffs, moduli, dim, words, j, party);
    }
  }

  // What a slot holds once `done` slots have been shared.
  function SlotValue(coeffs: seq<u64>, moduli: seq<u64>, dim: nat, words: seq<seq<u64>>, done: nat, i: nat,
      pos: nat): (v: int)
    requires Moduli(moduli) && |words| == |coeffs| && pos < |coeffs|
  {
    if pos < done && dim > 0 && pos / dim < |moduli| then KeyShare(moduli[pos / dim], coeffs[pos], words[pos], i)
    else coeffs[pos] as int
  }

  ghost predicate Shared(coeffs: seq<u64>, moduli: seq<u64>, dim: nat, words: seq<seq<u64>>, done: nat,
      party: array2<u64>)
    requires Moduli(moduli) && |words| == |coeffs| == party.Length1
    reads party
  {
    forall i, pos :: 0 <= i < party.Length0 && 0 <= pos < |coeffs| ==>
      party[i, pos] as int == SlotValue(coeffs, moduli, dim, words, done, i, pos)
  }

  // For each modulus, the recovery weights at zero of the first threshold + 1 parties.
  method PerModulusLambdas(moduli: seq<u64>, parties: nat, threshold: nat) returns (lambdas: seq<seq<u64>>)
    requires PrimeModuli(moduli) && threshold < parties < U64_LIMIT
    ensures |lambdas| == |moduli|
    ensures forall j :: 0 <= j < |moduli| ==>
      var F := Zq(moduli[j] as int);
      && |lambdas[j]| == threshold + 1
      && Residues(lambdas[j]) == Lambdas(F, EvaluationPoints(F, threshold + 1))
  {
    lambdas := [];
    for j := 0 to |moduli|
      invariant |lambdas| == j
      invariant forall k :: 0 <= k < j ==>
        && |lambdas[k]| == threshold + 1
        && Residues(lambdas[k]) == Lambdas(Zq(moduli[k] as int), EvaluationPoints(Zq(moduli[k] as int), threshold + 1))
    {
      var row := LambdaRow(moduli[j], parties, threshold);
      lambdas := lambdas + [row];
    }
  }

  function Residues(row: seq<u64>): (r: seq<int>)
    ensures |r| == |row|
  {
    seq(|row|, i requires 0 <= i < |row| => row[i] as int)
  }

  method LambdaRow(q: u64, parties: nat, threshold: nat) returns (row: seq<u64>)
    requires Modulus(q) && Prime(q as int) && threshold < parties < U64_LIMIT
    ensures |row| == threshold + 1
    ensures Residues(row) == Lambdas(Zq(q as int), EvaluationPoints(Zq(q as int), threshold + 1))
  {
    ghost var F := Zq(q as int);
    var points := EvalPoints(q, parties)[..threshold + 1];
    assert Ints(points) == EvaluationPoints(F, threshold + 1) by {
      assert Ints(EvalPoints(q, parties)) == EvaluationPoints(F, parties);
      forall i | 0 <= i <= threshold ensures Ints(points)[i] == EvaluationPoints(F, threshold + 1)[i] {
        assert Ints(EvalPoints(q, parties))[i] == EvaluationPoints(F, parties)[i];
      }
    }
    row := [];
    for i := 0 to threshold + 1
      invariant |row| == i
      invariant forall k :: 0 <= k < i ==> row[k] as int == Lambda(F, Ints(points), k, |points|)
    {
      var li := Coefficient(points, i);
      row := row + [li.value];
    }
  }

  // ---- what the shares and the weights do together ----

  // The key, and one party's copy after sharing, as ring elements of residue j.
  ghost function KeyResidue(coeffs: seq<u64>, moduli: seq<u64>, j: nat): (key: seq<int>)
    requires Moduli(moduli) && j < |moduli|
    ensures |key| == RingDim(coeffs, moduli)
  {
    var dim := RingDim(coeffs, moduli);
    seq(dim, idx requires 0 <= idx < dim => SlotBounds(j, idx, dim, |moduli|);
        coeffs[Slot(j, idx, dim)] as int % moduli[j] as int)
  }

  ghost function CoinsResidue(coeffs: seq<u64>, moduli: seq<u64>, words: seq<seq<u64>>, j: nat): (coins: seq<seq<int>>)
    requires Moduli(moduli) && j < |moduli| && |words| == |coeffs|
    ensures |coins| == RingDim(coeffs, moduli)
  {
    var dim := RingDim(coeffs, moduli);
    seq(dim, idx requires 0 <= idx < dim => SlotBounds(j, idx, dim, |moduli|);
        Coins(moduli[j], words[Slot(j, idx, dim)]))
  }

  ghost function PartyResidue(coeffs: seq<u64>, moduli: seq<u64>, words: seq<seq<u64>>, j: nat, i: nat): (s: seq<int>)
    requires Moduli(moduli) && j < |moduli| && |words| == |coeffs|
    ensures |s| == RingDim(coeffs, moduli)
  {
    var dim := RingDim(coeffs, moduli);
    seq(dim, idx requires 0 <= idx < dim =>
      SlotBounds(j, idx, dim, |moduli|); SlotValue(coeffs, moduli, dim, words, |moduli| * dim, i, Slot(j, idx, dim)))
  }

  ghost function FirstParties(coeffs: seq<u64>, moduli: seq<u64>, words: seq<seq<u64>>, j: nat,
      count: nat): (s: seq<seq<int>>)
    requires Moduli(moduli) && j < |moduli| && |words| == |coeffs|
    ensures |s| == count
  {
    seq(count, i requires 0 <= i < count => PartyResidue(coeffs, moduli, words, j, i))
  }

  lemma ResidueShares(coeffs: seq<u64>, moduli: seq<u64>, words: seq<seq<u64>>, threshold: nat, j: nat)
    requires Moduli(moduli) && PrimeModuli(moduli) && j < |moduli| && |words| == |coeffs|
    requires forall pos :: 0 <= pos < |words| ==> |words[pos]| == threshold
    ensures var F := Zq(moduli[j] as int);
      RingKeys.SharesKey(F, EvaluationPoints(F, threshold + 1), KeyResidue(coeffs, moduli, j),
        CoinsResidue(coeffs, moduli, words, j), FirstParties(coeffs, moduli, words, j, threshold + 1))
  {
    var F, dim := Zq(moduli[j] as int), RingDim(coeffs, moduli);
    forall idx | 0 <= idx < dim ensures Slot(j, idx, dim) < |coeffs|
        && |CoinsResidue(coeffs, moduli, words, j)[idx]| == threshold {
      SlotBounds(j, idx, dim, |moduli|);
    }
    forall i: nat, idx | i <= threshold && 0 <= idx < dim
      ensures PartyResidue(coeffs, moduli, words, j, i)[idx]
              == Eval(F, [KeyResidue(coeffs, moduli, j)[idx]] + CoinsResidue(coeffs, moduli, words, j)[idx],
                  EvaluationPoints(F, threshold + 1)[i])
    {
      SlotBounds(j, idx, dim, |moduli|);
    }
  }

  lemma SmallPoints(q: int, n: nat)
    requires Prime(q) && n < q
    ensures Elems(Zq(q), EvaluationPoints(Zq(q), n)) && Distinct(EvaluationPoints(Zq(q), n))
  {
    ZqPoints(q, n);
  }

  // In every modulus, for any threshold + 1 below it: the weights send the shared key back to the
  // key, and both ways of combining partial decryptions of (c0, c1) give c0 + s c1.
  lemma ResidueDecrypts(coeffs: seq<u64>, moduli: seq<u64>, words: seq<seq<u64>>, threshold: nat, j: nat, c0: seq<int>,
      c1: seq<int>)
    requires Moduli(moduli) && PrimeModuli(moduli) && j < |moduli| && |words| == |coeffs|
    requires forall pos :: 0 <= pos < |words| ==> |words[pos]| == threshold
    requires threshold + 1 < moduli[j] as int
    requires |c0| == |c1| == RingDim(coeffs, moduli)
    requires Elems(Zq(moduli[j] as int), c0) && Elems(Zq(moduli[j] as int), c1)
    ensures var F := Zq(moduli[j] as int); var s := KeyResidue(coeffs, moduli, j);
      var shares := FirstParties(coeffs, moduli, words, j, threshold + 1);
      var ws := Lambdas(F, EvaluationPoints(F, threshold + 1)); var dim := RingDim(coeffs, moduli);
      && RingKeys.RingElems(F, dim, shares)
      && RingKeys.RingElems(F, dim, RingKeys.Products(F, shares, c1))
      && RingKeys.RingElems(F, dim, RingKeys.Partials(F, shares, c0, c1))
      && RingKeys.Combine(F, ws, shares, dim, threshold + 1) == s
      && RingKeys.RingAdd(F, RingKeys.Combine(F, ws, RingKeys.Products(F, shares, c1), dim, threshold + 1), c0)
         == RingKeys.RingAdd(F, RingKeys.RingMul(F, s, c1), c0)
      && RingKeys.Combine(F, ws, RingKeys.Partials(F, shares, c0, c1), dim, threshold + 1)
         == RingKeys.RingAdd(F, c0, RingKeys.RingMul(F, s, c1))
  {
    var F := Zq(moduli[j] as int);
    var pts := EvaluationPoints(F, threshold + 1);
    var s, coins, shares := KeyResidue(coeffs, moduli, j), CoinsResidue(coeffs, moduli, words, j),
        FirstParties(coeffs, moduli, words, j, threshold + 1);
    ResidueShares(coeffs, moduli, words, threshold, j);
    ZqLaws(moduli[j] as int);
    SmallPoints(moduli[j] as int, threshold + 1);
    assert pts != [];
    hide *;
    RingKeys.KeyRecovered(F, pts, s, coins, shares);
    RingKeys.PartialProductsDecrypt(F, pts, s, coins, shares, c0, c1);
    RingKeys.PartialsFuse(F, pts, s, coins, shares, c0, c1);
  }
}
