/** Enumeration of the k-element subsets of 0..n-1, as strictly increasing lists in lexicographic order. */
module HolderSets {
  import opened Sequences

  predicate Combination(n: nat, k: nat, c: seq<nat>) {
    && |c| == k
    && (forall i :: 0 <= i < k ==> c[i] < n)
    && forall i, j :: 0 <= i < j < k ==> c[i] < c[j]
  }

  // c and d first differ at p, and c is smaller there.
  predicate DiffersAt(c: seq<nat>, d: seq<nat>, p: nat) {
    p < |c| && p < |d| && c[p] < d[p] && forall i :: 0 <= i < p ==> c[i] == d[i]
  }

  predicate Precedes(c: seq<nat>, d: seq<nat>) {
    exists p :: 0 <= p < |c| && DiffersAt(c, d, p)
  }

  // Entries of a combination leave room for those before and after them.
  lemma {:induction false} Room(n: nat, k: nat, c: seq<nat>, i: nat, j: nat)
    requires Combination(n, k, c) && i <= j < k
    ensures c[i] + (j - i) <= c[j]
    decreases j - i
  {
    if i < j { Room(n, k, c, i, j - 1); }
  }

  lemma Bounds(n: nat, k: nat, c: seq<nat>, i: nat)
    requires Combination(n, k, c) && i < k
    ensures k <= n && i <= c[i] <= n - k + i
  {
    Room(n, k, c, 0, i);
    Room(n, k, c, i, k - 1);
  }

  lemma {:induction false} Trichotomy(c: seq<nat>, d: seq<nat>, i: nat)
    requires |c| == |d| && i <= |c| && forall j :: 0 <= j < i ==> c[j] == d[j]
    ensures c == d || Precedes(c, d) || Precedes(d, c)
    decreases |c| - i
  {
    if i < |c| {
      if c[i] == d[i] {
        Trichotomy(c, d, i + 1);
      } else {
        assert DiffersAt(c, d, i) || DiffersAt(d, c, i);
      }
    }
  }

  lemma Antisymmetry(c: seq<nat>, d: seq<nat>)
    requires |c| == |d| && Precedes(c, d)
    ensures c != d && !Precedes(d, c)
  {
    var p :| 0 <= p < |c| && DiffersAt(c, d, p);
  }

  lemma Transitivity(c: seq<nat>, d: seq<nat>, e: seq<nat>)
    requires |c| == |d| == |e| && Precedes(c, d) && Precedes(d, e)
    ensures Precedes(c, e)
  {
    var p :| 0 <= p < |c| && DiffersAt(c, d, p);
    var r :| 0 <= r < |d| && DiffersAt(d, e, r);
    assert DiffersAt(c, e, if p <= r then p else r);
  }

  // `next` bumps entry i of `cur` and packs the later entries right behind it.
  predicate Bumped(cur: seq<nat>, next: seq<nat>, i: nat) {
    && |next| == |cur| && i < |cur|
    && (forall j :: 0 <= j < i ==> next[j] == cur[j])
    && forall j :: i <= j < |cur| ==> next[j] == cur[i] + 1 + (j - i)
  }

  // Entries from i on cannot grow.
  predicate Full(n: nat, k: nat, cur: seq<nat>, i: nat)
    requires k <= n && |cur| == k
  {
    forall j :: i <= j < k ==> cur[j] == n - k + j
  }

  lemma BumpIsCombination(n: nat, k: nat, cur: seq<nat>, next: seq<nat>, i: nat)
    requires Combination(n, k, cur) && k <= n && i < k && cur[i] < n - k + i && Bumped(cur, next, i)
    ensures Combination(n, k, next) && Precedes(cur, next)
  {
    assert DiffersAt(cur, next, i);
  }

  // No combination lies strictly between a combination and its bump.
  lemma NoneBetween(n: nat, k: nat, cur: seq<nat>, next: seq<nat>, i: nat, c: seq<nat>)
    requires Combination(n, k, cur) && Combination(n, k, c) && k <= n && i < k
    requires Full(n, k, cur, i + 1) && Bumped(cur, next, i) && Precedes(cur, c)
    ensures !Precedes(c, next)
  {
    var p :| 0 <= p < k && DiffersAt(cur, c, p);
    Bounds(n, k, c, p);
    assert p <= i;
    if Precedes(c, next) {
      var r :| 0 <= r < k && DiffersAt(c, next, r);
      assert r >= i;
      Room(n, k, c, i, r);
    }
  }

  lemma NoneAbove(n: nat, k: nat, cur: seq<nat>, c: seq<nat>)
    requires Combination(n, k, cur) && Combination(n, k, c) && k <= n && Full(n, k, cur, 0)
    ensures !Precedes(cur, c)
  {
    if Precedes(cur, c) {
      var p :| 0 <= p < k && DiffersAt(cur, c, p);
      Bounds(n, k, c, p);
    }
  }

  ghost predicate InOrder(result: seq<seq<nat>>) {
    forall i, j :: 0 <= i < j < |result| ==> Precedes(result[i], result[j])
  }

  // What has been listed when `cur` is next: exactly the combinations before it, each once, in
  // lexicographic order.
  ghost predicate ListedBelow(n: nat, k: nat, result: seq<seq<nat>>, cur: seq<nat>) {
    && Distinct(result) && InOrder(result)
    && forall c: seq<nat> {:trigger Combination(n, k, c)} {:trigger c in result} ::
      c in result <==> Combination(n, k, c) && Precedes(c, cur)
  }

  ghost predicate Listed(n: nat, k: nat, result: seq<seq<nat>>) {
    && Distinct(result) && InOrder(result)
    && forall c: seq<nat> {:trigger Combination(n, k, c)} {:trigger c in result} ::
        c in result <==> Combination(n, k, c)
  }

  lemma ListStep(n: nat, k: nat, result: seq<seq<nat>>, cur: seq<nat>, next: seq<nat>, i: nat)
    requires k <= n && i < k && Combination(n, k, cur) && ListedBelow(n, k, result, cur)
    requires Full(n, k, cur, i + 1) && cur[i] < n - k + i && Bumped(cur, next, i)
    ensures |next| == k && Combination(n, k, next) && ListedBelow(n, k, result + [cur], next)
  {
    BumpIsCombination(n, k, cur, next, i);
    forall c: seq<nat> ensures c in result + [cur] <==> Combination(n, k, c) && Precedes(c, next) {
      if Combination(n, k, c) {
        Trichotomy(c, cur, 0);
        if Precedes(c, cur) {
          Transitivity(c, cur, next);
        } else if Precedes(cur, c) {
          NoneBetween(n, k, cur, next, i, c);
          Antisymmetry(cur, c);
        }
      }
    }
    Fresh(n, k, result, cur);
  }

  lemma Fresh(n: nat, k: nat, result: seq<seq<nat>>, cur: seq<nat>)
    requires Combination(n, k, cur) && ListedBelow(n, k, result, cur)
    ensures cur !in result && Distinct(result + [cur]) && InOrder(result + [cur])
  {
    if Precedes(cur, cur) { Antisymmetry(cur, cur); }
    forall i | 0 <= i < |result| ensures Precedes(result[i], cur) {
      assert result[i] in result;
      assert Combination(n, k, result[i]) && Precedes(result[i], cur);
    }
  }

  lemma ListEnd(n: nat, k: nat, result: seq<seq<nat>>, cur: seq<nat>)
    requires k <= n && Combination(n, k, cur) && ListedBelow(n, k, result, cur) && Full(n, k, cur, 0)
    ensures Listed(n, k, result + [cur])
  {
    Fresh(n, k, result, cur);
    forall c: seq<nat> ensures c in result + [cur] <==> Combination(n, k, c) {
      if Combination(n, k, c) {
        Trichotomy(c, cur, 0);
        NoneAbove(n, k, cur, c);
      }
    }
  }

  lemma ListStart(n: nat, k: nat, cur: seq<nat>)
    requires 0 < k <= n && |cur| == k && forall i :: 0 <= i < k ==> cur[i] == i
    ensures Combination(n, k, cur) && ListedBelow(n, k, [], cur)
  {
    forall c: seq<nat> ensures !(Combination(n, k, c) && Precedes(c, cur)) {
      if Combination(n, k, c) && Precedes(c, cur) {
        var p :| 0 <= p < k && DiffersAt(c, cur, p);
        Bounds(n, k, c, p);
      }
    }
  }

  // All combinations, as a finite set: the enumeration can add each only once.
  ghost function All(n: nat, k: nat): (s: set<seq<nat>>) {
    if k == 0 then {[]} else set c, x | c in All(n, k - 1) && x in Below(n) :: c + [x]
  }

  ghost function Below(n: nat): (s: set<nat>)
    ensures forall x: nat :: x in s <==> x < n
  {
    if n == 0 then {} else Below(n - 1) + {n - 1}
  }

  lemma {:induction false} InAll(n: nat, k: nat, c: seq<nat>)
    requires Combination(n, k, c)
    ensures c in All(n, k)
    decreases k
  {
    if k > 0 {
      InAll(n, k - 1, c[..k - 1]);
      assert c == c[..k - 1] + [c[k - 1]];
    }
  }

  ghost function Remaining(n: nat, k: nat, result: seq<seq<nat>>): (m: nat) {
    |All(n, k) - (set c | c in result)|
  }

  lemma OneFewer(n: nat, k: nat, result: seq<seq<nat>>, cur: seq<nat>)
    requires Combination(n, k, cur) && cur !in result
    ensures Remaining(n, k, result + [cur]) < Remaining(n, k, result)
  {
    InAll(n, k, cur);
    var before := All(n, k) - (set c | c in result);
    var after := All(n, k) - (set c | c in result + [cur]);
    assert after == before - {cur};
  }

  // The rightmost entry that can still grow, if any.
  method Rightmost(n: nat, k: nat, current: seq<nat>) returns (found: bool, i: nat)
    requires Combination(n, k, current) && k <= n
    ensures found ==> i < k && current[i] < n - k + i && Full(n, k, current, i + 1)
    ensures !found ==> Full(n, k, current, 0)
  {
    i := k;
    while i > 0
      invariant i <= k && Full(n, k, current, i)
    {
      i := i - 1;
      Bounds(n, k, current, i);
      if current[i] < n - k + i {
        return true, i;
      }
    }
    found := false;
  }

  method Bump(cur: seq<nat>, i: nat) returns (current: seq<nat>)
    requires i < |cur|
    ensures Bumped(cur, current, i)
  {
    current := cur[i := cur[i] + 1];
    for j := i + 1 to |cur|
      invariant |current| == |cur| && forall m :: 0 <= m < i ==> current[m] == cur[m]
      invariant forall m :: i <= m < j ==> current[m] == cur[i] + 1 + (m - i)
    {
      current := current[j := current[j - 1] + 1];
    }
  }

  lemma NoCombinations(n: nat, k: nat, c: seq<nat>)
    requires n < k
    ensures !Combination(n, k, c)
  {
    if Combination(n, k, c) { Bounds(n, k, c, 0); }
  }

  // The enumeration loop: every k-element subset is listed, once.
  method Combinations(n: nat, k: nat) returns (result: seq<seq<nat>>)
    ensures Listed(n, k, result)
  {
    if k > n {
      forall c: seq<nat> ensures !Combination(n, k, c) { NoCombinations(n, k, c); }
      return [];
    }
    if k == 0 {
      return [[]];
    }
    result := [];
    var current: seq<nat> := seq(k, i requires 0 <= i < k => i);
    ListStart(n, k, current);
    hide *;
    while true
      invariant Combination(n, k, current) && ListedBelow(n, k, result, current) && |current| == k
      decreases Remaining(n, k, result)
    {
      Fresh(n, k, result, current);
      OneFewer(n, k, result, current);
      var found, i := Rightmost(n, k, current);
      if !found {
        ListEnd(n, k, result, current);
        return result + [current];
      }
      var next := Bump(current, i);
      ListStep(n, k, result, current, next, i);
      result, current := result + [current], next;
    }
  }

  // ---- how many there are ----

  function Binomial(n: nat, k: nat): (b: nat) {
    if k == 0 then 1 else if n == 0 then 0 else Binomial(n - 1, k) + Binomial(n - 1, k - 1)
  }

  ghost function Extended(s: set<seq<nat>>, x: nat): (t: set<seq<nat>>) { set c | c in s :: c + [x] }

  // The combinations without the largest candidate, and those that end in it.
  ghost function Subsets(n: nat, k: nat): (s: set<seq<nat>>) {
    if k == 0 then {[]} else if n == 0 then {} else Subsets(n - 1, k) + Extended(Subsets(n - 1, k - 1), n - 1)
  }

  lemma {:induction false} InSubsets(n: nat, k: nat, c: seq<nat>)
    ensures c in Subsets(n, k) <==> Combination(n, k, c)
  {
    if k > 0 && n > 0 {
      InSubsets(n - 1, k, c);
      if c != [] {
        var init, last := c[..|c| - 1], c[|c| - 1];
        InSubsets(n - 1, k - 1, init);
        assert c == init + [last];
        InExtended(Subsets(n - 1, k - 1), n - 1, c);
      }
    }
  }

  lemma InExtended(s: set<seq<nat>>, x: nat, c: seq<nat>)
    requires c != []
    ensures c in Extended(s, x) <==> c[..|c| - 1] in s && c[|c| - 1] == x
  {
    if c in Extended(s, x) {
      var d :| d in s && c == d + [x];
      assert c[..|c| - 1] == d;
    }
    assert c == c[..|c| - 1] + [c[|c| - 1]];
  }

  lemma {:induction false} ExtendedSize(s: set<seq<nat>>, x: nat)
    ensures |Extended(s, x)| == |s|
    decreases |s|
  {
    if s != {} {
      var c :| c in s;
      ExtendedSize(s - {c}, x);
      assert c + [x] !in Extended(s - {c}, x) by {
        InExtended(s - {c}, x, c + [x]);
      }
      assert Extended(s, x) == Extended(s - {c}, x) + {c + [x]};
    }
  }

  lemma SubsetsApart(n: nat, k: nat, c: seq<nat>)
    requires k > 0 && n > 0 && c in Subsets(n - 1, k)
    ensures c !in Extended(Subsets(n - 1, k - 1), n - 1)
  {
    hide Subsets, Extended;
    InSubsets(n - 1, k, c);
    InExtended(Subsets(n - 1, k - 1), n - 1, c);
  }

  lemma UnionSize(a: set<seq<nat>>, b: set<seq<nat>>)
    requires forall c :: c in a ==> c !in b
    ensures |a + b| == |a| + |b|
  {
    assert a !! b;
  }

  lemma SubsetsUnfold(n: nat, k: nat)
    ensures Subsets(n, 0) == {[]} && Binomial(n, 0) == 1
    ensures k > 0 ==> Subsets(0, k) == {} && Binomial(0, k) == 0
    ensures k > 0 && n > 0 ==>
      && Subsets(n, k) == Subsets(n - 1, k) + Extended(Subsets(n - 1, k - 1), n - 1)
      && Binomial(n, k) == Binomial(n - 1, k) + Binomial(n - 1, k - 1)
  {
    hide Extended;
  }

  lemma SubsetsSplit(n: nat, k: nat)
    requires k > 0 && n > 0
    ensures |Subsets(n, k)| == |Subsets(n - 1, k)| + |Subsets(n - 1, k - 1)|
  {
    hide *;
    SubsetsUnfold(n, k);
    var without, with := Subsets(n - 1, k), Extended(Subsets(n - 1, k - 1), n - 1);
    forall c | c in without ensures c !in with {
      SubsetsApart(n, k, c);
    }
    UnionSize(without, with);
    ExtendedSize(Subsets(n - 1, k - 1), n - 1);
  }

  lemma {:induction false} SubsetsSize(n: nat, k: nat)
    ensures |Subsets(n, k)| == Binomial(n, k)
  {
    hide *;
    SubsetsUnfold(n, k);
    if k > 0 && n > 0 {
      SubsetsSize(n - 1, k);
      SubsetsSize(n - 1, k - 1);
      SubsetsSplit(n, k);
    }
  }

  lemma {:induction false} DistinctSize(s: seq<seq<nat>>)
    requires Distinct(s)
    ensures |set c | c in s| == |s|
  {
    if s != [] {
      var init, last := s[..|s| - 1], s[|s| - 1];
      DistinctSize(init);
      assert (set c | c in s) == (set c | c in init) + {last};
    }
  }

  // A list of all combinations, each once, has n choose k entries.
  lemma CountListed(n: nat, k: nat, result: seq<seq<nat>>)
    requires Listed(n, k, result)
    ensures |result| == Binomial(n, k)
  {
    DistinctSize(result);
    SubsetsSize(n, k);
    forall c ensures c in result <==> c in Subsets(n, k) {
      InSubsets(n, k, c);
      assert c in result <==> Combination(n, k, c);
    }
    assert (set c | c in result) == Subsets(n, k);
  }
}
