/** The tie-break lottery of src/admin/admin-ranking.util.ts: a Fisher-Yates
    shuffle in place, of which the first few are the winners.  The random source
    is a choice vector: entry `i` is what the source returns when the loop asks
    for a number below `i + 1`. */
module Lottery {

  ghost predicate ValidChoices(choices: seq<nat>, n: nat) {
    |choices| == n && forall i :: 0 <= i < n ==> choices[i] <= i
  }

  ghost predicate Distinct<T>(s: seq<T>) {
    forall i, j :: 0 <= i < j < |s| ==> s[i] != s[j]
  }

  function Swap<T>(s: seq<T>, i: nat, j: nat): (r: seq<T>)
    requires i < |s| && j < |s|
    ensures |r| == |s|
  {
    s[i := s[j]][j := s[i]]
  }

  /** The loop from index `k - 1` down to 1. */
  ghost function ShuffleDown<T>(s: seq<T>, choices: seq<nat>, k: nat): (r: seq<T>)
    requires k <= |s| && k <= |choices| && forall i :: 0 <= i < k ==> choices[i] <= i
    ensures |r| == |s|
    decreases k
  {
    if k <= 1 then s else ShuffleDown(Swap(s, k - 1, choices[k - 1]), choices, k - 1)
  }

  ghost function Shuffle<T>(s: seq<T>, choices: seq<nat>): (r: seq<T>)
    requires ValidChoices(choices, |s|)
    ensures |r| == |s|
  {
    ShuffleDown(s, choices, |s|)
  }

  function Take<T>(s: seq<T>, count: nat): seq<T> {
    if count <= |s| then s[..count] else s
  }

  /** pickLotteryWinners. */
  method PickLotteryWinners<T>(group: seq<T>, count: nat, choices: seq<nat>) returns (winners: seq<T>)
    requires ValidChoices(choices, |group|)
    ensures winners == Take(Shuffle(group, choices), count)
  {
    var pool := new T[|group|](i requires 0 <= i < |group| => group[i]);
    assert pool[..] == group;
    var i := pool.Length - 1;
    while i > 0
      invariant -1 <= i < pool.Length
      invariant ShuffleDown(pool[..], choices, i + 1) == Shuffle(group, choices)
    {
      var j := choices[i];
      ghost var before := pool[..];
      pool[i], pool[j] := pool[j], pool[i];
      assert pool[..] == Swap(before, i, j);
      i := i - 1;
    }
    assert pool[..] == Shuffle(group, choices);
    winners := Take(pool[..], count);
  }

  // ---------------------------------------------------------------- permutations

  lemma SwapIsPermutation<T>(s: seq<T>, i: nat, j: nat)
    requires i < |s| && j < |s|
    ensures multiset(Swap(s, i, j)) == multiset(s)
  {
  }

  /** The loop only reorders the first `k` entries. */
  lemma {:induction false} ShuffleKeepsTail<T>(s: seq<T>, choices: seq<nat>, k: nat)
    requires k <= |s| && k <= |choices| && forall i :: 0 <= i < k ==> choices[i] <= i
    ensures ShuffleDown(s, choices, k)[k..] == s[k..]
    ensures multiset(ShuffleDown(s, choices, k)) == multiset(s)
    decreases k
  {
    if k > 1 {
      var t := Swap(s, k - 1, choices[k - 1]);
      SwapIsPermutation(s, k - 1, choices[k - 1]);
      ShuffleKeepsTail(t, choices, k - 1);
      var r := ShuffleDown(s, choices, k);
      assert r[k..] == r[k - 1..][1..] && t[k - 1..][1..] == t[k..] == s[k..];
    }
  }

  lemma PermutationOfDistinct<T>(s: seq<T>, p: seq<T>)
    requires Distinct(s) && multiset(p) == multiset(s)
    ensures Distinct(p)
  {
    forall i, j | 0 <= i < j < |p| && p[i] == p[j]
      ensures false
    {
      assert p == p[..i] + [p[i]] + p[i + 1..j] + [p[j]] + p[j + 1..];
      assert multiset(p)[p[i]] >= 2;
      AtMostOnce(s, p[i]);
    }
  }

  lemma {:induction false} AtMostOnce<T>(s: seq<T>, x: T)
    requires Distinct(s)
    ensures multiset(s)[x] <= 1
  {
    if s != [] {
      assert s == [s[0]] + s[1..];
      AtMostOnce(s[1..], x);
      if s[0] == x {
        assert x !in s[1..];
      }
    }
  }

  lemma DistinctSwap<T>(s: seq<T>, i: nat, j: nat)
    requires Distinct(s) && i < |s| && j < |s|
    ensures Distinct(Swap(s, i, j))
  {
  }

  // ---------------------------------------------------------------- the bijection

  ghost function IndexOf<T>(s: seq<T>, x: T): (j: nat)
    requires x in s
    ensures j < |s| && s[j] == x
  {
    var j: nat :| j < |s| && s[j] == x;
    j
  }

  /** Whether `p` is reachable from `s` by the loop from `k - 1` down. */
  ghost predicate Reorders<T>(s: seq<T>, p: seq<T>, k: nat) {
    && k <= |s| == |p|
    && Distinct(s)
    && p[k..] == s[k..]
    && multiset(p) == multiset(s)
  }

  /** The entry that belongs at `k - 1` is still among the first `k`. */
  lemma NextEntryIsAhead<T>(s: seq<T>, p: seq<T>, k: nat)
    requires Reorders(s, p, k) && k > 0
    ensures p[k - 1] in s && IndexOf(s, p[k - 1]) < k
    ensures Reorders(Swap(s, k - 1, IndexOf(s, p[k - 1])), p, k - 1)
  {
    assert p[k - 1] in multiset(p);
    assert p[k - 1] in multiset(s);
    var j := IndexOf(s, p[k - 1]);
    PermutationOfDistinct(s, p);
    assert forall i :: k <= i < |s| ==> p[i] == p[k..][i - k] == s[k..][i - k] == s[i];
    SwapReorders(s, p, k, j);
  }

  lemma SwapReorders<T>(s: seq<T>, p: seq<T>, k: nat, j: nat)
    requires Reorders(s, p, k) && j < k && s[j] == p[k - 1]
    ensures Reorders(Swap(s, k - 1, j), p, k - 1)
  {
    SwapIsPermutation(s, k - 1, j);
    DistinctSwap(s, k - 1, j);
    var t := Swap(s, k - 1, j);
    assert t[k - 1..] == [p[k - 1]] + s[k..];
    assert p[k - 1..] == [p[k - 1]] + p[k..];
  }

  /** The choices that lead from `s` to `p`: the inverse of the shuffle. */
  ghost function ChoicesFor<T>(s: seq<T>, p: seq<T>, k: nat): (choices: seq<nat>)
    requires Reorders(s, p, k)
    ensures |choices| == k && forall i :: 0 <= i < k ==> choices[i] <= i
    decreases k
  {
    if k == 0 then [] else
    NextEntryIsAhead(s, p, k);
    var j := IndexOf(s, p[k - 1]);
    ChoicesFor(Swap(s, k - 1, j), p, k - 1) + [j]
  }

  lemma {:induction false} ShuffleIgnoresRest<T>(s: seq<T>, a: seq<nat>, b: seq<nat>, k: nat)
    requires k <= |s| && k <= |a| && k <= |b| && a[..k] == b[..k]
    requires forall i :: 0 <= i < k ==> a[i] <= i
    requires forall i :: 0 <= i < k ==> b[i] <= i
    ensures ShuffleDown(s, a, k) == ShuffleDown(s, b, k)
    decreases k
  {
    if k > 1 {
      assert a[k - 1] == a[..k][k - 1] == b[..k][k - 1] == b[k - 1];
      assert a[..k - 1] == a[..k][..k - 1] == b[..k][..k - 1] == b[..k - 1];
      ShuffleIgnoresRest(Swap(s, k - 1, a[k - 1]), a, b, k - 1);
    }
  }

  lemma OneStep<T>(s: seq<T>, choices: seq<nat>, k: nat)
    requires 0 < k <= |s| && k <= |choices| && forall i :: 0 <= i < k ==> choices[i] <= i
    ensures ShuffleDown(s, choices, k) == ShuffleDown(Swap(s, k - 1, choices[k - 1]), choices, k - 1)
  {
    if k == 1 {
      assert Swap(s, 0, 0) == s;
    }
  }

  /** Every reordering is reached: its choices produce it. */
  lemma {:induction false} ChoicesReach<T>(s: seq<T>, p: seq<T>, k: nat)
    requires Reorders(s, p, k)
    ensures ShuffleDown(s, ChoicesFor(s, p, k), k) == p
    decreases k
  {
    if k == 0 {
      assert p == p[0..] == s[0..] == s;
    } else {
      hide ShuffleDown, Swap, Reorders;
      NextEntryIsAhead(s, p, k);
      var j := IndexOf(s, p[k - 1]);
      var t, c := Swap(s, k - 1, j), ChoicesFor(s, p, k);
      var rest := ChoicesFor(t, p, k - 1);
      ChoicesReach(t, p, k - 1);
      assert c == rest + [j] && c[..k - 1] == rest[..k - 1];
      ShuffleIgnoresRest(t, c, rest, k - 1);
      OneStep(s, c, k);
    }
  }

  /** ... and by no other choices. */
  lemma {:induction false} ChoicesAreUnique<T>(s: seq<T>, choices: seq<nat>, k: nat)
    requires Distinct(s) && k <= |s| && k <= |choices|
    requires forall i :: 0 <= i < k ==> choices[i] <= i
    ensures Reorders(s, ShuffleDown(s, choices, k), k)
    ensures ChoicesFor(s, ShuffleDown(s, choices, k), k) == choices[..k]
    decreases k
  {
    hide ShuffleDown;
    ShuffleKeepsTail(s, choices, k);
    if k > 0 {
      var p, j := ShuffleDown(s, choices, k), choices[k - 1];
      var t := Swap(s, k - 1, j);
      OneStep(s, choices, k);
      ShuffleKeepsTail(t, choices, k - 1);
      assert p[k - 1] == p[k - 1..][0] == t[k - 1..][0] == s[j];
      NextEntryIsAhead(s, p, k);
      assert IndexOf(s, p[k - 1]) == j;
      DistinctSwap(s, k - 1, j);
      ChoicesAreUnique(t, choices, k - 1);
      assert choices[..k] == choices[..k - 1] + [j];
    }
  }

  /** The shuffle maps choice vectors one-to-one onto the orders of a group of
      distinct members, so a uniform source draws every order equally often. */
  lemma ShuffleIsBijective<T>(s: seq<T>, p: seq<T>)
    requires Distinct(s) && multiset(p) == multiset(s)
    ensures |p| == |s| && Reorders(s, p, |s|)
    ensures var c := ChoicesFor(s, p, |s|);
            ValidChoices(c, |s|) && Shuffle(s, c) == p
            && forall d :: ValidChoices(d, |s|) && Shuffle(s, d) == p ==> d == c
  {
    hide ShuffleDown, ChoicesFor;
    assert |multiset(p)| == |multiset(s)|;
    ChoicesReach(s, p, |s|);
    var c := ChoicesFor(s, p, |s|);
    forall d | ValidChoices(d, |s|) && Shuffle(s, d) == p
      ensures d == c
    {
      OnlyTheseChoices(s, d);
    }
  }

  lemma OnlyTheseChoices<T>(s: seq<T>, choices: seq<nat>)
    requires Distinct(s) && ValidChoices(choices, |s|)
    ensures Reorders(s, Shuffle(s, choices), |s|)
    ensures ChoicesFor(s, Shuffle(s, choices), |s|) == choices
  {
    hide ShuffleDown, ChoicesFor;
    ChoicesAreUnique(s, choices, |s|);
    assert choices[..|s|] == choices;
  }

  /** The winners are always min(count, n) distinct members of the group. */
  lemma WinnersAreDistinctMembers<T>(s: seq<T>, choices: seq<nat>, count: nat)
    requires Distinct(s) && ValidChoices(choices, |s|)
    ensures var w := Take(Shuffle(s, choices), count);
            |w| == (if count <= |s| then count else |s|) && Distinct(w) && forall x :: x in w ==> x in s
  {
    ShuffleKeepsTail(s, choices, |s|);
    var p := Shuffle(s, choices);
    PermutationOfDistinct(s, p);
    forall x | x in p
      ensures x in s
    {
      assert x in multiset(p);
    }
  }

  // ---------------------------------------------------------------- fairness

  /** The order in which `a` and `b` have changed places. */
  ghost function Exchange<T>(p: seq<T>, a: T, b: T): (r: seq<T>)
    ensures |r| == |p|
  {
    seq(|p|, i requires 0 <= i < |p| => if p[i] == a then b else if p[i] == b then a else p[i])
  }

  lemma ExchangeIsPermutation<T>(p: seq<T>, a: T, b: T)
    requires Distinct(p) && a in p && b in p
    ensures multiset(Exchange(p, a, b)) == multiset(p)
    ensures Exchange(Exchange(p, a, b), a, b) == p
  {
    var i, j := IndexOf(p, a), IndexOf(p, b);
    assert Exchange(p, a, b) == Swap(p, i, j);
    SwapIsPermutation(p, i, j);
  }

  /** The choice vector that draws the same order with `a` and `b` exchanged. */
  ghost function Mirror<T>(s: seq<T>, choices: seq<nat>, a: T, b: T): (mirrored: seq<nat>)
    requires Distinct(s) && a in s && b in s && ValidChoices(choices, |s|)
    ensures ValidChoices(mirrored, |s|)
    ensures Shuffle(s, mirrored) == Exchange(Shuffle(s, choices), a, b)
  {
    ShuffleKeepsTail(s, choices, |s|);
    var p := Shuffle(s, choices);
    PermutationOfDistinct(s, p);
    assert a in multiset(p) && b in multiset(p);
    ExchangeIsPermutation(p, a, b);
    ShuffleIsBijective(s, Exchange(p, a, b));
    ChoicesFor(s, Exchange(p, a, b), |s|)
  }

  /** Every member of a tie group wins equally often: exchanging `a` and `b`
      pairs off the choice vectors under which `a` wins with the ones under
      which `b` wins. */
  lemma LotteryIsFair<T>(s: seq<T>, choices: seq<nat>, a: T, b: T, count: nat)
    requires Distinct(s) && a in s && b in s && ValidChoices(choices, |s|)
    ensures a in Take(Shuffle(s, choices), count)
       <==> b in Take(Shuffle(s, Mirror(s, choices, a, b)), count)
    ensures Mirror(s, Mirror(s, choices, a, b), a, b) == choices
  {
    var p := Shuffle(s, choices);
    var m := Mirror(s, choices, a, b);
    var q := Shuffle(s, m);
    ShuffleKeepsTail(s, choices, |s|);
    PermutationOfDistinct(s, p);
    assert a in multiset(p) && b in multiset(p);
    ExchangeIsPermutation(p, a, b);
    ShuffleIsBijective(s, p);
    assert Shuffle(s, Mirror(s, m, a, b)) == p;
    var w, v := Take(p, count), Take(q, count);
    if a in w {
      assert v[IndexOf(w, a)] == b;
    }
    if b in v {
      assert w[IndexOf(v, b)] == a;
    }
  }
}
