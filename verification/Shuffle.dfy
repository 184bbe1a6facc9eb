/** The in-place Fisher-Yates shuffle (`shuffleArray`, packages/nodes-base/utils/utilities.ts). */
module Shuffle {
  /**
   * One draw per position: position `i` draws from `0` to `i`. Position 0 has no choice, and the loop does not visit
   * it.
   */
  ghost predicate InRange(draws: seq<nat>) {
    forall i :: 0 <= i < |draws| ==> draws[i] <= i
  }

  ghost predicate Distinct<T(!new)>(s: seq<T>) {
    forall i, j :: 0 <= i < j < |s| ==> s[i] != s[j]
  }

  function Swapped<T>(s: seq<T>, i: nat, j: nat): (r: seq<T>)
    requires i < |s| && j < |s|
    ensures |r| == |s|
  {
    s[i := s[j]][j := s[i]]
  }

  /** The swaps that remain when the loop stands at `i`. */
  ghost function ShuffledFrom<T(!new)>(s: seq<T>, draws: seq<nat>, i: nat): seq<T>
    requires i < |s| == |draws| && InRange(draws)
    decreases i
  {
    if i == 0 then s else ShuffledFrom(Swapped(s, i, draws[i]), draws, i - 1)
  }

  ghost function Shuffled<T(!new)>(s: seq<T>, draws: seq<nat>): seq<T>
    requires |s| == |draws| && InRange(draws)
  {
    if s == [] then s else ShuffledFrom(s, draws, |s| - 1)
  }

  method ShuffleArray<T(!new)>(a: array<T>, draws: seq<nat>)
    requires |draws| == a.Length && InRange(draws)
    modifies a
    ensures a[..] == Shuffled(old(a[..]), draws)
    ensures multiset(a[..]) == multiset(old(a[..]))
  {
    ghost var was := a[..];
    var i := a.Length - 1;
    while i > 0
      invariant -1 <= i < a.Length && (i == -1 ==> a.Length == 0)
      invariant i >= 0 ==> ShuffledFrom(a[..], draws, i) == Shuffled(was, draws)
      invariant i == -1 ==> a[..] == was
    {
      var j := draws[i];
      ghost var before := a[..];
      a[i], a[j] := a[j], a[i];
      assert a[..] == Swapped(before, i, j);
      i := i - 1;
    }
    ShuffleIsPermutation(was, draws);
  }

  // ---------------------------------------------------------------- a permutation

  lemma SwapPermutes<T>(s: seq<T>, i: nat, j: nat)
    requires i < |s| && j < |s|
    ensures multiset(Swapped(s, i, j)) == multiset(s)
  {}

  lemma {:induction false} FromIsPermutation<T(!new)>(s: seq<T>, draws: seq<nat>, i: nat)
    requires i < |s| == |draws| && InRange(draws)
    ensures |ShuffledFrom(s, draws, i)| == |s| && multiset(ShuffledFrom(s, draws, i)) == multiset(s)
    decreases i
  {
    if i > 0 {
      SwapPermutes(s, i, draws[i]);
      FromIsPermutation(Swapped(s, i, draws[i]), draws, i - 1);
    }
  }

  lemma ShuffleIsPermutation<T(!new)>(s: seq<T>, draws: seq<nat>)
    requires |s| == |draws| && InRange(draws)
    ensures multiset(Shuffled(s, draws)) == multiset(s)
  {
    if s != [] {
      FromIsPermutation(s, draws, |s| - 1);
    }
  }

  // ---------------------------------------------------------------- different draws, different arrangements

  /** Positions the loop has passed keep their element. */
  lemma {:induction false} PassedPositionsStay<T(!new)>(s: seq<T>, draws: seq<nat>, i: nat, k: nat)
    requires i < |s| == |draws| && InRange(draws) && i < k < |s|
    ensures |ShuffledFrom(s, draws, i)| == |s| && ShuffledFrom(s, draws, i)[k] == s[k]
    decreases i
  {
    if i > 0 {
      PassedPositionsStay(Swapped(s, i, draws[i]), draws, i - 1, k);
    }
  }

  lemma SwapKeepsDistinct<T(!new)>(s: seq<T>, i: nat, j: nat)
    requires i < |s| && j < |s| && Distinct(s)
    ensures Distinct(Swapped(s, i, j))
  {}

  lemma {:induction false} ArrangementTellsDraws<T(!new)>(s: seq<T>, c: seq<nat>, d: seq<nat>, i: nat)
    requires i < |s| == |c| == |d| && InRange(c) && InRange(d) && Distinct(s)
    requires ShuffledFrom(s, c, i) == ShuffledFrom(s, d, i)
    ensures c[..i + 1] == d[..i + 1]
    decreases i
  {
    if i > 0 {
      PassedPositionsStay(Swapped(s, i, c[i]), c, i - 1, i);
      PassedPositionsStay(Swapped(s, i, d[i]), d, i - 1, i);
      assert s[c[i]] == s[d[i]];
      SwapKeepsDistinct(s, i, c[i]);
      ArrangementTellsDraws(Swapped(s, i, c[i]), c, d, i - 1);
      assert c[..i + 1] == c[..i] + [c[i]];
      assert d[..i + 1] == d[..i] + [d[i]];
    }
  }

  // ---------------------------------------------------------------- every arrangement is drawn

  lemma FindElement<T(!new)>(s: seq<T>, x: T) returns (j: nat)
    requires x in multiset(s)
    ensures j < |s| && s[j] == x
  {
    j :| j < |s| && s[j] == x;
  }

  lemma SwappedParts<T(!new)>(s: seq<T>, i: nat, j: nat)
    requires j <= i < |s|
    ensures Swapped(s, i, j)[i] == s[j] && Swapped(s, i, j)[i + 1..] == s[i + 1..]
    ensures Swapped(s, i, j)[..i + 1] == Swapped(s[..i + 1], i, j)
  {}

  lemma LastApart<T(!new)>(a: seq<T>, i: nat)
    requires i < |a|
    ensures multiset(a[..i + 1]) == multiset(a[..i]) + multiset{a[i]}
  {
    assert a[..i + 1] == a[..i] + [a[i]];
  }

  lemma SwapPrefix<T(!new)>(s: seq<T>, p: seq<T>, i: nat, j: nat)
    requires j <= i < |s| == |p| && s[j] == p[i]
    requires multiset(s[..i + 1]) == multiset(p[..i + 1])
    ensures |Swapped(s, i, j)| == |s| && Swapped(s, i, j)[i] == p[i] && Swapped(s, i, j)[i + 1..] == s[i + 1..]
    ensures multiset(Swapped(s, i, j)[..i]) == multiset(p[..i])
  {
    hide Swapped;
    var t := Swapped(s, i, j);
    SwappedParts(s, i, j);
    SwapPermutes(s[..i + 1], i, j);
    LastApart(t, i);
    LastApart(p, i);
    assert multiset(t[..i]) == multiset(t[..i + 1]) - multiset{p[i]};
    assert multiset(p[..i]) == multiset(p[..i + 1]) - multiset{p[i]};
  }

  lemma {:induction false} SameDrawsBelow<T(!new)>(s: seq<T>, c: seq<nat>, d: seq<nat>, i: nat)
    requires i < |s| == |c| == |d| && InRange(c) && InRange(d) && c[..i + 1] == d[..i + 1]
    ensures ShuffledFrom(s, c, i) == ShuffledFrom(s, d, i)
    decreases i
  {
    if i > 0 {
      assert c[i] == c[..i + 1][i] == d[..i + 1][i] == d[i];
      assert c[..i] == c[..i + 1][..i] == d[..i + 1][..i] == d[..i];
      SameDrawsBelow(Swapped(s, i, c[i]), c, d, i - 1);
    }
  }

  /** Draws that lead on from the swapped sequence lead from the original once position `i` draws `j`. */
  lemma PrependDraw<T(!new)>(s: seq<T>, p: seq<T>, rest: seq<nat>, i: nat, j: nat)
    requires 0 < i < |s| == |rest| && j <= i && InRange(rest)
    requires ShuffledFrom(Swapped(s, i, j), rest, i - 1) == p
    ensures InRange(rest[i := j]) && ShuffledFrom(s, rest[i := j], i) == p
  {
    var draws := rest[i := j];
    assert draws[..i - 1 + 1] == rest[..i - 1 + 1];
    SameDrawsBelow(Swapped(s, i, j), draws, rest, i - 1);
  }

  lemma {:induction false} DrawsFor<T(!new)>(s: seq<T>, p: seq<T>, i: nat) returns (draws: seq<nat>)
    requires i < |s| == |p|
    requires multiset(s[..i + 1]) == multiset(p[..i + 1]) && s[i + 1..] == p[i + 1..]
    ensures |draws| == |s| && InRange(draws) && ShuffledFrom(s, draws, i) == p
    decreases i
  {
    hide Swapped;
    assert p[i] in multiset(p[..i + 1]) by { assert p[..i + 1][i] == p[i]; }
    var j := FindElement(s[..i + 1], p[i]);
    SwapPrefix(s, p, i, j);
    if i == 0 {
      draws := seq(|s|, _ => 0);
      assert s[0] == p[0] && s == [s[0]] + s[1..] && p == [p[0]] + p[1..];
    } else {
      var t := Swapped(s, i, j);
      assert t[i - 1 + 1..] == [p[i]] + t[i + 1..] == [p[i]] + p[i + 1..] == p[i - 1 + 1..];
      assert t[..i - 1 + 1] == t[..i] && p[..i - 1 + 1] == p[..i];
      var rest := DrawsFor(t, p, i - 1);
      PrependDraw(s, p, rest, i, j);
      draws := rest[i := j];
    }
  }

  /** On distinct elements each arrangement comes from exactly one sequence of draws. */
  lemma EachArrangementOnce<T(!new)>(s: seq<T>, p: seq<T>)
    requires Distinct(s) && multiset(p) == multiset(s)
    ensures exists draws ::
              && |draws| == |s| && InRange(draws) && Shuffled(s, draws) == p
              && forall other :: |other| == |s| && InRange(other) && Shuffled(s, other) == p ==> other == draws
  {
    assert |p| == |multiset(p)| == |multiset(s)| == |s|;
    if s == [] {
      assert Shuffled(s, []) == p;
    } else {
      var n := |s| - 1;
      assert s[..n + 1] == s && p[..n + 1] == p && s[n + 1..] == [] == p[n + 1..];
      var draws := DrawsFor(s, p, n);
      assert Shuffled(s, draws) == p;
      forall other | |other| == |s| && InRange(other) && Shuffled(s, other) == p ensures other == draws {
        ArrangementTellsDraws(s, other, draws, n);
        assert other[..n + 1] == other && draws[..n + 1] == draws;
      }
    }
  }
}
