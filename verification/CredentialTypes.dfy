/** Credential types and the `extends` relation between them (packages/cli/src/credential-types.ts). */
module CredentialTypes {
  import opened Wrappers

  type TypeName = string

  /** The recognised types, each with its optional `extends` list. */
  type Registry = map<TypeName, Option<seq<TypeName>>>

  function Parents(reg: Registry, t: TypeName): seq<TypeName> {
    if t in reg then reg[t].GetOr([]) else []
  }

  ghost predicate ExtendsPath(reg: Registry, path: seq<TypeName>) {
    forall i :: 0 <= i < |path| - 1 ==> path[i + 1] in Parents(reg, path[i])
  }

  ghost predicate Connects(reg: Registry, path: seq<TypeName>, t: TypeName, u: TypeName) {
    |path| >= 2 && path[0] == t && path[|path| - 1] == u && ExtendsPath(reg, path)
  }

  /** `u` is a proper ancestor of `t`. */
  ghost predicate IsAncestor(reg: Registry, t: TypeName, u: TypeName) {
    exists path :: Connects(reg, path, t, u)
  }

  /** No type extends itself, directly or not. */
  ghost predicate Acyclic(reg: Registry) {
    forall t :: !IsAncestor(reg, t, t)
  }

  predicate SingleParent(reg: Registry) {
    forall t :: t in reg ==> |Parents(reg, t)| <= 1
  }

  ghost function ParentNames(reg: Registry): set<TypeName> {
    set t, p | t in reg && p in Parents(reg, t) :: p
  }

  ghost function Ancestors(reg: Registry, t: TypeName): set<TypeName> {
    set u | u in ParentNames(reg) && IsAncestor(reg, t, u)
  }

  /** The measure behind every recursion along `extends`. */
  ghost function Rank(reg: Registry, t: TypeName): nat {
    |Ancestors(reg, t)|
  }

  lemma AncestorIsNamed(reg: Registry, t: TypeName, u: TypeName)
    requires IsAncestor(reg, t, u)
    ensures u in Ancestors(reg, t)
  {
    var path :| Connects(reg, path, t, u);
    assert path[|path| - 2 + 1] in Parents(reg, path[|path| - 2]);
  }

  lemma ParentIsAncestor(reg: Registry, t: TypeName, p: TypeName)
    requires p in Parents(reg, t)
    ensures IsAncestor(reg, t, p)
  {
    assert Connects(reg, [t, p], t, p);
  }

  lemma AncestorsCompose(reg: Registry, t: TypeName, u: TypeName, v: TypeName)
    requires IsAncestor(reg, t, u) && IsAncestor(reg, u, v)
    ensures IsAncestor(reg, t, v)
  {
    var a :| Connects(reg, a, t, u);
    var b :| Connects(reg, b, u, v);
    var path := a + b[1..];
    forall i | 0 <= i < |path| - 1 ensures path[i + 1] in Parents(reg, path[i]) {
      if i < |a| - 1 {
        assert path[i] == a[i] && path[i + 1] == a[i + 1];
      } else {
        assert path[i] == b[i - |a| + 1] && path[i + 1] == b[i - |a| + 2];
      }
    }
    assert Connects(reg, path, t, v);
  }

  lemma AncestorThroughParent(reg: Registry, t: TypeName, u: TypeName) returns (p: TypeName)
    requires IsAncestor(reg, t, u)
    ensures p in Parents(reg, t) && (p == u || IsAncestor(reg, p, u))
  {
    var path :| Connects(reg, path, t, u);
    p := path[1];
    assert path[0 + 1] in Parents(reg, path[0]);
    if |path| > 2 {
      assert Connects(reg, path[1..], p, u) by {
        forall i | 0 <= i < |path[1..]| - 1 ensures path[1..][i + 1] in Parents(reg, path[1..][i]) {
          assert path[i + 1 + 1] in Parents(reg, path[i + 1]);
        }
      }
    }
  }

  lemma ParentsRankLower(reg: Registry, t: TypeName)
    requires Acyclic(reg)
    ensures forall p :: p in Parents(reg, t) ==> Rank(reg, p) < Rank(reg, t)
  {
    forall p | p in Parents(reg, t) ensures Rank(reg, p) < Rank(reg, t) {
      ParentIsAncestor(reg, t, p);
      forall u | u in Ancestors(reg, p) ensures u in Ancestors(reg, t) {
        AncestorsCompose(reg, t, p, u);
      }
      AncestorIsNamed(reg, t, p);
      assert p !in Ancestors(reg, p);
      ProperSubsetIsSmaller(Ancestors(reg, p), Ancestors(reg, t));
    }
  }

  lemma ProperSubsetIsSmaller<T>(a: set<T>, b: set<T>)
    requires a < b
    ensures |a| < |b|
  {
    assert b == a + (b - a);
    assert b - a != {};
  }

  ghost predicate RanksBelow(reg: Registry, types: seq<TypeName>, bound: nat) {
    forall i :: 0 <= i < |types| ==> Rank(reg, types[i]) < bound
  }

  /**
   * What `getParentTypes` returns: the direct parents, then everything appended while they and the appended types are
   * visited.
   */
  ghost function ParentList(reg: Registry, t: TypeName): (r: seq<TypeName>)
    requires Acyclic(reg)
    ensures RanksBelow(reg, r, Rank(reg, t))
    decreases Rank(reg, t), 3
  {
    ParentsRankLower(reg, t);
    Visited(reg, Parents(reg, t), Rank(reg, t))
  }

  /** The array once the visit has run to its end, when `round` is what is still to be visited. */
  ghost function Visited(reg: Registry, round: seq<TypeName>, bound: nat): (r: seq<TypeName>)
    requires Acyclic(reg) && RanksBelow(reg, round, bound)
    ensures RanksBelow(reg, r, bound)
    decreases bound, 2
  {
    if round == [] || bound == 0 then round
    else
      round + Visited(reg, Appended(reg, round, bound), bound - 1)
  }

  /** What visiting `round` appends. */
  ghost function Appended(reg: Registry, round: seq<TypeName>, bound: nat): (r: seq<TypeName>)
    requires Acyclic(reg) && RanksBelow(reg, round, bound)
    ensures bound > 0 ==> RanksBelow(reg, r, bound - 1)
    ensures bound == 0 ==> r == []
    decreases bound, 1, |round|
  {
    if round == [] then []
    else
      assert Rank(reg, round[|round| - 1]) < bound;
      Appended(reg, round[..|round| - 1], bound) + ParentList(reg, round[|round| - 1])
  }

  lemma AppendedNext(reg: Registry, round: seq<TypeName>, k: nat, bound: nat)
    requires Acyclic(reg) && RanksBelow(reg, round, bound) && k < |round|
    ensures RanksBelow(reg, round[..k], bound) && RanksBelow(reg, round[..k + 1], bound)
    ensures Appended(reg, round[..k + 1], bound) == Appended(reg, round[..k], bound) + ParentList(reg, round[k])
  {
    hide Rank, Acyclic;
    assert Rank(reg, round[k]) < bound;
    assert round[..k + 1][..k] == round[..k];
  }

  lemma RoundIsPrefix(reg: Registry, round: seq<TypeName>, bound: nat)
    requires Acyclic(reg) && RanksBelow(reg, round, bound) && round != []
    ensures bound > 0
    ensures Visited(reg, round, bound) == round + Visited(reg, Appended(reg, round, bound), bound - 1)
    ensures |Appended(reg, round, bound)| <= |Visited(reg, Appended(reg, round, bound), bound - 1)|
  {
    hide Rank, Acyclic;
    assert Rank(reg, round[0]) < bound;
  }

  lemma NothingAppends(reg: Registry, bound: nat)
    requires Acyclic(reg)
    ensures Appended(reg, [], bound) == []
  {}

  /** Where the visit of a growing array stands: `round` is being walked, at `k`, behind the rounds already `done`. */
  ghost predicate VisitState(reg: Registry, list: seq<TypeName>, arr: seq<TypeName>,
                             done: seq<TypeName>, round: seq<TypeName>, k: nat, bound: nat)
  {
    && Acyclic(reg) && RanksBelow(reg, round, bound) && k <= |round|
    && RanksBelow(reg, round[..k], bound)
    && arr == done + round + Appended(reg, round[..k], bound)
    && list == done + Visited(reg, round, bound)
  }

  lemma VisitNextRound(reg: Registry, list: seq<TypeName>, arr: seq<TypeName>,
                       done: seq<TypeName>, round: seq<TypeName>, bound: nat)
    requires round != [] && VisitState(reg, list, arr, done, round, |round|, bound)
    requires |done| + |round| < |arr|
    ensures Appended(reg, round, bound) != []
    ensures bound > 0 && VisitState(reg, list, arr, done + round, Appended(reg, round, bound), 0, bound - 1)
  {
    hide Rank, Acyclic, Appended, Visited;
    RoundIsPrefix(reg, round, bound);
    NothingAppends(reg, bound - 1);
    var next := Appended(reg, round, bound);
    assert round[..|round|] == round;
    assert next[..0] == [];
    assert done + round + next == (done + round) + next + [];
    assert done + (round + Visited(reg, next, bound - 1)) == (done + round) + Visited(reg, next, bound - 1);
  }

  lemma VisitNextEntry(reg: Registry, list: seq<TypeName>, arr: seq<TypeName>,
                       done: seq<TypeName>, round: seq<TypeName>, k: nat, bound: nat)
    requires k < |round| && VisitState(reg, list, arr, done, round, k, bound)
    ensures arr[|done| + k] == round[k] && Rank(reg, round[k]) < bound
    ensures |done| + k < |list|
    ensures VisitState(reg, list, arr + ParentList(reg, round[k]), done, round, k + 1, bound)
  {
    hide Rank, Acyclic;
    AppendedNext(reg, round, k, bound);
    RoundIsPrefix(reg, round, bound);
    assert arr + ParentList(reg, round[k])
        == done + round + (Appended(reg, round[..k], bound) + ParentList(reg, round[k]));
  }

  lemma VisitEnds(reg: Registry, list: seq<TypeName>, arr: seq<TypeName>,
                  done: seq<TypeName>, round: seq<TypeName>, k: nat, bound: nat)
    requires VisitState(reg, list, arr, done, round, k, bound) && |done| + k == |arr|
    ensures arr == list
  {
    hide Rank, Acyclic;
    assert round[..k] == round;
    assert Appended(reg, round, bound) == [];
    if round != [] {
      RoundIsPrefix(reg, round, bound);
    }
  }

  /** Every appended entry is visited in turn, so the loop walks an array that grows under it. */
  method GetParentTypes(reg: Registry, typeName: TypeName) returns (extendsArrCopy: seq<TypeName>)
    requires Acyclic(reg)
    ensures extendsArrCopy == ParentList(reg, typeName)
    decreases Rank(reg, typeName)
  {
    hide Rank, Acyclic, Appended;
    var extendsArr := Parents(reg, typeName);
    if |extendsArr| == 0 {
      return [];
    }
    extendsArrCopy := extendsArr;
    ParentsRankLower(reg, typeName);
    ghost var list := ParentList(reg, typeName);
    ghost var bound: nat := Rank(reg, typeName);
    ghost var round, done, k := extendsArr, [], 0;
    assert VisitState(reg, list, extendsArrCopy, done, round, k, bound) by {
      assert round[..0] == [];
      NothingAppends(reg, bound);
    }
    var i := 0;
    while i < |extendsArrCopy|
      invariant VisitState(reg, list, extendsArrCopy, done, round, k, bound)
      invariant round != [] && bound <= Rank(reg, typeName) && i == |done| + k <= |extendsArrCopy|
      decreases |list| - i
    {
      if k == |round| {
        VisitNextRound(reg, list, extendsArrCopy, done, round, bound);
        done, round, bound, k := done + round, Appended(reg, round, bound), bound - 1, 0;
      }
      VisitNextEntry(reg, list, extendsArrCopy, done, round, k, bound);
      var more := GetParentTypes(reg, extendsArrCopy[i]);
      extendsArrCopy := extendsArrCopy + more;
      i, k := i + 1, k + 1;
    }
    VisitEnds(reg, list, extendsArrCopy, done, round, k, bound);
  }

  // The elements are exactly the proper ancestors.

  lemma {:induction false} ParentListIsAncestors(reg: Registry, t: TypeName, u: TypeName)
    requires Acyclic(reg)
    ensures u in ParentList(reg, t) <==> IsAncestor(reg, t, u)
    decreases Rank(reg, t), 3
  {
    ParentsRankLower(reg, t);
    VisitedAreAncestors(reg, Parents(reg, t), Rank(reg, t), u);
    if IsAncestor(reg, t, u) {
      var p := AncestorThroughParent(reg, t, u);
    }
    if p :| p in Parents(reg, t) && (p == u || IsAncestor(reg, p, u)) {
      ParentIsAncestor(reg, t, p);
      if p != u {
        AncestorsCompose(reg, t, p, u);
      }
    }
  }

  lemma {:induction false} VisitedAreAncestors(reg: Registry, round: seq<TypeName>, bound: nat, u: TypeName)
    requires Acyclic(reg) && RanksBelow(reg, round, bound)
    ensures u in Visited(reg, round, bound) <==> exists x :: x in round && (x == u || IsAncestor(reg, x, u))
    decreases bound, 2
  {
    if round != [] && bound > 0 {
      var more := Appended(reg, round, bound);
      AppendedAreAncestors(reg, round, bound, u);
      VisitedAreAncestors(reg, more, bound - 1, u);
      if y :| y in more && IsAncestor(reg, y, u) {
        AppendedAreAncestors(reg, round, bound, y);
        var x :| x in round && IsAncestor(reg, x, y);
        AncestorsCompose(reg, x, y, u);
      }
    }
  }

  lemma {:induction false} AppendedAreAncestors(reg: Registry, round: seq<TypeName>, bound: nat, u: TypeName)
    requires Acyclic(reg) && RanksBelow(reg, round, bound)
    ensures u in Appended(reg, round, bound) <==> exists x :: x in round && IsAncestor(reg, x, u)
    decreases bound, 1, |round|
  {
    if round != [] {
      var n := |round| - 1;
      assert Rank(reg, round[n]) < bound;
      AppendedAreAncestors(reg, round[..n], bound, u);
      ParentListIsAncestors(reg, round[n], u);
      assert round == round[..n] + [round[n]];
    }
  }

  // On single-parent relations the first occurrences come nearest first.

  /** The entries of `types` without those that occurred before. */
  function FirstOccurrences(types: seq<TypeName>): seq<TypeName> {
    if types == [] then []
    else
      var r := FirstOccurrences(types[..|types| - 1]);
      if types[|types| - 1] in r then r else r + [types[|types| - 1]]
  }

  /** Parent, grandparent, and so on. */
  ghost function Chain(reg: Registry, t: TypeName): seq<TypeName>
    requires Acyclic(reg)
    decreases Rank(reg, t)
  {
    ParentsRankLower(reg, t);
    if Parents(reg, t) == [] then [] else [Parents(reg, t)[0]] + Chain(reg, Parents(reg, t)[0])
  }

  lemma {:induction false} FirstOccurrencesKeepElements(types: seq<TypeName>, u: TypeName)
    ensures u in FirstOccurrences(types) <==> u in types
  {
    if types != [] {
      FirstOccurrencesKeepElements(types[..|types| - 1], u);
      FirstOccurrencesKeepElements(types[..|types| - 1], types[|types| - 1]);
      assert types == types[..|types| - 1] + [types[|types| - 1]];
    }
  }

  lemma {:induction false} RepeatsDropped(a: seq<TypeName>, b: seq<TypeName>)
    requires forall x :: x in b ==> x in a
    ensures FirstOccurrences(a + b) == FirstOccurrences(a)
  {
    if b == [] {
      assert a + b == a;
    } else {
      var n := |b| - 1;
      assert b == b[..n] + [b[n]];
      assert (a + b)[..|a + b| - 1] == a + b[..n];
      RepeatsDropped(a, b[..n]);
      FirstOccurrencesKeepElements(a, b[n]);
    }
  }

  lemma {:induction false} NewHeadStaysFirst(p: TypeName, a: seq<TypeName>)
    requires p !in a
    ensures FirstOccurrences([p] + a) == [p] + FirstOccurrences(a)
  {
    if a == [] {
      assert FirstOccurrences([p]) == [p];
    } else {
      var n := |a| - 1;
      assert a == a[..n] + [a[n]];
      assert ([p] + a)[..|[p] + a| - 1] == [p] + a[..n];
      NewHeadStaysFirst(p, a[..n]);
    }
  }

  lemma LaterRoundsRepeat(reg: Registry, p: TypeName, bound: nat, x: TypeName)
    requires Acyclic(reg) && RanksBelow(reg, ParentList(reg, p), bound) && bound > 0
    requires x in Visited(reg, Appended(reg, ParentList(reg, p), bound), bound - 1)
    ensures x in ParentList(reg, p)
  {
    hide Rank, Acyclic, Appended, Visited, IsAncestor;
    var own := ParentList(reg, p);
    var more := Appended(reg, own, bound);
    VisitedAreAncestors(reg, more, bound - 1, x);
    var y :| y in more && (y == x || IsAncestor(reg, y, x));
    AppendedAreAncestors(reg, own, bound, y);
    var z :| z in own && IsAncestor(reg, z, y);
    ParentListIsAncestors(reg, p, z);
    AncestorsCompose(reg, p, z, y);
    if y != x {
      AncestorsCompose(reg, p, y, x);
    }
    ParentListIsAncestors(reg, p, x);
  }

  lemma OneEntryAppends(reg: Registry, p: TypeName, bound: nat)
    requires Acyclic(reg) && Rank(reg, p) < bound
    ensures RanksBelow(reg, [p], bound) && Appended(reg, [p], bound) == ParentList(reg, p)
  {
    assert [p][..0] == [] && [p][..1] == [p];
    AppendedNext(reg, [p], 0, bound);
  }

  /** What the visit adds to `own` list when it goes through it again: only repetitions. */
  lemma RevisitRepeats(reg: Registry, p: TypeName, bound: nat) returns (repeats: seq<TypeName>)
    requires Acyclic(reg) && RanksBelow(reg, ParentList(reg, p), bound)
    ensures Visited(reg, ParentList(reg, p), bound) == ParentList(reg, p) + repeats
    ensures forall x :: x in repeats ==> x in ParentList(reg, p)
  {
    hide Rank, Acyclic;
    var own := ParentList(reg, p);
    if own == [] {
      repeats := [];
    } else {
      RoundIsPrefix(reg, own, bound);
      repeats := Visited(reg, Appended(reg, own, bound), bound - 1);
      forall x | x in repeats ensures x in own {
        LaterRoundsRepeat(reg, p, bound, x);
      }
    }
  }

  /** With the one parent `p`, the list is `p`, then `p`'s own list, then only repetitions of that list. */
  lemma SingleParentList(reg: Registry, t: TypeName) returns (p: TypeName, repeats: seq<TypeName>)
    requires Acyclic(reg) && |Parents(reg, t)| == 1
    ensures p == Parents(reg, t)[0]
    ensures ParentList(reg, t) == [p] + ParentList(reg, p) + repeats
    ensures forall x :: x in repeats ==> x in ParentList(reg, p)
  {
    hide Rank, Acyclic, Appended, Visited, IsAncestor;
    ParentsRankLower(reg, t);
    p := Parents(reg, t)[0];
    var bound := Rank(reg, t);
    assert Parents(reg, t) == [p];
    OneEntryAppends(reg, p, bound);
    RoundIsPrefix(reg, [p], bound);
    repeats := RevisitRepeats(reg, p, bound - 1);
    assert [p] + (ParentList(reg, p) + repeats) == [p] + ParentList(reg, p) + repeats;
  }

  lemma {:induction false} NearestAncestorsFirst(reg: Registry, t: TypeName)
    requires Acyclic(reg) && SingleParent(reg)
    ensures FirstOccurrences(ParentList(reg, t)) == Chain(reg, t)
    decreases Rank(reg, t)
  {
    ParentsRankLower(reg, t);
    if Parents(reg, t) == [] {
      assert ParentList(reg, t) == [];
    } else {
      var p, repeats := SingleParentList(reg, t);
      ParentListIsAncestors(reg, p, p);
      assert p !in ParentList(reg, p);
      NewHeadStaysFirst(p, ParentList(reg, p));
      RepeatsDropped([p] + ParentList(reg, p), repeats);
      NearestAncestorsFirst(reg, p);
    }
  }
}
