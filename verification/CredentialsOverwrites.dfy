/** Credential overwrites and their inheritance along `extends` (packages/cli/src/credentials-overwrites.ts). */
module CredentialsOverwrites {
  import opened Wrappers
  import opened CredentialTypes

  datatype FieldValue = Undefined | Null | Text(text: string) | Other(token: int)

  type Fields = map<string, FieldValue>

  type Overwrites = map<TypeName, Fields>

  // ---------------------------------------------------------------- resolution as functions

  function Own(data: Overwrites, t: TypeName): Fields {
    if t in data then data[t] else map[]
  }

  /** `Object.assign(acc, ...)` over the entries of `types`, in order; types without an entry are filtered out. */
  function AssignAll(acc: Fields, data: Overwrites, types: seq<TypeName>): Fields
    decreases |types|
  {
    if types == [] then acc
    else AssignAll(if types[0] in data then acc + data[types[0]] else acc, data, types[1..])
  }

  function Reversed<T>(s: seq<T>): seq<T> {
    if s == [] then [] else Reversed(s[1..]) + [s[0]]
  }

  /** The lazy resolver `get`: the type and its parent list, reversed and merged. */
  ghost function Get(reg: Registry, data: Overwrites, name: TypeName): Fields
    requires Acyclic(reg)
  {
    AssignAll(map[], data, Reversed([name] + ParentList(reg, name)))
  }

  /** The eager resolver `getOverwrites`, with the resolved-types cache it is given and the one it leaves. */
  ghost function Resolve(reg: Registry, data: Overwrites, cache: seq<TypeName>, t: TypeName)
    : (Option<Fields>, seq<TypeName>)
    requires Acyclic(reg)
    decreases Rank(reg, t), 1
  {
    if t in cache then (Entry(data, t), cache)
    else if t !in reg then (None, cache)
    else if reg[t].None? then (Entry(data, t), cache + [t])
    else
      ParentsRankLower(reg, t);
      var (inherited, after) := ResolveParents(reg, data, cache, reg[t].value, Rank(reg, t));
      (Some(inherited + Own(data, t)), after + [t])
  }

  /** The parents of one type resolved one after the other and merged. */
  ghost function ResolveParents(reg: Registry, data: Overwrites, cache: seq<TypeName>, parents: seq<TypeName>,
                                bound: nat): (Fields, seq<TypeName>)
    requires Acyclic(reg) && forall p :: p in parents ==> Rank(reg, p) < bound
    decreases bound, 0, |parents|
  {
    if parents == [] then (map[], cache)
    else
      var n := |parents| - 1;
      var (merged, mid) := ResolveParents(reg, data, cache, parents[..n], bound);
      var (last, after) := Resolve(reg, data, mid, parents[n]);
      (merged + last.GetOr(map[]), after)
  }

  function Entry(data: Overwrites, t: TypeName): Option<Fields> {
    if t in data then Some(data[t]) else None
  }

  ghost predicate Enumerates(order: seq<TypeName>, data: Overwrites) {
    forall t :: t in order <==> t in data
  }

  /** `setPlainData` over the keys in the order in which they are enumerated. */
  ghost function SetPlain(reg: Registry, data: Overwrites, order: seq<TypeName>): (Overwrites, seq<TypeName>)
    requires Acyclic(reg)
  {
    if order == [] then (data, [])
    else
      var n := |order| - 1;
      var (current, cache) := SetPlain(reg, data, order[..n]);
      var (r, after) := Resolve(reg, current, cache, order[n]);
      (if r.Some? && |r.value| > 0 then current[order[n] := r.value] else current, after)
  }

  // ---------------------------------------------------------------- the reference: nearest ancestor first

  /** The value of `key` on the nearest of `t` and its ancestors that sets it. */
  ghost function Lookup(reg: Registry, data: Overwrites, t: TypeName, key: string): Option<FieldValue>
    requires Acyclic(reg)
    decreases Rank(reg, t)
  {
    ParentsRankLower(reg, t);
    if key in Own(data, t) then Some(Own(data, t)[key])
    else if Parents(reg, t) == [] then None
    else Lookup(reg, data, Parents(reg, t)[0], key)
  }

  ghost predicate SameAsLookup(reg: Registry, data: Overwrites, t: TypeName, fields: Fields)
    requires Acyclic(reg)
  {
    forall key :: (key in fields <==> Lookup(reg, data, t, key).Some?)
                  && (key in fields ==> Lookup(reg, data, t, key) == Some(fields[key]))
  }

  // ---------------------------------------------------------------- get is nearest ancestor first

  /** The first of `types` that sets `key` decides. */
  function FirstToSet(data: Overwrites, types: seq<TypeName>, key: string): Option<FieldValue> {
    if types == [] then None
    else if key in Own(data, types[0]) then Some(Own(data, types[0])[key])
    else FirstToSet(data, types[1..], key)
  }

  lemma {:induction false} AssignAllAppend(acc: Fields, data: Overwrites, types: seq<TypeName>, t: TypeName)
    ensures AssignAll(acc, data, types + [t]) == AssignAll(acc, data, types) + Own(data, t)
    decreases |types|
  {
    if types == [] {
      assert ([t])[1..] == [];
      assert acc + map[] == acc;
      assert types + [t] == [t];
    } else {
      assert (types + [t])[1..] == types[1..] + [t];
      AssignAllAppend(if types[0] in data then acc + data[types[0]] else acc, data, types[1..], t);
    }
  }

  lemma {:induction false} ReversedMergeIsFirstToSet(data: Overwrites, types: seq<TypeName>, key: string)
    ensures var fields := AssignAll(map[], data, Reversed(types));
            && (key in fields <==> FirstToSet(data, types, key).Some?)
            && (key in fields ==> FirstToSet(data, types, key) == Some(fields[key]))
  {
    if types != [] {
      ReversedMergeIsFirstToSet(data, types[1..], key);
      AssignAllAppend(map[], data, Reversed(types[1..]), types[0]);
    }
  }

  lemma {:induction false} LaterRepeatsDecideNothing(data: Overwrites, a: seq<TypeName>, b: seq<TypeName>, key: string)
    requires FirstToSet(data, a, key).None? ==> FirstToSet(data, b, key).None?
    ensures FirstToSet(data, a + b, key) == FirstToSet(data, a, key)
  {
    if a == [] {
      assert a + b == b;
    } else {
      assert (a + b)[1..] == a[1..] + b;
      if key !in Own(data, a[0]) {
        LaterRepeatsDecideNothing(data, a[1..], b, key);
      }
    }
  }

  lemma {:induction false} UnsetEverywhere(data: Overwrites, types: seq<TypeName>, key: string)
    ensures FirstToSet(data, types, key).None? <==> forall x :: x in types ==> key !in Own(data, x)
  {
    if types != [] {
      UnsetEverywhere(data, types[1..], key);
      assert types == [types[0]] + types[1..];
    }
  }

  lemma {:induction false} ListLookup(reg: Registry, data: Overwrites, t: TypeName, key: string)
    requires Acyclic(reg) && SingleParent(reg)
    ensures FirstToSet(data, [t] + ParentList(reg, t), key) == Lookup(reg, data, t, key)
    decreases Rank(reg, t)
  {
    hide Acyclic, Rank, ParentList;
    ParentsRankLower(reg, t);
    var list := ParentList(reg, t);
    assert ([t] + list)[1..] == list;
    if Parents(reg, t) == [] {
      NoParentsNoList(reg, t);
    } else {
      var p, repeats := SingleParentList(reg, t);
      var own := [p] + ParentList(reg, p);
      UnsetEverywhere(data, own, key);
      UnsetEverywhere(data, repeats, key);
      LaterRepeatsDecideNothing(data, own, repeats, key);
      ListLookup(reg, data, p, key);
    }
  }

  lemma NoParentsNoList(reg: Registry, t: TypeName)
    requires Acyclic(reg) && Parents(reg, t) == []
    ensures ParentList(reg, t) == []
  {}

  /** On any data, `get` returns the nearest-ancestor-first value of every key. */
  lemma GetIsLookup(reg: Registry, data: Overwrites, t: TypeName)
    requires Acyclic(reg) && SingleParent(reg)
    ensures SameAsLookup(reg, data, t, Get(reg, data, t))
  {
    hide Acyclic, Rank, ParentList, Lookup, AssignAll, FirstToSet;
    forall key
      ensures (key in Get(reg, data, t) <==> Lookup(reg, data, t, key).Some?)
           && (key in Get(reg, data, t) ==> Lookup(reg, data, t, key) == Some(Get(reg, data, t)[key]))
    {
      ListLookup(reg, data, t, key);
      ReversedMergeIsFirstToSet(data, [t] + ParentList(reg, t), key);
    }
  }

  // ---------------------------------------------------------------- the eager pass changes no effective value

  /** Every entry holds what it held originally and otherwise only what it inherits. */
  ghost predicate Between(reg: Registry, orig: Overwrites, data: Overwrites)
    requires Acyclic(reg)
  {
    && data.Keys == orig.Keys
    && forall t :: t in data ==> HoldsAndInherits(reg, orig, t, data[t])
  }

  ghost predicate HoldsAndInherits(reg: Registry, orig: Overwrites, t: TypeName, fields: Fields)
    requires Acyclic(reg)
  {
    && (forall key :: key in Own(orig, t) ==> key in fields)
    && (forall key :: key in fields ==> Lookup(reg, orig, t, key) == Some(fields[key]))
  }

  lemma {:induction false} BetweenLookup(reg: Registry, orig: Overwrites, data: Overwrites, t: TypeName, key: string)
    requires Acyclic(reg) && Between(reg, orig, data)
    ensures Lookup(reg, data, t, key) == Lookup(reg, orig, t, key)
    decreases Rank(reg, t)
  {
    ParentsRankLower(reg, t);
    if t in data {
      assert HoldsAndInherits(reg, orig, t, data[t]);
    }
    if key !in Own(data, t) && Parents(reg, t) != [] {
      BetweenLookup(reg, orig, data, Parents(reg, t)[0], key);
    }
  }

  lemma {:induction false} ResolveHoldsAndInherits(
    reg: Registry, orig: Overwrites, data: Overwrites, cache: seq<TypeName>, t: TypeName)
    requires Acyclic(reg) && SingleParent(reg) && Between(reg, orig, data)
    ensures Resolve(reg, data, cache, t).0.Some? ==>
            HoldsAndInherits(reg, orig, t, Resolve(reg, data, cache, t).0.value)
    decreases Rank(reg, t)
  {
    ParentsRankLower(reg, t);
    if t !in cache && t in reg && reg[t].Some? && reg[t].value != [] {
      var p := reg[t].value[0];
      assert Parents(reg, t) == [p];
      ResolveHoldsAndInherits(reg, orig, data, cache, p);
      OneParentResolved(reg, data, cache, p, Rank(reg, t));
      if t in data {
        assert HoldsAndInherits(reg, orig, t, data[t]);
      }
    }
  }

  lemma OneParentResolved(reg: Registry, data: Overwrites, cache: seq<TypeName>, p: TypeName, bound: nat)
    requires Acyclic(reg) && Rank(reg, p) < bound
    ensures ResolveParents(reg, data, cache, [p], bound)
         == (Resolve(reg, data, cache, p).0.GetOr(map[]), Resolve(reg, data, cache, p).1)
  {
    hide Acyclic, Rank, Resolve;
    assert [p][..0] == [];
    assert ResolveParents(reg, data, cache, [], bound) == (map[], cache);
    var r := Resolve(reg, data, cache, p).0.GetOr(map[]);
    assert map[] + r == r;
  }

  lemma {:induction false} SetPlainBetween(reg: Registry, orig: Overwrites, order: seq<TypeName>)
    requires Acyclic(reg) && SingleParent(reg) && forall t :: t in order ==> t in orig
    ensures Between(reg, orig, SetPlain(reg, orig, order).0)
  {
    if order == [] {
      forall t | t in orig ensures HoldsAndInherits(reg, orig, t, orig[t]) {}
    } else {
      var n := |order| - 1;
      SetPlainBetween(reg, orig, order[..n]);
      var (current, cache) := SetPlain(reg, orig, order[..n]);
      ResolveHoldsAndInherits(reg, orig, current, cache, order[n]);
    }
  }

  /** Whatever the key order and whatever the cache skipped, the eager pass changes what `get` yields for no type. */
  lemma EffectiveOverwrites(reg: Registry, orig: Overwrites, order: seq<TypeName>, t: TypeName)
    requires Acyclic(reg) && SingleParent(reg) && forall u :: u in order ==> u in orig
    ensures SameAsLookup(reg, orig, t, Get(reg, SetPlain(reg, orig, order).0, t))
    ensures Get(reg, SetPlain(reg, orig, order).0, t) == Get(reg, orig, t)
  {
    hide Acyclic, Rank, Get, SetPlain, Between, Lookup;
    var data := SetPlain(reg, orig, order).0;
    SetPlainBetween(reg, orig, order);
    GetIsLookup(reg, data, t);
    GetIsLookup(reg, orig, t);
    forall key ensures Lookup(reg, data, t, key) == Lookup(reg, orig, t, key) {
      BetweenLookup(reg, orig, data, t, key);
    }
  }

  /** Saving what the first pass left and loading it elsewhere, in any key order, keeps every effective overwrite. */
  lemma ReloadKeepsEffective(reg: Registry, orig: Overwrites, order: seq<TypeName>, reorder: seq<TypeName>, t: TypeName)
    requires Acyclic(reg) && SingleParent(reg)
    requires forall u :: u in order ==> u in orig
    requires forall u :: u in reorder ==> u in SetPlain(reg, orig, order).0
    ensures Get(reg, SetPlain(reg, SetPlain(reg, orig, order).0, reorder).0, t) == Get(reg, orig, t)
  {
    EffectiveOverwrites(reg, orig, order, t);
    EffectiveOverwrites(reg, SetPlain(reg, orig, order).0, reorder, t);
  }

  // ---------------------------------------------------------------- where the two resolvers part

  ghost predicate TwoRootParents(reg: Registry, t: TypeName, a: TypeName, b: TypeName) {
    && Acyclic(reg) && {t, a, b} <= reg.Keys && a != b
    && reg[t] == Some([a, b]) && reg[a] == None && reg[b] == None
  }

  /**
   * With two root parents the eager resolver lets the later one win and `get` the earlier one, so, in any key order,
   * the eager pass changes the effective value exactly when both parents set the key, differently.
   */
  lemma TwoParentsRankedOppositely(reg: Registry, data: Overwrites, order: seq<TypeName>,
                                   t: TypeName, a: TypeName, b: TypeName, key: string)
    requires TwoRootParents(reg, t, a, b) && data.Keys <= {t, a, b} && Enumerates(order, data)
    requires t in data && key !in data[t]
    ensures var after := Get(reg, SetPlain(reg, data, order).0, t);
            var before := Get(reg, data, t);
            && (key in after <==> key in before)
            && (key in before ==>
                  (after[key] != before[key] <==>
                     key in Own(data, a) && key in Own(data, b) && Own(data, a)[key] != Own(data, b)[key]))
  {
    hide Acyclic, Rank, SetPlain, ParentList;
    RootsList(reg, t, a, b);
    TwoRootsSetPlain(reg, data, order, t, a, b);
    var data' := SetPlain(reg, data, order).0;
    ReversedMergeIsFirstToSet(data, [t, a, b], key);
    ReversedMergeIsFirstToSet(data', [t, a, b], key);
    assert [t] + ParentList(reg, t) == [t, a, b];
    assert [t, a, b][1..] == [a, b] && [a, b][1..] == [b] && [b][1..] == [];
    assert FirstToSet(data, [b], key) == if key in Own(data, b) then Some(Own(data, b)[key]) else None;
    assert FirstToSet(data', [b], key) == if key in Own(data', b) then Some(Own(data', b)[key]) else None;
  }

  lemma RootsAppendNothing(reg: Registry, a: TypeName, b: TypeName, bound: nat)
    requires Acyclic(reg) && Parents(reg, a) == [] && Parents(reg, b) == []
    requires RanksBelow(reg, [a, b], bound)
    ensures Appended(reg, [a, b], bound) == []
  {
    hide Rank, Acyclic, Appended, Visited;
    NoParentsNoList(reg, a);
    NoParentsNoList(reg, b);
    NothingAppends(reg, bound);
    AppendedNext(reg, [a, b], 0, bound);
    AppendedNext(reg, [a, b], 1, bound);
    assert [a, b][..0] == [] && [a, b][..2] == [a, b];
  }

  lemma NothingVisited(reg: Registry, bound: nat)
    requires Acyclic(reg)
    ensures Visited(reg, [], bound) == []
  {}

  lemma RootsList(reg: Registry, t: TypeName, a: TypeName, b: TypeName)
    requires TwoRootParents(reg, t, a, b)
    ensures ParentList(reg, t) == [a, b]
  {
    hide Rank, Acyclic, Appended, Visited;
    ParentsRankLower(reg, t);
    var bound := Rank(reg, t);
    assert Parents(reg, t) == [a, b];
    assert a in Parents(reg, t) && b in Parents(reg, t);
    RootsAppendNothing(reg, a, b, bound);
    RoundIsPrefix(reg, [a, b], bound);
    NothingVisited(reg, bound - 1);
  }

  /** A root resolves to its own entry, whether it is cached or not. */
  lemma RootResolved(reg: Registry, data: Overwrites, cache: seq<TypeName>, root: TypeName)
    requires Acyclic(reg) && root in reg && reg[root] == None
    ensures Resolve(reg, data, cache, root) == (Entry(data, root), if root in cache then cache else cache + [root])
    ensures Entry(data, root).GetOr(map[]) == Own(data, root)
  {}

  lemma TwoRootsMerged(reg: Registry, data: Overwrites, cache: seq<TypeName>, t: TypeName, a: TypeName, b: TypeName)
    requires TwoRootParents(reg, t, a, b) && t !in cache
    ensures Resolve(reg, data, cache, t).0 == Some(Own(data, a) + Own(data, b) + Own(data, t))
    ensures forall x :: x in Resolve(reg, data, cache, t).1 <==> x in cache || x in {t, a, b}
  {
    hide Acyclic, Rank;
    ParentsRankLower(reg, t);
    assert Parents(reg, t) == [a, b];
    assert a in Parents(reg, t) && b in Parents(reg, t);
    var bound := Rank(reg, t);
    OneParentResolved(reg, data, cache, a, bound);
    RootResolved(reg, data, cache, a);
    var mid := ResolveParents(reg, data, cache, [a], bound).1;
    RootResolved(reg, data, mid, b);
    assert [a, b][..1] == [a];
  }

  ghost predicate AfterTwoRoots(data: Overwrites, merged: Fields, t: TypeName, seen: bool,
                                after: Overwrites, cache: seq<TypeName>)
  {
    && (t in cache <==> seen)
    && after == if seen && |merged| > 0 then data[t := merged] else data
  }

  lemma TwoRootsStep(reg: Registry, data: Overwrites, current: Overwrites, cache: seq<TypeName>, seen: bool,
                     x: TypeName, t: TypeName, a: TypeName, b: TypeName)
    requires TwoRootParents(reg, t, a, b) && t in data && x in data && x in {t, a, b}
    requires AfterTwoRoots(data, Own(data, a) + Own(data, b) + data[t], t, seen, current, cache)
    ensures var (r, after) := Resolve(reg, current, cache, x);
            AfterTwoRoots(data, Own(data, a) + Own(data, b) + data[t], t, seen || x == t,
                          if r.Some? && |r.value| > 0 then current[x := r.value] else current, after)
  {
    if x != t || seen {
      TwoRootsAgain(reg, current, cache, x, t, a, b);
    } else {
      hide Acyclic, Rank, Resolve;
      TwoRootsMerged(reg, current, cache, t, a, b);
      assert current == data;
    }
  }

  /** A root, or the type itself once it is cached, resolves to its own entry. */
  lemma TwoRootsAgain(reg: Registry, current: Overwrites, cache: seq<TypeName>, x: TypeName,
                      t: TypeName, a: TypeName, b: TypeName)
    requires TwoRootParents(reg, t, a, b) && x in current && x in {t, a, b} && (x == t ==> t in cache)
    ensures Resolve(reg, current, cache, x).0 == Some(current[x]) && current[x := current[x]] == current
    ensures t in Resolve(reg, current, cache, x).1 <==> t in cache
  {
    hide Acyclic, Rank, Resolve;
    if x == t {
      CachedResolved(reg, current, cache, t);
    } else {
      RootResolved(reg, current, cache, x);
    }
  }

  lemma {:induction false} TwoRootsSetPlain(reg: Registry, data: Overwrites, order: seq<TypeName>,
                                            t: TypeName, a: TypeName, b: TypeName)
    requires TwoRootParents(reg, t, a, b) && t in data
    requires forall x :: x in order ==> x in data && x in {t, a, b}
    ensures var (after, cache) := SetPlain(reg, data, order);
            AfterTwoRoots(data, Own(data, a) + Own(data, b) + data[t], t, t in order, after, cache)
  {
    hide Acyclic, Rank, Resolve, AfterTwoRoots;
    if order == [] {
      assert SetPlain(reg, data, []) == (data, []);
      assert AfterTwoRoots(data, Own(data, a) + Own(data, b) + data[t], t, false, data, []) by {
        NothingMergedYet(data, Own(data, a) + Own(data, b) + data[t], t);
      }
    } else {
      var n := |order| - 1;
      assert order == order[..n] + [order[n]];
      TwoRootsSetPlain(reg, data, order[..n], t, a, b);
      var (current, cache) := SetPlain(reg, data, order[..n]);
      TwoRootsStep(reg, data, current, cache, t in order[..n], order[n], t, a, b);
    }
  }

  lemma NothingMergedYet(data: Overwrites, merged: Fields, t: TypeName)
    ensures AfterTwoRoots(data, merged, t, false, data, [])
  {}

  lemma CachedResolved(reg: Registry, data: Overwrites, cache: seq<TypeName>, t: TypeName)
    requires Acyclic(reg) && t in cache
    ensures Resolve(reg, data, cache, t) == (Entry(data, t), cache)
  {}

  /** An entry of its own always wins in the eager resolver. */
  lemma OwnFieldWins(reg: Registry, data: Overwrites, cache: seq<TypeName>, t: TypeName, key: string)
    requires Acyclic(reg) && (t in reg || t in cache) && key in Own(data, t)
    ensures var r := Resolve(reg, data, cache, t).0; r.Some? && key in r.value && r.value[key] == Own(data, t)[key]
  {}

  lemma FirstParentFirst(reg: Registry, t: TypeName)
    requires Acyclic(reg) && Parents(reg, t) != []
    ensures Parents(reg, t) <= ParentList(reg, t) && ParentList(reg, t)[0] == Parents(reg, t)[0]
  {
    hide Acyclic, Rank;
    ParentsRankLower(reg, t);
    assert Parents(reg, t)[0] in Parents(reg, t);
    RoundIsPrefix(reg, Parents(reg, t), Rank(reg, t));
  }

  /** For a type without a field of its own, the last of its parents to set it wins in the eager resolver. */
  lemma LastParentWins(reg: Registry, data: Overwrites, t: TypeName, last: TypeName, key: string)
    requires Acyclic(reg) && Parents(reg, t) != [] && last == Parents(reg, t)[|Parents(reg, t)| - 1]
    requires last in reg && key in Own(data, last) && key !in Own(data, t)
    ensures var r := Resolve(reg, data, [], t).0; r.Some? && key in r.value && r.value[key] == Own(data, last)[key]
  {
    hide Acyclic, Rank;
    ParentsRankLower(reg, t);
    var parents := Parents(reg, t);
    var mid := ResolveParents(reg, data, [], parents[..|parents| - 1], Rank(reg, t)).1;
    OwnFieldWins(reg, data, mid, last, key);
    hide Resolve, Own;
    var (inherited, after) := ResolveParents(reg, data, [], parents, Rank(reg, t));
    assert key in inherited && inherited[key] == Own(data, last)[key];
    ListedResolved(reg, data, t);
  }

  lemma ListedResolved(reg: Registry, data: Overwrites, t: TypeName)
    requires Acyclic(reg) && Parents(reg, t) != []
    ensures forall p :: p in Parents(reg, t) ==> Rank(reg, p) < Rank(reg, t)
    ensures Resolve(reg, data, [], t).0
         == Some(ResolveParents(reg, data, [], Parents(reg, t), Rank(reg, t)).0 + Own(data, t))
  {
    hide Acyclic, Rank;
    ParentsRankLower(reg, t);
  }

  /**
   * Data under which the pass changes the effective value of `key`: the first parent sets it one way, the last another.
   */
  function Contrary(t: TypeName, first: TypeName, last: TypeName, key: string): Overwrites {
    map[t := map[], first := map[key := Other(1)], last := map[key := Other(2)]]
  }

  /**
   * Whenever the first and the last parent of a type differ and the last is recognised, some data lose an effective
   * value.
   */
  lemma SeveralParentsChangeOverwrites(reg: Registry, t: TypeName, first: TypeName, last: TypeName, key: string)
    requires Acyclic(reg) && Parents(reg, t) != []
    requires first == Parents(reg, t)[0] && last == Parents(reg, t)[|Parents(reg, t)| - 1] && first != last
             && last in reg
    ensures var data, order := Contrary(t, first, last, key), [t, first, last];
            && Enumerates(order, data)
            && key in Get(reg, data, t) && Get(reg, data, t)[key] == Other(1)
            && key in Get(reg, SetPlain(reg, data, order).0, t)
            && Get(reg, SetPlain(reg, data, order).0, t)[key] == Other(2)
  {
    hide Acyclic, Rank, Resolve, ParentList, SetPlain, AssignAll;
    var data, order := Contrary(t, first, last, key), [t, first, last];
    ParentsRankLower(reg, t);
    assert first in Parents(reg, t) && last in Parents(reg, t) && t != first && t != last;
    FirstParentFirst(reg, t);
    var list := [t] + ParentList(reg, t);
    assert list[1..][0] == first;
    ReversedMergeIsFirstToSet(data, list, key);
    LastParentWins(reg, data, t, last, key);
    SetPlainNone(reg, data);
    SetPlainStep(reg, data, [], t);
    assert [] + [t] == [t] && [t] + [first, last] == order;
    ResolvedIsCached(reg, data, [], t);
    CachedEntryStays(reg, data, [t], [first, last], t);
    ReversedMergeIsFirstToSet(SetPlain(reg, data, order).0, list, key);
  }

  lemma ResolvedIsCached(reg: Registry, data: Overwrites, cache: seq<TypeName>, t: TypeName)
    requires Acyclic(reg) && t in reg
    ensures t in Resolve(reg, data, cache, t).1
  {}

  /** Every `extends` list names recognised types, none of them twice. */
  ghost predicate WellNamed(reg: Registry) {
    && (forall t, p :: p in Parents(reg, t) ==> p in reg)
    && (forall t, i, j :: 0 <= i < j < |Parents(reg, t)| ==> Parents(reg, t)[i] != Parents(reg, t)[j])
  }

  ghost predicate KeepsEffective(reg: Registry, data: Overwrites, order: seq<TypeName>)
    requires Acyclic(reg)
  {
    forall t :: Get(reg, SetPlain(reg, data, order).0, t) == Get(reg, data, t)
  }

  /**
   * The eager pass keeps every effective overwrite, on all data in every key order, exactly when no type has two
   * parents.
   */
  lemma EffectiveOverwritesIff(reg: Registry)
    requires Acyclic(reg) && WellNamed(reg)
    ensures SingleParent(reg) <==> forall data, order :: Enumerates(order, data) ==> KeepsEffective(reg, data, order)
  {
    hide Acyclic, Rank, Get, SetPlain, Lookup;
    if SingleParent(reg) {
      forall data, order | Enumerates(order, data) ensures KeepsEffective(reg, data, order) {
        forall t ensures Get(reg, SetPlain(reg, data, order).0, t) == Get(reg, data, t) {
          EffectiveOverwrites(reg, data, order, t);
        }
      }
    } else {
      var t :| t in reg && |Parents(reg, t)| > 1;
      var first, last := Parents(reg, t)[0], Parents(reg, t)[|Parents(reg, t)| - 1];
      SeveralParentsChangeOverwrites(reg, t, first, last, "");
      assert !KeepsEffective(reg, Contrary(t, first, last, ""), [t, first, last]);
    }
  }

  // ---------------------------------------------------------------- what an eager entry holds

  /**
   * The types whose entries the eager resolver merges: the chain from `t` up to and including the first cached type.
   */
  ghost function Reach(reg: Registry, cache: seq<TypeName>, t: TypeName): seq<TypeName>
    requires Acyclic(reg)
    decreases Rank(reg, t)
  {
    ParentsRankLower(reg, t);
    if t in cache then [t]
    else if t !in reg then []
    else [t] + if Parents(reg, t) == [] then [] else Reach(reg, cache, Parents(reg, t)[0])
  }

  ghost predicate SameAsFirst(data: Overwrites, types: seq<TypeName>, fields: Fields) {
    forall key :: (key in fields <==> FirstToSet(data, types, key).Some?)
                  && (key in fields ==> FirstToSet(data, types, key) == Some(fields[key]))
  }

  lemma OnlyOwn(data: Overwrites, t: TypeName)
    ensures SameAsFirst(data, [t], Own(data, t)) && SameAsFirst(data, [], map[])
  {
    assert [t][1..] == [];
  }

  lemma OneMoreType(data: Overwrites, t: TypeName, rest: seq<TypeName>, fields: Fields)
    requires SameAsFirst(data, rest, fields)
    ensures SameAsFirst(data, [t] + rest, fields + Own(data, t))
  {
    assert ([t] + rest)[1..] == rest;
  }

  /** The resolver and its chain, one step up. */
  lemma ResolvedThroughParent(reg: Registry, data: Overwrites, cache: seq<TypeName>, t: TypeName, p: TypeName)
    requires Acyclic(reg) && t in reg && t !in cache && Parents(reg, t) == [p]
    ensures Rank(reg, p) < Rank(reg, t)
    ensures Reach(reg, cache, t) == [t] + Reach(reg, cache, p)
    ensures Resolve(reg, data, cache, t)
         == (Some(Resolve(reg, data, cache, p).0.GetOr(map[]) + Own(data, t)), Resolve(reg, data, cache, p).1 + [t])
  {
    hide Acyclic, Rank;
    ParentsRankLower(reg, t);
    assert p in Parents(reg, t);
    OneParentResolved(reg, data, cache, p, Rank(reg, t));
  }

  lemma ResolvedAlone(reg: Registry, data: Overwrites, cache: seq<TypeName>, t: TypeName)
    requires Acyclic(reg) && (t in cache || t !in reg || Parents(reg, t) == [])
    ensures SameAsFirst(data, Reach(reg, cache, t), Resolve(reg, data, cache, t).0.GetOr(map[]))
    ensures forall x :: x in Resolve(reg, data, cache, t).1 <==> x in cache || x in Reach(reg, cache, t)
  {
    hide Acyclic, Rank;
    OnlyOwn(data, t);
    assert map[] + Own(data, t) == Own(data, t);
  }

  /**
   * On single-parent relations, a field is in the result exactly when a type on that chain sets it, the nearest
   * deciding.
   */
  lemma {:induction false} ResolveReaches(reg: Registry, data: Overwrites, cache: seq<TypeName>, t: TypeName)
    requires Acyclic(reg) && SingleParent(reg)
    ensures SameAsFirst(data, Reach(reg, cache, t), Resolve(reg, data, cache, t).0.GetOr(map[]))
    ensures forall x :: x in Resolve(reg, data, cache, t).1 <==> x in cache || x in Reach(reg, cache, t)
    decreases Rank(reg, t)
  {
    hide Acyclic, Rank, Resolve, Reach, SameAsFirst;
    if t in cache || t !in reg || Parents(reg, t) == [] {
      ResolvedAlone(reg, data, cache, t);
    } else {
      var p := Parents(reg, t)[0];
      ResolvedThroughParent(reg, data, cache, t, p);
      ResolveReaches(reg, data, cache, p);
      OneMoreType(data, t, Reach(reg, cache, p), Resolve(reg, data, cache, p).0.GetOr(map[]));
    }
  }

  /** What the pass does next. */
  lemma SetPlainStep(reg: Registry, data: Overwrites, done: seq<TypeName>, t: TypeName)
    requires Acyclic(reg)
    ensures var (current, cache) := SetPlain(reg, data, done);
            var (r, after) := Resolve(reg, current, cache, t);
            SetPlain(reg, data, done + [t])
                == (if r.Some? && |r.value| > 0 then current[t := r.value] else current, after)
  {
    assert (done + [t])[..|done + [t]| - 1] == done;
  }

  lemma {:induction false} CacheGrows(reg: Registry, data: Overwrites, cache: seq<TypeName>, t: TypeName, x: TypeName)
    requires Acyclic(reg) && x in cache
    ensures x in Resolve(reg, data, cache, t).1
    decreases Rank(reg, t), 1
  {
    ParentsRankLower(reg, t);
    if t !in cache && t in reg && reg[t].Some? {
      CacheGrowsOver(reg, data, cache, reg[t].value, Rank(reg, t), x);
    }
  }

  lemma {:induction false} CacheGrowsOver(reg: Registry, data: Overwrites, cache: seq<TypeName>, parents: seq<TypeName>,
                                          bound: nat, x: TypeName)
    requires Acyclic(reg) && x in cache && forall p :: p in parents ==> Rank(reg, p) < bound
    ensures x in ResolveParents(reg, data, cache, parents, bound).1
    decreases bound, 0, |parents|
  {
    if parents != [] {
      var n := |parents| - 1;
      CacheGrowsOver(reg, data, cache, parents[..n], bound, x);
      CacheGrows(reg, data, ResolveParents(reg, data, cache, parents[..n], bound).1, parents[n], x);
    }
  }

  /** Once a type is in the cache, the pass never changes its entry again. */
  lemma {:induction false} CachedEntryStays(reg: Registry, data: Overwrites, done: seq<TypeName>,
                                            todo: seq<TypeName>, t: TypeName)
    requires Acyclic(reg) && t in SetPlain(reg, data, done).1
    ensures t in SetPlain(reg, data, done + todo).1
    ensures Own(SetPlain(reg, data, done + todo).0, t) == Own(SetPlain(reg, data, done).0, t)
    decreases |todo|
  {
    hide Acyclic, Rank, Resolve, SetPlain;
    if todo == [] {
      assert done + todo == done;
    } else {
      var n := |todo| - 1;
      CachedEntryStays(reg, data, done, todo[..n], t);
      assert done + todo == (done + todo[..n]) + [todo[n]];
      SetPlainStep(reg, data, done + todo[..n], todo[n]);
      var (current, cache) := SetPlain(reg, data, done + todo[..n]);
      CacheGrows(reg, current, cache, todo[n], t);
      if todo[n] == t {
        CachedResolved(reg, current, cache, t);
      }
    }
  }

  /**
   * What the pass stores for a recognised type is decided when its turn comes: a field is stored exactly when a type on
   * the chain up to the first cached one sets it by then. No later key changes that.
   */
  lemma StoredEntry(reg: Registry, data: Overwrites, done: seq<TypeName>, t: TypeName, todo: seq<TypeName>)
    requires Acyclic(reg) && SingleParent(reg) && t in reg && t in data
    ensures var (current, cache) := SetPlain(reg, data, done);
            SameAsFirst(current, Reach(reg, cache, t), Own(SetPlain(reg, data, done + [t] + todo).0, t))
  {
    hide Acyclic, Rank, Resolve, SetPlain, Reach;
    var (current, cache) := SetPlain(reg, data, done);
    SetPlainStep(reg, data, done, t);
    ResolvedIsCached(reg, current, cache, t);
    CachedEntryStays(reg, data, done + [t], todo, t);
    ResolveReaches(reg, current, cache, t);
    KeepsEntries(reg, data, done);
    RecognisedResolved(reg, current, cache, t);
  }

  lemma RecognisedResolved(reg: Registry, data: Overwrites, cache: seq<TypeName>, t: TypeName)
    requires Acyclic(reg) && t in reg && t in data
    ensures var r := Resolve(reg, data, cache, t).0; r.Some? && data[t].Keys <= r.value.Keys
  {}

  /** The pass writes only into entries that are there, once it has come to them. */
  lemma {:induction false} KeepsEntries(reg: Registry, data: Overwrites, order: seq<TypeName>)
    requires Acyclic(reg)
    ensures data.Keys <= SetPlain(reg, data, order).0.Keys
    ensures forall x :: x in data && x !in order ==> SetPlain(reg, data, order).0[x] == data[x]
  {
    hide Acyclic, Rank, Resolve;
    if order != [] {
      KeepsEntries(reg, data, order[..|order| - 1]);
      assert order == order[..|order| - 1] + [order[|order| - 1]];
    }
  }

  lemma SetPlainNone(reg: Registry, data: Overwrites)
    requires Acyclic(reg)
    ensures SetPlain(reg, data, []) == (data, [])
  {}

  // ---------------------------------------------------------------- what is in the cache when a turn comes

  /** `x` is `t` or one of its ancestors. */
  ghost predicate AtOrAbove(reg: Registry, t: TypeName, x: TypeName) {
    x == t || IsAncestor(reg, t, x)
  }

  /** With a type, the cache holds its recognised ancestors. */
  ghost predicate ClosedUpwards(reg: Registry, cache: seq<TypeName>) {
    forall c, x :: c in cache && AtOrAbove(reg, c, x) && x in reg ==> x in cache
  }

  lemma {:induction false} ReachCloses(reg: Registry, cache: seq<TypeName>, t: TypeName, x: TypeName)
    requires Acyclic(reg) && SingleParent(reg) && ClosedUpwards(reg, cache) && x !in cache
    ensures x in Reach(reg, cache, t) <==> x in reg && AtOrAbove(reg, t, x) && t !in cache
    decreases Rank(reg, t)
  {
    hide Acyclic, Rank, IsAncestor;
    ParentsRankLower(reg, t);
    if t !in cache && Parents(reg, t) != [] {
      var p := Parents(reg, t)[0];
      ReachCloses(reg, cache, p, x);
      ParentIsAncestor(reg, t, p);
      if IsAncestor(reg, t, x) {
        var q := AncestorThroughParent(reg, t, x);
      }
      if IsAncestor(reg, p, x) {
        AncestorsCompose(reg, t, p, x);
      }
      assert p in cache && AtOrAbove(reg, p, x) ==> x !in reg;
    } else if Parents(reg, t) == [] && IsAncestor(reg, t, x) {
      var q := AncestorThroughParent(reg, t, x);
    }
  }

  /** The cache holds the recognised types among the keys so far and their ancestors. */
  lemma {:induction false} CacheAfter(reg: Registry, data: Overwrites, done: seq<TypeName>, x: TypeName)
    requires Acyclic(reg) && SingleParent(reg)
    ensures x in SetPlain(reg, data, done).1 <==> x in reg && exists t :: t in done && AtOrAbove(reg, t, x)
    decreases |done|, 1
  {
    hide Acyclic, Rank, Resolve, Reach, AtOrAbove;
    if done != [] {
      var n := |done| - 1;
      var (current, cache) := SetPlain(reg, data, done[..n]);
      assert done == done[..n] + [done[n]];
      CacheAfter(reg, data, done[..n], x);
      CacheClosed(reg, data, done[..n]);
      ResolveReaches(reg, current, cache, done[n]);
      if x !in cache {
        ReachCloses(reg, cache, done[n], x);
      }
      CachedAbove(reg, cache, done[n], x);
    }
  }

  lemma CachedAbove(reg: Registry, cache: seq<TypeName>, t: TypeName, x: TypeName)
    requires ClosedUpwards(reg, cache)
    ensures t in cache && AtOrAbove(reg, t, x) && x in reg ==> x in cache
  {}

  lemma CacheClosed(reg: Registry, data: Overwrites, done: seq<TypeName>)
    requires Acyclic(reg) && SingleParent(reg)
    ensures ClosedUpwards(reg, SetPlain(reg, data, done).1)
    decreases |done|, 2
  {
    hide Acyclic, Rank, Resolve, SetPlain, IsAncestor;
    forall c, x | c in SetPlain(reg, data, done).1 && AtOrAbove(reg, c, x) && x in reg
      ensures x in SetPlain(reg, data, done).1
    {
      CacheAfter(reg, data, done, c);
      CacheAfter(reg, data, done, x);
      var t :| t in done && AtOrAbove(reg, t, c);
      if c != t && x != c {
        AncestorsCompose(reg, t, c, x);
      }
      assert AtOrAbove(reg, t, x);
    }
  }

  // ---------------------------------------------------------------- when the stored entries are complete

  /** Some key whose turn has come is `t` or below it, so `t` is in the cache. */
  ghost predicate Passed(reg: Registry, done: seq<TypeName>, t: TypeName) {
    t in reg && exists w :: w in done && AtOrAbove(reg, w, t)
  }

  /** The first type on the chain from `t` that an earlier turn has passed. */
  ghost function Met(reg: Registry, done: seq<TypeName>, t: TypeName): Option<TypeName>
    requires Acyclic(reg)
    decreases Rank(reg, t)
  {
    ParentsRankLower(reg, t);
    if Passed(reg, done, t) then Some(t)
    else if Parents(reg, t) == [] then None
    else Met(reg, done, Parents(reg, t)[0])
  }

  ghost predicate InheritsEntry(reg: Registry, order: seq<TypeName>, c: TypeName) {
    exists g :: g in order && IsAncestor(reg, c, g)
  }

  /**
   * When the turn of `order[z]` comes, its chain meets a type that was passed before its own turn and inherits
   * something.
   */
  ghost predicate MeetsHalfResolved(reg: Registry, order: seq<TypeName>, z: nat)
    requires Acyclic(reg)
  {
    && z < |order| && order[z] !in order[..z]
    && var met := Met(reg, order[..z], order[z]);
       met.Some? && met.value !in order[..z] && InheritsEntry(reg, order, met.value)
  }

  ghost predicate EntriesComplete(reg: Registry, data: Overwrites, order: seq<TypeName>)
    requires Acyclic(reg)
  {
    forall t :: t in order ==> SameAsLookup(reg, data, t, Own(SetPlain(reg, data, order).0, t))
  }

  /** The pass leaves every entry complete, on all data with these keys, exactly when no turn meets such a type. */
  lemma EntriesCompleteIff(reg: Registry, order: seq<TypeName>)
    requires Acyclic(reg) && SingleParent(reg) && WellNamed(reg)
    ensures (forall data :: Enumerates(order, data) ==> EntriesComplete(reg, data, order))
       <==> forall z: nat :: !MeetsHalfResolved(reg, order, z)
  {
    hide Acyclic, Rank, SetPlain, Met, SameAsLookup;
    if z: nat :| MeetsHalfResolved(reg, order, z) {
      var g :| g in order && IsAncestor(reg, Met(reg, order[..z], order[z]).value, g);
      HalfResolvedMisses(reg, order, z, g, "");
    } else {
      forall data | Enumerates(order, data) ensures EntriesComplete(reg, data, order) {
        PrefixComplete(reg, data, order, |order|);
        assert order[..|order|] == order;
      }
    }
  }

  lemma {:induction false} NothingAbove(reg: Registry, data: Overwrites, t: TypeName, key: string)
    requires Acyclic(reg) && forall g :: g in data ==> !IsAncestor(reg, t, g)
    ensures Lookup(reg, data, t, key) == if key in Own(data, t) then Some(Own(data, t)[key]) else None
    decreases Rank(reg, t)
  {
    ParentsRankLower(reg, t);
    if key !in Own(data, t) && Parents(reg, t) != [] {
      var p := Parents(reg, t)[0];
      ParentIsAncestor(reg, t, p);
      forall g | g in data ensures !IsAncestor(reg, p, g) {
        if IsAncestor(reg, p, g) {
          AncestorsCompose(reg, t, p, g);
        }
      }
      NothingAbove(reg, data, p, key);
    }
  }

  /** Entries of keys whose turn has come are complete, the others as they were. */
  ghost predicate CompleteSoFar(reg: Registry, data: Overwrites, current: Overwrites, done: seq<TypeName>)
    requires Acyclic(reg)
  {
    && (forall t :: t in done ==> SameAsLookup(reg, data, t, Own(current, t)))
    && (forall t :: t !in done ==> Own(current, t) == Own(data, t))
  }

  /** The chain to the first cached type holds all that `t` inherits. */
  lemma {:induction false} ReachComplete(reg: Registry, data: Overwrites, order: seq<TypeName>, done: seq<TypeName>,
                                         current: Overwrites, cache: seq<TypeName>, t: TypeName, key: string)
    requires Acyclic(reg) && SingleParent(reg) && WellNamed(reg) && t in reg && Enumerates(order, data)
    requires CompleteSoFar(reg, data, current, done)
    requires forall x :: x in cache <==> Passed(reg, done, x)
    requires Met(reg, done, t).Some? ==>
               Met(reg, done, t).value in done || !InheritsEntry(reg, order, Met(reg, done, t).value)
    ensures FirstToSet(current, Reach(reg, cache, t), key) == Lookup(reg, data, t, key)
    decreases Rank(reg, t)
  {
    hide Acyclic, Rank, IsAncestor, Passed;
    ParentsRankLower(reg, t);
    if t in cache {
      assert Met(reg, done, t) == Some(t) && Reach(reg, cache, t) == [t] && [t][1..] == [];
      if t !in done {
        NothingAbove(reg, data, t, key);
      }
    } else {
      assert t !in done by { DoneIsPassed(reg, done, t); }
      if Parents(reg, t) != [] {
        var p := Parents(reg, t)[0];
        assert p in Parents(reg, t);
        ReachComplete(reg, data, order, done, current, cache, p, key);
        assert ([t] + Reach(reg, cache, p))[1..] == Reach(reg, cache, p);
      } else {
        assert [t] + [] == [t] && [t][1..] == [];
      }
    }
  }

  lemma DoneIsPassed(reg: Registry, done: seq<TypeName>, t: TypeName)
    ensures t in done && t in reg ==> Passed(reg, done, t)
  {
    assert AtOrAbove(reg, t, t);
  }

  lemma {:induction false} PrefixComplete(reg: Registry, data: Overwrites, order: seq<TypeName>, n: nat)
    requires Acyclic(reg) && SingleParent(reg) && WellNamed(reg) && Enumerates(order, data) && n <= |order|
    requires forall z: nat :: !MeetsHalfResolved(reg, order, z)
    ensures CompleteSoFar(reg, data, SetPlain(reg, data, order[..n]).0, order[..n])
  {
    hide Acyclic, Rank, SetPlain, Met, SameAsLookup, Resolve, Lookup;
    if n == 0 {
      assert order[..0] == [];
      SetPlainNone(reg, data);
    } else {
      var done, t := order[..n - 1], order[n - 1];
      PrefixComplete(reg, data, order, n - 1);
      assert order[..n] == done + [t];
      var (current, cache) := SetPlain(reg, data, done);
      SetPlainStep(reg, data, done, t);
      TurnComplete(reg, data, order, n - 1, current, cache);
    }
  }

  lemma TurnComplete(reg: Registry, data: Overwrites, order: seq<TypeName>, z: nat, current: Overwrites,
                     cache: seq<TypeName>)
    requires Acyclic(reg) && SingleParent(reg) && WellNamed(reg) && Enumerates(order, data) && z < |order|
    requires !MeetsHalfResolved(reg, order, z)
    requires (current, cache) == SetPlain(reg, data, order[..z]) && CompleteSoFar(reg, data, current, order[..z])
    ensures SameAsLookup(reg, data, order[z], Own(SetPlain(reg, data, order[..z] + [order[z]]).0, order[z]))
  {
    hide Acyclic, Rank, SetPlain, Met, Resolve, Reach, Lookup, FirstToSet;
    var done, t := order[..z], order[z];
    KeepsEntries(reg, data, done);
    SetPlainStep(reg, data, done, t);
    forall x ensures x in cache <==> Passed(reg, done, x) {
      CacheAfter(reg, data, done, x);
    }
    if t !in reg {
      UnknownComplete(reg, data, current, cache, t);
    } else if t in done {
      DoneIsPassed(reg, done, t);
      CachedEntryStays(reg, data, done, [t], t);
    } else {
      StoredEntry(reg, data, done, t, []);
      assert done + [t] + [] == done + [t];
      forall key ensures FirstToSet(current, Reach(reg, cache, t), key) == Lookup(reg, data, t, key) {
        ReachComplete(reg, data, order, done, current, cache, t, key);
      }
    }
  }

  lemma UnknownComplete(reg: Registry, data: Overwrites, current: Overwrites, cache: seq<TypeName>, t: TypeName)
    requires Acyclic(reg) && t !in reg && t !in cache
    ensures Resolve(reg, current, cache, t) == (None, cache)
    ensures SameAsLookup(reg, data, t, Own(data, t))
  {}

  /** Only `g` sets `key`. */
  function OnlySetBy(order: seq<TypeName>, g: TypeName, key: string): Overwrites {
    map t | t in order :: if t == g then map[key := Other(1)] else map[]
  }

  lemma {:induction false} LookupReaches(reg: Registry, data: Overwrites, t: TypeName, g: TypeName, key: string)
    requires Acyclic(reg) && SingleParent(reg) && IsAncestor(reg, t, g) && key in Own(data, g)
    ensures Lookup(reg, data, t, key).Some?
    decreases Rank(reg, t)
  {
    ParentsRankLower(reg, t);
    var p := AncestorThroughParent(reg, t, g);
    if p != g {
      LookupReaches(reg, data, p, g, key);
    }
  }

  /** Up to a type that was passed before its turn nothing that only its ancestor `g` sets is seen. */
  lemma {:induction false} NotSeen(reg: Registry, done: seq<TypeName>, current: Overwrites, cache: seq<TypeName>,
                                   t: TypeName, g: TypeName, key: string)
    requires Acyclic(reg) && SingleParent(reg) && WellNamed(reg) && t in reg
    requires Met(reg, done, t).Some? && Met(reg, done, t).value !in done && IsAncestor(reg, Met(reg, done, t).value, g)
    requires forall x :: x in cache <==> Passed(reg, done, x)
    requires forall x :: x !in done && x != g ==> key !in Own(current, x)
    ensures FirstToSet(current, Reach(reg, cache, t), key).None?
    ensures IsAncestor(reg, t, g)
    decreases Rank(reg, t)
  {
    hide Acyclic, Rank, IsAncestor, Passed;
    ParentsRankLower(reg, t);
    DoneIsPassed(reg, done, t);
    if t in cache {
      assert Reach(reg, cache, t) == [t] && [t][1..] == [];
    } else {
      var p := Parents(reg, t)[0];
      assert p in Parents(reg, t);
      NotSeen(reg, done, current, cache, p, g, key);
      ParentIsAncestor(reg, t, p);
      AncestorsCompose(reg, t, p, g);
      assert ([t] + Reach(reg, cache, p))[1..] == Reach(reg, cache, p);
    }
    NotItsOwnAncestor(reg, t, g);
  }

  lemma NotItsOwnAncestor(reg: Registry, t: TypeName, g: TypeName)
    requires Acyclic(reg) && IsAncestor(reg, t, g)
    ensures t != g
  {}

  lemma {:induction false} MetIsKnown(reg: Registry, done: seq<TypeName>, t: TypeName)
    requires Acyclic(reg) && Met(reg, done, t).Some?
    ensures t in reg
    decreases Rank(reg, t)
  {}

  lemma TurnMisses(reg: Registry, data: Overwrites, order: seq<TypeName>, z: nat, g: TypeName, key: string)
    requires Acyclic(reg) && SingleParent(reg) && WellNamed(reg) && MeetsHalfResolved(reg, order, z)
    requires g in order && IsAncestor(reg, Met(reg, order[..z], order[z]).value, g)
    requires Enumerates(order, data) && forall x :: x != g ==> key !in Own(data, x)
    ensures var (current, cache) := SetPlain(reg, data, order[..z]);
            FirstToSet(current, Reach(reg, cache, order[z]), key).None?
    ensures IsAncestor(reg, order[z], g) && order[z] in reg
  {
    hide Acyclic, Rank, SetPlain, Met, Reach, FirstToSet, IsAncestor;
    var done, t := order[..z], order[z];
    var (current, cache) := SetPlain(reg, data, done);
    MetIsKnown(reg, done, t);
    UntouchedOwn(reg, data, done);
    forall x ensures x in cache <==> Passed(reg, done, x) {
      CacheAfter(reg, data, done, x);
    }
    hide Passed, Enumerates;
    NotSeen(reg, done, current, cache, t, g, key);
  }

  /** Such a type keeps the entry incomplete under data in which only its ancestor sets a field. */
  lemma HalfResolvedMisses(reg: Registry, order: seq<TypeName>, z: nat, g: TypeName, key: string)
    requires Acyclic(reg) && SingleParent(reg) && WellNamed(reg) && MeetsHalfResolved(reg, order, z)
    requires g in order && IsAncestor(reg, Met(reg, order[..z], order[z]).value, g)
    ensures var data := OnlySetBy(order, g, key);
            && Enumerates(order, data) && Lookup(reg, data, order[z], key).Some?
            && key !in Own(SetPlain(reg, data, order).0, order[z]) && !EntriesComplete(reg, data, order)
  {
    hide *;
    var data := OnlySetBy(order, g, key);
    OnlySetByMeans(order, g, key);
    TurnMisses(reg, data, order, z, g, key);
    InOrder(reg, order, z);
    LookupReaches(reg, data, order[z], g, key);
    StoredEntry(reg, data, order[..z], order[z], order[z + 1..]);
    assert order[..z] + [order[z]] + order[z + 1..] == order;
    var (current, cache) := SetPlain(reg, data, order[..z]);
    UnsetMeans(current, Reach(reg, cache, order[z]), Own(SetPlain(reg, data, order).0, order[z]), key);
    IncompleteMeans(reg, data, order, order[z], key);
  }

  lemma OnlySetByMeans(order: seq<TypeName>, g: TypeName, key: string)
    ensures var data := OnlySetBy(order, g, key);
            && Enumerates(order, data) && (forall x :: x in order ==> x in data)
            && (forall x :: x != g ==> key !in Own(data, x)) && (g in order ==> key in Own(data, g))
  {}

  lemma InOrder(reg: Registry, order: seq<TypeName>, z: nat)
    requires Acyclic(reg) && MeetsHalfResolved(reg, order, z)
    ensures z < |order| && order[z] in order
  {}

  lemma UnsetMeans(data: Overwrites, types: seq<TypeName>, fields: Fields, key: string)
    requires SameAsFirst(data, types, fields)
    ensures key in fields <==> FirstToSet(data, types, key).Some?
  {}

  lemma IncompleteMeans(reg: Registry, data: Overwrites, order: seq<TypeName>, t: TypeName, key: string)
    requires Acyclic(reg) && t in order && Lookup(reg, data, t, key).Some?
             && key !in Own(SetPlain(reg, data, order).0, t)
    ensures !EntriesComplete(reg, data, order)
  {
    hide Acyclic, Rank, SetPlain, Lookup;
  }

  lemma {:induction false} UntouchedOwn(reg: Registry, data: Overwrites, order: seq<TypeName>)
    requires Acyclic(reg) && forall x :: x in order ==> x in data
    ensures forall x :: x !in order ==> Own(SetPlain(reg, data, order).0, x) == Own(data, x)
  {
    hide Acyclic, Rank, Resolve;
    if order != [] {
      UntouchedOwn(reg, data, order[..|order| - 1]);
      assert order == order[..|order| - 1] + [order[|order| - 1]];
    }
  }

  /** In particular every entry is complete when the keys come ancestors first. */
  lemma AncestorsFirstComplete(reg: Registry, data: Overwrites, order: seq<TypeName>)
    requires Acyclic(reg) && SingleParent(reg) && WellNamed(reg) && Enumerates(order, data)
    requires forall z, g :: 0 <= z < |order| && IsAncestor(reg, order[z], g) ==> g in order[..z]
    ensures EntriesComplete(reg, data, order)
  {
    hide Acyclic, Rank, SetPlain, Met, SameAsLookup, IsAncestor;
    forall z: nat ensures !MeetsHalfResolved(reg, order, z) {
      if z < |order| && Met(reg, order[..z], order[z]).Some? {
        MetIsAbove(reg, order[..z], order[z]);
        var met := Met(reg, order[..z], order[z]).value;
        if met == order[z] {
          var w :| w in order[..z] && AtOrAbove(reg, w, met);
          var i :| 0 <= i < z && order[..z][i] == w;
          if w != met {
            assert met in order[..i];
          }
        }
      }
    }
    EntriesCompleteIff(reg, order);
  }

  lemma {:induction false} MetIsAbove(reg: Registry, done: seq<TypeName>, t: TypeName)
    requires Acyclic(reg) && Met(reg, done, t).Some?
    ensures AtOrAbove(reg, t, Met(reg, done, t).value) && Passed(reg, done, Met(reg, done, t).value)
    decreases Rank(reg, t)
  {
    hide Acyclic, Rank, IsAncestor, Passed;
    ParentsRankLower(reg, t);
    if !Passed(reg, done, t) {
      var p := Parents(reg, t)[0];
      MetIsAbove(reg, done, p);
      ParentIsAncestor(reg, t, p);
      if p != Met(reg, done, t).value {
        AncestorsCompose(reg, t, p, Met(reg, done, t).value);
      }
    }
  }

  ghost predicate Chained(reg: Registry, child: TypeName, parent: TypeName, root: TypeName) {
    && Acyclic(reg) && {child, parent, root} <= reg.Keys
    && reg[child] == Some([parent]) && reg[parent] == Some([root]) && reg[root] == None
  }

  /** The chain of a child, before and after a sibling has put the parent into the cache. */
  lemma ChildReach(reg: Registry, cache: seq<TypeName>, child: TypeName, parent: TypeName, root: TypeName)
    requires Chained(reg, child, parent, root) && child !in cache
    ensures Reach(reg, [], child) == [child, parent, root]
    ensures parent in cache ==> Reach(reg, cache, child) == [child, parent]
    ensures child != parent && parent != root && child != root
  {
    hide Acyclic, Rank;
    ParentsRankLower(reg, child);
    ParentsRankLower(reg, parent);
    assert parent in Parents(reg, child) && root in Parents(reg, parent);
    assert Reach(reg, [], root) == [root];
    assert Reach(reg, [], parent) == [parent, root];
  }

  /**
   * Of two siblings whose keys come before their parent's and root's, the first receives what the root sets and the
   * second never does, whatever follows and whether or not the parent has an entry: the parent is cached, its entry
   * still raw.
   */
  lemma SecondSiblingMissesInheritance(reg: Registry, data: Overwrites, first: TypeName, second: TypeName,
                                       parent: TypeName, root: TypeName, key: string, rest: seq<TypeName>)
    requires SingleParent(reg) && Chained(reg, first, parent, root) && Chained(reg, second, parent, root)
             && first != second
    requires {first, second} <= data.Keys
    requires key in Own(data, root) && key !in Own(data, first) && key !in Own(data, second)
             && key !in Own(data, parent)
    ensures key in Own(SetPlain(reg, data, [first, second] + rest).0, first)
    ensures key !in Own(SetPlain(reg, data, [first, second] + rest).0, second)
  {
    hide Acyclic, Rank, Resolve, SetPlain, Reach;
    SetPlainNone(reg, data);
    ChildReach(reg, [], first, parent, root);
    StoredEntry(reg, data, [], first, [second] + rest);
    assert [] + [first] + ([second] + rest) == [first, second] + rest;
    UnsetEverywhere(data, [first, parent, root], key);
    assert root == [first, parent, root][2];
    var (current, cache) := SetPlain(reg, data, [first]);
    AfterFirst(reg, data, first, parent, root);
    ChildReach(reg, cache, second, parent, root);
    KeepsEntries(reg, data, [first]);
    StoredEntry(reg, data, [first], second, rest);
    assert [first] + [second] + rest == [first, second] + rest;
    UntouchedOwn(reg, data, [first]);
    UnsetEverywhere(current, [second, parent], key);
  }

  lemma AfterFirst(reg: Registry, data: Overwrites, first: TypeName, parent: TypeName, root: TypeName)
    requires SingleParent(reg) && Chained(reg, first, parent, root)
    ensures forall x :: x in SetPlain(reg, data, [first]).1 <==> x in [first, parent, root]
  {
    hide Acyclic, Rank, Resolve, SetPlain, Reach;
    SetPlainNone(reg, data);
    SetPlainStep(reg, data, [], first);
    assert [] + [first] == [first];
    ChildReach(reg, [], first, parent, root);
    ResolveReaches(reg, data, [], first);
  }

  // ---------------------------------------------------------------- filling empty fields

  predicate Blank(data: Fields, key: string) {
    key !in data || data[key] in {Null, Undefined, Text("")}
  }

  function Filled(overwrites: Fields, data: Fields): Fields {
    map key | key in data.Keys + overwrites.Keys ::
      if key in overwrites && Blank(data, key) then overwrites[key] else data[key]
  }

  /** A second application changes nothing, and a field that is set is never changed. */
  lemma FillingIsIdempotent(overwrites: Fields, data: Fields)
    ensures Filled(overwrites, Filled(overwrites, data)) == Filled(overwrites, data)
    ensures forall key :: !Blank(data, key) ==>
              key in Filled(overwrites, data) && Filled(overwrites, data)[key] == data[key]
  {
    assert Filled(overwrites, data).Keys == data.Keys + overwrites.Keys;
  }

  /** A missing, null, undefined or empty field takes the overwrite; every other field, and what has none, stays. */
  lemma FilledValues(overwrites: Fields, data: Fields, key: string)
    ensures var filled := Filled(overwrites, data);
            && (key in filled <==> key in data || key in overwrites)
            && (key in overwrites
                && (key !in data || data[key] == Null || data[key] == Undefined || data[key] == Text("")) ==>
                  filled[key] == overwrites[key])
            && (key in data && data[key] != Null && data[key] != Undefined && data[key] != Text("") ==>
                  filled[key] == data[key])
            && (key in data && key !in overwrites ==> filled[key] == data[key])
  {}

  /** With at most one parent per type, a field that is not set takes the value of the nearest type that sets it. */
  lemma FilledFromNearest(reg: Registry, data: Overwrites, t: TypeName, fields: Fields, key: string)
    requires Acyclic(reg) && SingleParent(reg)
    ensures var filled, nearest := Filled(Get(reg, data, t), fields), Lookup(reg, data, t, key);
            && (key !in fields ==>
                  if nearest.Some? then key in filled && filled[key] == nearest.value else key !in filled)
            && (key in fields && nearest.Some? && fields[key] in {Null, Undefined, Text("")} ==>
                  key in filled && filled[key] == nearest.value)
            && (key in fields && (nearest.None? || fields[key] !in {Null, Undefined, Text("")}) ==>
                  key in filled && filled[key] == fields[key])
  {
    hide Acyclic, Get, Lookup, Filled;
    GetIsLookup(reg, data, t);
    FilledValues(Get(reg, data, t), fields, key);
  }

  // ---------------------------------------------------------------- the service

  /** The object that callers share with the service: `setPlainData` writes into it. */
  class OverwriteObject {
    var entries: Overwrites

    constructor (entries: Overwrites)
      ensures this.entries == entries
    {
      this.entries := entries;
    }
  }

  /** The row of the settings table, with encryption and serialisation as identity. */
  class Settings {
    var row: Option<Overwrites>
  }

  class CredentialsOverwrites {
    const types: Registry
    const persistence: bool
    const settings: Settings
    var overwriteData: OverwriteObject
    var resolvedTypes: seq<TypeName>
    var reloading: bool

    constructor (types: Registry, persistence: bool, settings: Settings)
      ensures this.types == types && this.persistence == persistence && this.settings == settings
      ensures fresh(overwriteData) && overwriteData.entries == map[] && resolvedTypes == [] && !reloading
    {
      this.types, this.persistence, this.settings := types, persistence, settings;
      overwriteData := new OverwriteObject(map[]);
      resolvedTypes, reloading := [], false;
    }

    method GetOverwrites(t: TypeName) returns (r: Option<Fields>)
      requires Acyclic(types)
      modifies this`resolvedTypes
      ensures (r, resolvedTypes) == Resolve(types, overwriteData.entries, old(resolvedTypes), t)
      decreases Rank(types, t)
    {
      hide Acyclic, Rank;
      if t in resolvedTypes {
        return Entry(overwriteData.entries, t);
      }
      if t !in types {
        return None;
      }
      if types[t].None? {
        resolvedTypes := resolvedTypes + [t];
        return Entry(overwriteData.entries, t);
      }
      ParentsRankLower(types, t);
      var parents := types[t].value;
      var overwrites: Fields := map[];
      assert parents[..0] == [];
      for i := 0 to |parents|
        invariant (overwrites, resolvedTypes)
               == ResolveParents(types, overwriteData.entries, old(resolvedTypes), parents[..i], Rank(types, t))
      {
        assert parents[..i + 1][..i] == parents[..i];
        var inherited := GetOverwrites(parents[i]);
        overwrites := overwrites + inherited.GetOr(map[]);
      }
      assert parents[..|parents|] == parents;
      if t in overwriteData.entries {
        overwrites := overwrites + overwriteData.entries[t];
      } else {
        assert overwrites + map[] == overwrites;
      }
      resolvedTypes := resolvedTypes + [t];
      return Some(overwrites);
    }

    method SetPlainData(data: OverwriteObject, order: seq<TypeName>)
      requires Acyclic(types) && Enumerates(order, data.entries)
      modifies this, data
      ensures overwriteData == data && reloading == old(reloading)
      ensures (data.entries, resolvedTypes) == SetPlain(types, old(data.entries), order)
    {
      hide Acyclic, Rank, Resolve;
      resolvedTypes := [];
      overwriteData := data;
      assert order[..0] == [];
      for i := 0 to |order|
        invariant overwriteData == data && reloading == old(reloading)
        invariant (data.entries, resolvedTypes) == SetPlain(types, old(data.entries), order[..i])
      {
        assert order[..i + 1][..i] == order[..i];
        var overwrites := GetOverwrites(order[i]);
        if overwrites.Some? && |overwrites.value| > 0 {
          overwriteData.entries := overwriteData.entries[order[i] := overwrites.value];
        }
      }
      assert order[..|order|] == order;
    }

    /** What is stored is the caller's object as the eager pass left it. */
    method SetData(data: OverwriteObject, order: seq<TypeName>, storeInDb: bool)
      requires Acyclic(types) && Enumerates(order, data.entries)
      modifies this, data, settings
      ensures overwriteData == data && reloading == old(reloading)
      ensures (data.entries, resolvedTypes) == SetPlain(types, old(data.entries), order)
      ensures settings.row == if storeInDb && persistence then Some(data.entries) else old(settings.row)
    {
      SetPlainData(data, order);
      if storeInDb && persistence {
        settings.row := Some(data.entries);
      }
    }

    /**
     * With a well-behaved relation the reloaded instance has, for every type, the effective overwrites of the stored
     * data.
     */
    method LoadOverwriteDataFromDB(order: seq<TypeName>)
      requires Acyclic(types) && (settings.row.Some? ==> Enumerates(order, settings.row.value))
      modifies this, settings
      ensures reloading == old(reloading) && settings.row == old(settings.row)
      ensures reloading || settings.row.None? ==>
                overwriteData == old(overwriteData) && resolvedTypes == old(resolvedTypes)
      ensures !reloading && settings.row.Some? ==>
                (overwriteData.entries, resolvedTypes) == SetPlain(types, settings.row.value, order)
      ensures !reloading && settings.row.Some? && SingleParent(types) ==>
                forall t :: Get(types, overwriteData.entries, t) == Get(types, settings.row.value, t)
    {
      if reloading {
        return;
      }
      reloading := true;
      if settings.row.Some? {
        var data := new OverwriteObject(settings.row.value);
        SetData(data, order, false);
        if SingleParent(types) {
          forall t ensures Get(types, overwriteData.entries, t) == Get(types, settings.row.value, t) {
            EffectiveOverwrites(types, settings.row.value, order, t);
          }
        }
      }
      reloading := false;
    }

    /** `get`: the reversed list of the type and its parents, merged. */
    method GetMerged(name: TypeName) returns (acc: Fields)
      requires Acyclic(types)
      ensures acc == Get(types, overwriteData.entries, name)
    {
      hide Acyclic, Rank;
      var parentTypes := GetParentTypes(types, name);
      acc := AssignAll(map[], overwriteData.entries, Reversed([name] + parentTypes));
    }

    /** Empty fields are filled with the effective overwrites; the data handed in are copied, not changed. */
    method ApplyOverwrite(t: TypeName, data: Fields) returns (returnData: Fields)
      requires Acyclic(types)
      ensures returnData == Filled(Get(types, overwriteData.entries, t), data)
    {
      hide Acyclic, Rank;
      var overwrites := GetMerged(t);
      returnData := data;
      var todo := overwrites.Keys;
      while todo != {}
        invariant todo <= overwrites.Keys
        invariant returnData == Filled(map key | key in overwrites.Keys - todo :: overwrites[key], data)
      {
        var key :| key in todo;
        if Blank(returnData, key) {
          returnData := returnData[key := overwrites[key]];
        }
        todo := todo - {key};
      }
      assert (map key | key in overwrites.Keys - todo :: overwrites[key]) == overwrites;
    }
  }
}
