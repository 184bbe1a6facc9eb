/**
 * Two ways to flatten nested data to dotted keys (`flattenKeys` and `flattenObject`,
 * packages/nodes-base/utils/utilities.ts).
 */
module Flatten {
  import opened Wrappers

  /** A leaf: any defined primitive or null, `undefined`, or a Date with its printed form. */
  datatype Leaf = Scalar(text: string) | Undefined | Date(text: string)

  /** An array is an object whose keys are its indices. */
  datatype Data = Atom(leaf: Leaf) | Object(fields: seq<Field>)

  datatype Field = Field(key: string, value: Data)

  type Flat = map<string, Leaf>

  function Join(path: seq<string>): string {
    if path == [] then "" else if |path| == 1 then path[0] else path[0] + "." + Join(path[1..])
  }

  // ---------------------------------------------------------------- flattenKeys

  /** lodash `merge` of flat objects: a source value replaces, except that `undefined` replaces nothing. */
  function Merge(cum: Flat, next: Flat): Flat {
    map name | name in cum.Keys + next.Keys ::
      if name in next && (next[name] != Undefined || name !in cum) then next[name] else cum[name]
  }

  /** A Date is an object without keys of its own. */
  function FlattenKeys(data: Data, prefix: seq<string>): Flat
    decreases data
  {
    match data
    case Atom(Date(_)) => map[]
    case Atom(leaf) => map[Join(prefix) := leaf]
    case Object(fields) => FlattenFields(fields, prefix)
  }

  /** `reduce` over the fields in order. */
  function FlattenFields(fields: seq<Field>, prefix: seq<string>): Flat
    decreases fields
  {
    if fields == [] then map[]
    else
      var last := fields[|fields| - 1];
      Merge(FlattenFields(fields[..|fields| - 1], prefix), FlattenKeys(last.value, prefix + [last.key]))
  }

  // ---------------------------------------------------------------- flattenObject

  /** `name` goes on below `key`. */
  predicate Below(key: string, name: string) {
    |key| < |name| && name[..|key|] == key && name[|key|] == '.'
  }

  function Prefixed(key: string, flat: Flat): Flat {
    var names := set inner | inner in flat && flat[inner] != Undefined :: key + "." + inner;
    map name | name in names :: flat[name[|key| + 1..]]
  }

  function FlattenedField(field: Field): Flat
    decreases field, 1
  {
    match field.value
    case Atom(Date(text)) => map[field.key := Scalar(text)]
    case Atom(leaf) => map[field.key := leaf]
    case Object(fields) => Prefixed(field.key, FlattenedObject(fields))
  }

  /** What `flattenObject` leaves in `returnData`. */
  function FlattenedObject(fields: seq<Field>): Flat
    decreases fields, 0
  {
    if fields == [] then map[]
    else FlattenedObject(fields[..|fields| - 1]) + FlattenedField(fields[|fields| - 1])
  }

  method FlattenObject(data: seq<Field>) returns (returnData: Flat)
    ensures returnData == FlattenedObject(data)
    decreases data
  {
    hide FlattenedObject, Prefixed;
    returnData := map[];
    NoFields();
    assert data[..0] == [];
    for i := 0 to |data|
      invariant returnData == FlattenedObject(data[..i])
    {
      OneMoreField(data, i);
      var key1, value := data[i].key, data[i].value;
      if value.Object? {
        var flatObject := FlattenObject(value.fields);
        returnData := CopyPrefixed(returnData, key1, flatObject);
      } else if value.leaf.Date? {
        returnData := returnData[key1 := Scalar(value.leaf.text)];
      } else {
        returnData := returnData[key1 := value.leaf];
      }
    }
    assert data[..|data|] == data;
  }

  lemma NoFields()
    ensures FlattenedObject([]) == map[]
  {}

  lemma OneMoreField(data: seq<Field>, i: nat)
    requires i < |data|
    ensures FlattenedObject(data[..i + 1]) == FlattenedObject(data[..i]) + FlattenedField(data[i])
    ensures match data[i].value
            case Atom(Date(text)) => FlattenedField(data[i]) == map[data[i].key := Scalar(text)]
            case Atom(leaf) => FlattenedField(data[i]) == map[data[i].key := leaf]
            case Object(fields) => FlattenedField(data[i]) == Prefixed(data[i].key, FlattenedObject(fields))
  {
    assert data[..i + 1][..i] == data[..i] && data[..i + 1][i] == data[i];
  }

  /** The inner loop: every defined entry of the nested result is copied under the prefixed key. */
  method CopyPrefixed(target: Flat, key1: string, flatObject: Flat) returns (returnData: Flat)
    ensures returnData == target + Prefixed(key1, flatObject)
  {
    hide Prefixed;
    returnData := target;
    var todo := flatObject.Keys;
    ghost var copied: Flat := map[];
    NothingPrefixed(key1);
    while todo != {}
      invariant todo <= flatObject.Keys
      invariant copied.Keys == flatObject.Keys - todo
      invariant forall inner :: inner in copied ==> copied[inner] == flatObject[inner]
      invariant returnData == target + Prefixed(key1, copied)
    {
      var key2 :| key2 in todo;
      CopyOne(key1, copied, key2, flatObject[key2]);
      if flatObject[key2] != Undefined {
        returnData := returnData[key1 + "." + key2 := flatObject[key2]];
      }
      copied := copied[key2 := flatObject[key2]];
      todo := todo - {key2};
    }
    assert copied == flatObject;
  }

  lemma NothingPrefixed(key: string)
    ensures Prefixed(key, map[]) == map[]
  {}

  lemma CopyOne(key: string, copied: Flat, inner: string, leaf: Leaf)
    requires inner !in copied
    ensures Prefixed(key, copied[inner := leaf])
         == if leaf == Undefined then Prefixed(key, copied) else Prefixed(key, copied)[key + "." + inner := leaf]
  {
    hide Prefixed;
    var before, after := Prefixed(key, copied), Prefixed(key, copied[inner := leaf]);
    var expected := if leaf == Undefined then before else before[key + "." + inner := leaf];
    forall name ensures (name in after <==> name in expected) && (name in after ==> after[name] == expected[name]) {
      PrefixedOn(key, copied, name);
      PrefixedOn(key, copied[inner := leaf], name);
      BelowMeans(key, name);
      assert (key + "." + inner)[|key| + 1..] == inner && Below(key, key + "." + inner);
    }
    assert after.Keys == expected.Keys;
  }

  lemma BelowMeans(key: string, name: string)
    ensures Below(key, name) ==> name == key + "." + name[|key| + 1..]
  {}

  /** A prefixed name holds what the inner name held, unless that was `undefined`. */
  lemma PrefixedAt(key: string, flat: Flat, inner: string)
    ensures key + "." + inner in Prefixed(key, flat) <==> inner in flat && flat[inner] != Undefined
    ensures key + "." + inner in Prefixed(key, flat) ==> Prefixed(key, flat)[key + "." + inner] == flat[inner]
  {
    assert (key + "." + inner)[|key| + 1..] == inner;
    if key + "." + inner in Prefixed(key, flat) {
      var x :| x in flat && flat[x] != Undefined && key + "." + inner == key + "." + x;
      assert (key + "." + x)[|key| + 1..] == x;
    }
  }

  lemma PrefixedIsBelow(key: string, flat: Flat, name: string)
    requires name in Prefixed(key, flat)
    ensures Below(key, name)
  {
    var inner :| inner in flat && name == key + "." + inner;
    assert name[..|key|] == key;
  }

  lemma PrefixedOn(key: string, flat: Flat, name: string)
    ensures name in Prefixed(key, flat)
        <==> Below(key, name) && name[|key| + 1..] in flat && flat[name[|key| + 1..]] != Undefined
    ensures name in Prefixed(key, flat) ==> Prefixed(key, flat)[name] == flat[name[|key| + 1..]]
  {
    hide Prefixed;
    BelowMeans(key, name);
    if Below(key, name) {
      PrefixedAt(key, flat, name[|key| + 1..]);
    } else if name in Prefixed(key, flat) {
      PrefixedIsBelow(key, flat, name);
    }
  }

  // ---------------------------------------------------------------- the reference: leaves by path

  function Find(fields: seq<Field>, key: string): Option<Data> {
    if fields == [] then None
    else if fields[|fields| - 1].key == key then Some(fields[|fields| - 1].value)
    else Find(fields[..|fields| - 1], key)
  }

  /** The leaf at the end of a path. */
  function LeafAt(data: Data, path: seq<string>): Option<Leaf>
    decreases |path|
  {
    if path == [] then (if data.Atom? then Some(data.leaf) else None)
    else if data.Atom? then None
    else
      match Find(data.fields, path[0])
      case Some(value) => LeafAt(value, path[1..])
      case None => None
  }

  predicate PlainKey(key: string) {
    '.' !in key
  }

  ghost predicate PlainPath(path: seq<string>) {
    forall i :: 0 <= i < |path| ==> PlainKey(path[i])
  }

  /** Keys differ within an object and contain no dot. */
  ghost predicate Plain(data: Data)
    decreases data
  {
    data.Object? ==> PlainFields(data.fields)
  }

  ghost predicate PlainFields(fields: seq<Field>)
    decreases fields
  {
    fields != [] ==>
      var n := |fields| - 1;
      && PlainFields(fields[..n]) && PlainKey(fields[n].key) && Find(fields[..n], fields[n].key).None?
      && Plain(fields[n].value)
  }

  /** No object has the key `length`, which would make `flattenKeys` treat it as an array. */
  ghost predicate WithoutLength(fields: seq<Field>)
    decreases fields
  {
    forall i :: 0 <= i < |fields| ==> fields[i].key != "length" && NoLengthIn(fields[i].value)
  }

  ghost predicate NoLengthIn(data: Data)
    decreases data
  {
    data.Object? ==> WithoutLength(data.fields)
  }

  // ---------------------------------------------------------------- dotted names identify paths

  /** The position of the first dot, or the length. */
  function FirstDot(s: string): nat {
    if s == "" || s[0] == '.' then 0 else 1 + FirstDot(s[1..])
  }

  lemma {:induction false} FirstDotAfter(key: string, rest: string)
    requires '.' !in key && (rest == "" || rest[0] == '.')
    ensures FirstDot(key + rest) == |key|
  {
    if key == "" {
      assert key + rest == rest;
    } else {
      assert (key + rest)[1..] == key[1..] + rest;
      FirstDotAfter(key[1..], rest);
    }
  }

  lemma JoinHead(p: seq<string>)
    requires p != [] && PlainPath(p)
    ensures FirstDot(Join(p)) == |p[0]| <= |Join(p)| && Join(p)[..|p[0]|] == p[0]
    ensures |p| == 1 <==> |Join(p)| == |p[0]|
    ensures |p| > 1 ==> Join(p)[|p[0]| + 1..] == Join(p[1..])
  {
    assert PlainKey(p[0]);
    if |p| == 1 {
      FirstDotAfter(p[0], "");
      assert p[0] + "" == p[0];
    } else {
      FirstDotAfter(p[0], "." + Join(p[1..]));
      assert Join(p) == p[0] + ("." + Join(p[1..]));
    }
  }

  lemma {:induction false} JoinInjective(p: seq<string>, q: seq<string>)
    requires p != [] && q != [] && PlainPath(p) && PlainPath(q) && Join(p) == Join(q)
    ensures p == q
    decreases |p|
  {
    JoinHead(p);
    JoinHead(q);
    assert p == [p[0]] + p[1..] && q == [q[0]] + q[1..];
    if |p| > 1 {
      assert PlainPath(p[1..]) && PlainPath(q[1..]);
      JoinInjective(p[1..], q[1..]);
    }
  }

  lemma {:induction false} PlainFieldsFind(fields: seq<Field>, key: string)
    requires PlainFields(fields)
    ensures var r := Find(fields, key); r.Some? ==> PlainKey(key) && Plain(r.value)
  {
    if fields != [] && fields[|fields| - 1].key != key {
      PlainFieldsFind(fields[..|fields| - 1], key);
    }
  }

  /** Every path to a leaf of plain data is plain. */
  lemma {:induction false} LeafPathPlain(data: Data, path: seq<string>)
    requires Plain(data) && LeafAt(data, path).Some?
    ensures PlainPath(path)
    decreases |path|
  {
    if path != [] {
      PlainFieldsFind(data.fields, path[0]);
      LeafPathPlain(Find(data.fields, path[0]).value, path[1..]);
      assert forall i :: 0 < i < |path| ==> path[i] == path[1..][i - 1];
    }
  }

  // ---------------------------------------------------------------- flattenKeys holds exactly the leaves

  /** `flat` holds `leaf` under the dotted path below the prefix exactly for the leaves of `data` that are no Dates. */
  ghost predicate HoldsLeaves(data: Data, prefix: seq<string>, flat: Flat) {
    && (forall path, leaf :: LeafAt(data, path) == Some(leaf) && !leaf.Date? ==>
          Join(prefix + path) in flat && flat[Join(prefix + path)] == leaf)
    && (forall name :: name in flat ==> exists path :: NamesLeaf(data, prefix, path, name))
  }

  ghost predicate NamesLeaf(data: Data, prefix: seq<string>, path: seq<string>, name: string) {
    LeafAt(data, path).Some? && !LeafAt(data, path).value.Date? && name == Join(prefix + path)
  }

  lemma {:induction false} KeysHoldLeaves(data: Data, prefix: seq<string>)
    requires Plain(data) && NoLengthIn(data) && PlainPath(prefix) && (prefix != [] || data.Object?)
    ensures HoldsLeaves(data, prefix, FlattenKeys(data, prefix))
    decreases data
  {
    match data
    case Object(fields) => FieldsHoldLeaves(fields, prefix);
    case Atom(leaf) =>
      assert prefix + [] == prefix;
      forall path | LeafAt(data, path).Some? ensures path == [] {}
      if !leaf.Date? {
        assert NamesLeaf(data, prefix, [], Join(prefix));
      }
  }

  lemma {:induction false} FieldsHoldLeaves(fields: seq<Field>, prefix: seq<string>)
    requires PlainFields(fields) && WithoutLength(fields) && PlainPath(prefix)
    ensures HoldsLeaves(Object(fields), prefix, FlattenFields(fields, prefix))
    decreases fields
  {
    if fields != [] {
      var n := |fields| - 1;
      var last := fields[n];
      FieldsHoldLeaves(fields[..n], prefix);
      KeysHoldLeaves(last.value, prefix + [last.key]);
      LastField(fields, prefix, FlattenFields(fields[..n], prefix), FlattenKeys(last.value, prefix + [last.key]));
    } else {
      forall path ensures LeafAt(Object([]), path).None? {}
    }
  }

  /** The leaves of an object are those of the fields before the last and those below the last. */
  lemma LeafSplit(fields: seq<Field>, path: seq<string>)
    requires fields != []
    ensures var n := |fields| - 1;
            LeafAt(Object(fields), path) ==
            if path == [] then None
            else if path[0] == fields[n].key then LeafAt(fields[n].value, path[1..])
            else LeafAt(Object(fields[..n]), path)
  {}

  lemma MergeDisjoint(before: Flat, below: Flat)
    requires before.Keys !! below.Keys
    ensures Merge(before, below) == before + below
  {}

  lemma LeafHeld(data: Data, prefix: seq<string>, flat: Flat, path: seq<string>, leaf: Leaf)
    requires HoldsLeaves(data, prefix, flat) && LeafAt(data, path) == Some(leaf) && !leaf.Date?
    ensures Join(prefix + path) in flat && flat[Join(prefix + path)] == leaf
  {}

  lemma NameHeld(data: Data, prefix: seq<string>, flat: Flat, name: string) returns (path: seq<string>)
    requires HoldsLeaves(data, prefix, flat) && name in flat
    ensures NamesLeaf(data, prefix, path, name)
  {
    path :| NamesLeaf(data, prefix, path, name);
  }

  /** A path below the last field is a path of the object, under the same dotted name. */
  lemma NameBelowLast(fields: seq<Field>, prefix: seq<string>, path: seq<string>, name: string)
    requires fields != []
    requires NamesLeaf(fields[|fields| - 1].value, prefix + [fields[|fields| - 1].key], path, name)
    ensures NamesLeaf(Object(fields), prefix, [fields[|fields| - 1].key] + path, name)
  {
    hide Join;
    var key := fields[|fields| - 1].key;
    LeafSplit(fields, [key] + path);
    assert ([key] + path)[1..] == path;
    assert prefix + ([key] + path) == (prefix + [key]) + path;
  }

  lemma NameBeforeLast(fields: seq<Field>, prefix: seq<string>, path: seq<string>, name: string)
    requires PlainFields(fields) && fields != []
    requires NamesLeaf(Object(fields[..|fields| - 1]), prefix, path, name)
    ensures NamesLeaf(Object(fields), prefix, path, name)
  {
    hide Join;
    FindKnown(fields, path);
    LeafSplit(fields, path);
  }

  lemma LastFieldLeaf(fields: seq<Field>, prefix: seq<string>, before: Flat, below: Flat, path: seq<string>, leaf: Leaf)
    requires fields != [] && before.Keys !! below.Keys
    requires HoldsLeaves(Object(fields[..|fields| - 1]), prefix, before)
    requires HoldsLeaves(fields[|fields| - 1].value, prefix + [fields[|fields| - 1].key], below)
    requires LeafAt(Object(fields), path) == Some(leaf) && !leaf.Date?
    ensures Join(prefix + path) in before + below && (before + below)[Join(prefix + path)] == leaf
  {
    hide Join, HoldsLeaves, LeafAt;
    LeafSplit(fields, path);
    var n := |fields| - 1;
    if path[0] == fields[n].key {
      assert prefix + path == (prefix + [fields[n].key]) + path[1..];
      LeafHeld(fields[n].value, prefix + [fields[n].key], below, path[1..], leaf);
    } else {
      LeafHeld(Object(fields[..n]), prefix, before, path, leaf);
    }
  }

  lemma LastField(fields: seq<Field>, prefix: seq<string>, before: Flat, below: Flat)
    requires PlainFields(fields) && PlainPath(prefix) && fields != []
    requires HoldsLeaves(Object(fields[..|fields| - 1]), prefix, before)
    requires HoldsLeaves(fields[|fields| - 1].value, prefix + [fields[|fields| - 1].key], below)
    ensures HoldsLeaves(Object(fields), prefix, Merge(before, below))
  {
    hide *;
    var n := |fields| - 1;
    var data, merged := Object(fields), before + below;
    DisjointNames(fields, prefix, before, below);
    MergeDisjoint(before, below);
    forall path, leaf | LeafAt(data, path) == Some(leaf) && !leaf.Date?
      ensures Join(prefix + path) in merged && merged[Join(prefix + path)] == leaf
    {
      LastFieldLeaf(fields, prefix, before, below, path, leaf);
    }
    forall name | name in merged ensures exists path :: NamesLeaf(data, prefix, path, name) {
      if name in below {
        var path := NameHeld(fields[n].value, prefix + [fields[n].key], below, name);
        NameBelowLast(fields, prefix, path, name);
      } else {
        var path := NameHeld(Object(fields[..n]), prefix, before, name);
        NameBeforeLast(fields, prefix, path, name);
      }
    }
    HoldsLeavesIntro(data, prefix, merged);
  }

  lemma HoldsLeavesIntro(data: Data, prefix: seq<string>, flat: Flat)
    requires forall path, leaf :: LeafAt(data, path) == Some(leaf) && !leaf.Date? ==>
               Join(prefix + path) in flat && flat[Join(prefix + path)] == leaf
    requires forall name :: name in flat ==> exists path :: NamesLeaf(data, prefix, path, name)
    ensures HoldsLeaves(data, prefix, flat)
  {}

  lemma FindKnown(fields: seq<Field>, path: seq<string>)
    requires PlainFields(fields) && fields != [] && LeafAt(Object(fields[..|fields| - 1]), path).Some?
    ensures path != [] && path[0] != fields[|fields| - 1].key
  {}

  lemma DisjointNames(fields: seq<Field>, prefix: seq<string>, before: Flat, below: Flat)
    requires PlainFields(fields) && PlainPath(prefix) && fields != []
    requires HoldsLeaves(Object(fields[..|fields| - 1]), prefix, before)
    requires HoldsLeaves(fields[|fields| - 1].value, prefix + [fields[|fields| - 1].key], below)
    ensures before.Keys !! below.Keys
  {
    hide *;
    var n := |fields| - 1;
    forall name | name in before ensures name !in below {
      var a := NameHeld(Object(fields[..n]), prefix, before, name);
      if name in below {
        var b := NameHeld(fields[n].value, prefix + [fields[n].key], below, name);
        NamesTell(Object(fields[..n]), prefix, a, name);
        NamesTell(fields[n].value, prefix + [fields[n].key], b, name);
        NamesDiffer(fields, prefix, a, b);
      }
    }
  }

  lemma NamesTell(data: Data, prefix: seq<string>, path: seq<string>, name: string)
    requires NamesLeaf(data, prefix, path, name)
    ensures LeafAt(data, path).Some? && name == Join(prefix + path)
  {}

  /** No dotted name comes both from before the last field and from below it. */
  lemma NamesDiffer(fields: seq<Field>, prefix: seq<string>, a: seq<string>, b: seq<string>)
    requires PlainFields(fields) && PlainPath(prefix) && fields != []
    requires LeafAt(Object(fields[..|fields| - 1]), a).Some? && LeafAt(fields[|fields| - 1].value, b).Some?
    ensures Join(prefix + a) != Join((prefix + [fields[|fields| - 1].key]) + b)
  {
    hide Join, LeafAt;
    var last := fields[|fields| - 1];
    FindKnown(fields, a);
    LeafPathPlain(Object(fields[..|fields| - 1]), a);
    LeafPathPlain(last.value, b);
    var p, q := prefix + a, (prefix + [last.key]) + b;
    assert p[|prefix|] == a[0] && q[|prefix|] == last.key;
    assert PlainPath([last.key]);
    PlainConcat(prefix, a);
    PlainConcat(prefix, [last.key]);
    PlainConcat(prefix + [last.key], b);
    if Join(p) == Join(q) {
      JoinInjective(p, q);
    }
  }

  lemma PlainConcat(a: seq<string>, b: seq<string>)
    requires PlainPath(a) && PlainPath(b)
    ensures PlainPath(a + b)
  {}

  // ------------------------------------------------------------- flattenObject: its own rules for Dates and undefined

  /** What `flattenObject` keeps of a leaf at a path: a Date in print, `undefined` only at the top level. */
  function Kept(path: seq<string>, leaf: Leaf): Option<Leaf> {
    if leaf.Date? then Some(Scalar(leaf.text))
    else if leaf == Undefined && |path| > 1 then None
    else Some(leaf)
  }

  ghost predicate HoldsKept(fields: seq<Field>, flat: Flat) {
    && (forall path, leaf :: LeafAt(Object(fields), path) == Some(leaf) && Kept(path, leaf).Some? ==>
          Join(path) in flat && flat[Join(path)] == Kept(path, leaf).value)
    && (forall name :: name in flat ==> exists path :: NamesKept(fields, path, name))
  }

  ghost predicate NamesKept(fields: seq<Field>, path: seq<string>, name: string) {
    && LeafAt(Object(fields), path).Some? && Kept(path, LeafAt(Object(fields), path).value).Some?
    && name == Join(path)
  }

  lemma {:induction false} ObjectHoldsKept(fields: seq<Field>)
    requires PlainFields(fields)
    ensures HoldsKept(fields, FlattenedObject(fields))
    decreases fields, 1
  {
    if fields == [] {
      forall path ensures LeafAt(Object([]), path).None? {}
    } else {
      var n := |fields| - 1;
      ObjectHoldsKept(fields[..n]);
      FieldHoldsKept(fields[n]);
      LastKept(fields, FlattenedObject(fields[..n]), FlattenedField(fields[n]));
    }
  }

  lemma HoldsKeptIntro(fields: seq<Field>, flat: Flat)
    requires forall path, leaf :: LeafAt(Object(fields), path) == Some(leaf) && Kept(path, leaf).Some? ==>
               Join(path) in flat && flat[Join(path)] == Kept(path, leaf).value
    requires forall name :: name in flat ==> exists path :: NamesKept(fields, path, name)
    ensures HoldsKept(fields, flat)
  {}

  lemma LeafKept(fields: seq<Field>, flat: Flat, path: seq<string>, leaf: Leaf)
    requires HoldsKept(fields, flat) && LeafAt(Object(fields), path) == Some(leaf) && Kept(path, leaf).Some?
    ensures Join(path) in flat && flat[Join(path)] == Kept(path, leaf).value
  {}

  lemma NameKept(fields: seq<Field>, flat: Flat, name: string) returns (path: seq<string>)
    requires HoldsKept(fields, flat) && name in flat
    ensures NamesKept(fields, path, name) && LeafAt(Object(fields), path).Some? && name == Join(path)
    ensures Kept(path, LeafAt(Object(fields), path).value) == Some(flat[name])
  {
    path :| NamesKept(fields, path, name);
  }

  lemma AtomHoldsKept(field: Field)
    requires field.value.Atom?
    ensures HoldsKept([field], FlattenedField(field))
  {
    hide LeafAt;
    OneField(field);
    var key, leaf := field.key, field.value.leaf;
    forall path ensures LeafAt(Object([field]), path) == if path == [key] then Some(leaf) else None {
      if path != [] {
        assert path == [path[0]] + path[1..];
        AtomLeaf(leaf, path[1..]);
      }
      assert [key][1..] == [];
      AtomLeaf(leaf, []);
    }
    assert Join([key]) == key;
    assert NamesKept([field], [key], key);
  }

  lemma AtomLeaf(leaf: Leaf, path: seq<string>)
    ensures LeafAt(Atom(leaf), path) == if path == [] then Some(leaf) else None
  {}

  lemma JoinMore(key: string, rest: seq<string>)
    requires rest != []
    ensures ([key] + rest)[1..] == rest && Join([key] + rest) == key + "." + Join(rest)
  {}

  lemma PrefixedLeaf(field: Field, path: seq<string>, leaf: Leaf)
    requires field.value.Object? && HoldsKept(field.value.fields, FlattenedObject(field.value.fields))
    requires LeafAt(Object([field]), path) == Some(leaf) && Kept(path, leaf).Some?
    ensures Join(path) in FlattenedField(field) && FlattenedField(field)[Join(path)] == Kept(path, leaf).value
  {
    hide LeafAt, Join, HoldsKept, Prefixed, FlattenedObject;
    OneField(field);
    var inner, rest := FlattenedObject(field.value.fields), path[1..];
    assert path == [field.key] + rest;
    NoLeafHere(field.value.fields);
    assert rest != [];
    JoinMore(field.key, rest);
    LeafKept(field.value.fields, inner, rest, leaf);
    PrefixedAt(field.key, inner, Join(rest));
  }

  lemma NoLeafHere(fields: seq<Field>)
    ensures LeafAt(Object(fields), []).None?
  {}

  lemma PrefixedName(field: Field, name: string) returns (path: seq<string>)
    requires field.value.Object? && HoldsKept(field.value.fields, FlattenedObject(field.value.fields))
    requires name in FlattenedField(field)
    ensures NamesKept([field], path, name)
  {
    hide LeafAt, Join, HoldsKept, FlattenedObject;
    OneField(field);
    var inner := FlattenedObject(field.value.fields);
    var x :| x in inner && inner[x] != Undefined && name == field.key + "." + x;
    var rest := NameKept(field.value.fields, inner, x);
    NoLeafHere(field.value.fields);
    path := [field.key] + rest;
    JoinMore(field.key, rest);
    assert LeafAt(Object([field]), path) == LeafAt(field.value, rest);
  }

  lemma {:induction false} FieldHoldsKept(field: Field)
    requires PlainKey(field.key) && Plain(field.value)
    ensures HoldsKept([field], FlattenedField(field))
    decreases field, 2
  {
    if field.value.Atom? {
      AtomHoldsKept(field);
    } else {
      ObjectHoldsKept(field.value.fields);
      hide *;
      forall path, leaf | LeafAt(Object([field]), path) == Some(leaf) && Kept(path, leaf).Some?
        ensures Join(path) in FlattenedField(field) && FlattenedField(field)[Join(path)] == Kept(path, leaf).value
      {
        PrefixedLeaf(field, path, leaf);
      }
      forall name | name in FlattenedField(field) ensures exists path :: NamesKept([field], path, name) {
        var path := PrefixedName(field, name);
      }
      HoldsKeptIntro([field], FlattenedField(field));
    }
  }

  lemma OneField(field: Field)
    ensures forall path :: LeafAt(Object([field]), path)
                        == if path != [] && path[0] == field.key then LeafAt(field.value, path[1..]) else None
  {
    forall path
      ensures LeafAt(Object([field]), path)
           == if path != [] && path[0] == field.key then LeafAt(field.value, path[1..]) else None
    {
      LeafSplit([field], path);
      assert [field][..0] == [];
      assert LeafAt(Object([]), path).None?;
    }
  }

  /** A path before the last field and one through it have different names. */
  lemma LastNameDiffers(fields: seq<Field>, a: seq<string>, b: seq<string>)
    requires PlainFields(fields) && fields != []
    requires LeafAt(Object(fields[..|fields| - 1]), a).Some? && LeafAt(Object([fields[|fields| - 1]]), b).Some?
    ensures Join(a) != Join(b)
  {
    hide LeafAt, Join;
    var last := fields[|fields| - 1];
    OneField(last);
    NamesDiffer(fields, [], a, b[1..]);
    assert b == ([] + [last.key]) + b[1..] && [] + a == a;
  }

  lemma LastKeptLeaf(fields: seq<Field>, before: Flat, below: Flat, path: seq<string>, leaf: Leaf)
    requires PlainFields(fields) && fields != []
    requires HoldsKept(fields[..|fields| - 1], before) && HoldsKept([fields[|fields| - 1]], below)
    requires LeafAt(Object(fields), path) == Some(leaf) && Kept(path, leaf).Some?
    ensures Join(path) in before + below && (before + below)[Join(path)] == Kept(path, leaf).value
  {
    hide LeafAt, Join, HoldsKept, PlainFields;
    var n := |fields| - 1;
    LeafSplit(fields, path);
    OneField(fields[n]);
    if path[0] == fields[n].key {
      LeafKept([fields[n]], below, path, leaf);
    } else {
      LeafKept(fields[..n], before, path, leaf);
      if Join(path) in below {
        var b := NameKept([fields[n]], below, Join(path));
        LastNameDiffers(fields, path, b);
      }
    }
  }

  lemma LastKept(fields: seq<Field>, before: Flat, below: Flat)
    requires PlainFields(fields) && fields != []
    requires HoldsKept(fields[..|fields| - 1], before) && HoldsKept([fields[|fields| - 1]], below)
    ensures HoldsKept(fields, before + below)
  {
    hide *;
    var n := |fields| - 1;
    forall path, leaf | LeafAt(Object(fields), path) == Some(leaf) && Kept(path, leaf).Some?
      ensures Join(path) in before + below && (before + below)[Join(path)] == Kept(path, leaf).value
    {
      LastKeptLeaf(fields, before, below, path, leaf);
    }
    forall name | name in before + below ensures exists path :: NamesKept(fields, path, name) {
      if name in below {
        var path := NameKept([fields[n]], below, name);
        KeptThroughLast(fields, path, name);
      } else {
        var path := NameKept(fields[..n], before, name);
        KeptBeforeLast(fields, path, name);
      }
    }
    HoldsKeptIntro(fields, before + below);
  }

  lemma KeptThroughLast(fields: seq<Field>, path: seq<string>, name: string)
    requires fields != [] && NamesKept([fields[|fields| - 1]], path, name)
    ensures NamesKept(fields, path, name)
  {
    hide LeafAt, Join;
    OneField(fields[|fields| - 1]);
    LeafSplit(fields, path);
  }

  lemma KeptBeforeLast(fields: seq<Field>, path: seq<string>, name: string)
    requires PlainFields(fields) && fields != [] && NamesKept(fields[..|fields| - 1], path, name)
    ensures NamesKept(fields, path, name)
  {
    hide LeafAt, Join;
    FindKnown(fields, path);
    LeafSplit(fields, path);
  }

  // ---------------------------------------------------------------- leaves by position, whatever the keys

  /** The leaf at a position, the indices of the fields that lead to it, if `name` is its dotted name. */
  function LeafNamed(fields: seq<Field>, pos: seq<nat>, name: string): Option<Leaf>
    decreases |pos|, 1
  {
    if pos == [] || pos[0] >= |fields| then None else LeafBelow(fields[pos[0]], pos[1..], name)
  }

  function LeafBelow(field: Field, rest: seq<nat>, name: string): Option<Leaf>
    decreases |rest| + 1, 0
  {
    match field.value
    case Atom(leaf) => if rest == [] && field.key == name then Some(leaf) else None
    case Object(inner) => if Below(field.key, name) then LeafNamed(inner, rest, name[|field.key| + 1..]) else None
  }

  /** `p` comes before `q` in document order. */
  predicate Before(p: seq<nat>, q: seq<nat>) {
    p != [] && q != [] && (p[0] < q[0] || (p[0] == q[0] && Before(p[1..], q[1..])))
  }

  /** `p` comes before `q` inside the object that holds `q`. */
  predicate Precedes(p: seq<nat>, q: seq<nat>) {
    p != [] && q != [] && if |q| == 1 then p[0] < q[0] else p[0] == q[0] && Precedes(p[1..], q[1..])
  }

  predicate IsScalar(leaf: Option<Leaf>) {
    leaf.Some? && leaf.value.Scalar?
  }

  /**
   * A leaf that `flattenObject` writes as a value, and no later `undefined` of the same name in the same object erases.
   */
  ghost predicate Alive(fields: seq<Field>, name: string, p: seq<nat>) {
    var leaf := LeafNamed(fields, p, name);
    && leaf.Some? && leaf != Some(Undefined)
    && forall q :: Precedes(p, q) ==> LeafNamed(fields, q, name) != Some(Undefined)
  }

  function Print(leaf: Leaf): Leaf {
    if leaf.Date? then Scalar(leaf.text) else leaf
  }

  /** The last scalar of the name. */
  ghost predicate LastScalar(fields: seq<Field>, name: string, p: seq<nat>) {
    && IsScalar(LeafNamed(fields, p, name))
    && forall q :: IsScalar(LeafNamed(fields, q, name)) ==> q == p || Before(q, p)
  }

  /** The last leaf of the name that stays alive. */
  ghost predicate LastAlive(fields: seq<Field>, name: string, p: seq<nat>) {
    && Alive(fields, name, p)
    && forall q :: Alive(fields, name, q) ==> q == p || Before(q, p)
  }

  ghost predicate UndefinedSomewhere(fields: seq<Field>, name: string) {
    exists p :: LeafNamed(fields, p, name) == Some(Undefined)
  }

  ghost predicate UndefinedOnTop(fields: seq<Field>, name: string) {
    exists i: nat :: LeafNamed(fields, [i], name) == Some(Undefined)
  }

  // ---------------------------------------------------------------- flattenKeys by position

  /** Every name below a key. */
  function Under(key: string, flat: Flat): Flat {
    var names := set inner | inner in flat :: key + "." + inner;
    map name | name in names :: flat[name[|key| + 1..]]
  }

  lemma UnderAt(key: string, flat: Flat, name: string)
    ensures name in Under(key, flat) <==> Below(key, name) && name[|key| + 1..] in flat
    ensures name in Under(key, flat) ==> Under(key, flat)[name] == flat[name[|key| + 1..]]
  {
    if Below(key, name) {
      assert name == key + "." + name[|key| + 1..];
    }
    if name in Under(key, flat) {
      var inner :| inner in flat && name == key + "." + inner;
      assert name[|key| + 1..] == inner && name[..|key|] == key;
    }
  }

  lemma UnderMerge(key: string, a: Flat, b: Flat)
    ensures Under(key, Merge(a, b)) == Merge(Under(key, a), Under(key, b))
  {
    hide Under;
    forall name
      ensures name in Under(key, Merge(a, b)) <==> name in Merge(Under(key, a), Under(key, b))
      ensures name in Under(key, Merge(a, b)) ==>
                Under(key, Merge(a, b))[name] == Merge(Under(key, a), Under(key, b))[name]
    {
      UnderAt(key, a, name);
      UnderAt(key, b, name);
      UnderAt(key, Merge(a, b), name);
    }
  }

  lemma UnderUnder(outer: string, key: string, flat: Flat)
    ensures Under(outer, Under(key, flat)) == Under(outer + "." + key, flat)
  {
    hide Under;
    forall name
      ensures name in Under(outer, Under(key, flat)) <==> name in Under(outer + "." + key, flat)
      ensures name in Under(outer, Under(key, flat)) ==>
                Under(outer, Under(key, flat))[name] == Under(outer + "." + key, flat)[name]
    {
      UnderAt(outer, Under(key, flat), name);
      UnderAt(outer + "." + key, flat, name);
      if |outer| < |name| {
        UnderAt(key, flat, name[|outer| + 1..]);
      }
      BelowTwice(outer, key, name);
    }
  }

  lemma BelowTwice(outer: string, key: string, name: string)
    ensures Below(outer + "." + key, name) <==> Below(outer, name) && Below(key, name[|outer| + 1..])
    ensures Below(outer + "." + key, name) ==> name[|outer + "." + key| + 1..] == name[|outer| + 1..][|key| + 1..]
  {
    var both := outer + "." + key;
    if Below(both, name) {
      assert name[..|outer|] == name[..|both|][..|outer|] == outer;
      assert name[|outer|] == name[..|both|][|outer|] == '.';
      assert name[|outer| + 1..][..|key|] == name[..|both|][|outer| + 1..] == key;
    }
    if Below(outer, name) && Below(key, name[|outer| + 1..]) {
      assert name[..|both|] == name[..|outer|] + [name[|outer|]] + name[|outer| + 1..][..|key|];
    }
  }

  lemma {:induction false} JoinLast(prefix: seq<string>, key: string)
    ensures Join(prefix + [key]) == if prefix == [] then key else Join(prefix) + "." + key
  {
    if |prefix| > 0 {
      assert (prefix + [key])[1..] == prefix[1..] + [key];
      JoinLast(prefix[1..], key);
    } else {
      assert prefix + [key] == [key];
    }
  }

  /** A prefix only puts all names below it. */
  lemma {:induction false} PrefixOnly(fields: seq<Field>, prefix: seq<string>)
    requires prefix != []
    ensures FlattenFields(fields, prefix) == Under(Join(prefix), FlattenFields(fields, []))
    decreases fields
  {
    if fields != [] {
      var n := |fields| - 1;
      PrefixOnly(fields[..n], prefix);
      FieldUnder(fields[n], prefix);
      UnderMerge(Join(prefix), FlattenFields(fields[..n], []), FlattenKeys(fields[n].value, [fields[n].key]));
      assert [] + [fields[n].key] == [fields[n].key];
    }
  }

  lemma {:induction false} FieldUnder(field: Field, prefix: seq<string>)
    requires prefix != []
    ensures FlattenKeys(field.value, prefix + [field.key]) == Under(Join(prefix), FlattenKeys(field.value, [field.key]))
    decreases field
  {
    JoinLast(prefix, field.key);
    match field.value
    case Atom(leaf) =>
      UnderOne(Join(prefix), field.key, leaf);
    case Object(inner) =>
      PrefixOnly(inner, prefix + [field.key]);
      PrefixOnly(inner, [field.key]);
      UnderUnder(Join(prefix), field.key, FlattenFields(inner, []));
  }

  lemma UnderOne(outer: string, key: string, leaf: Leaf)
    ensures Under(outer, map[key := leaf]) == map[outer + "." + key := leaf]
    ensures Under(outer, map[]) == map[]
  {
    assert (outer + "." + key)[|outer| + 1..] == key;
  }

  /** What the last field adds to `flattenKeys`, and to the leaves of a name. */
  lemma KeysLast(fields: seq<Field>)
    requires fields != []
    ensures var n := |fields| - 1;
            FlattenFields(fields, []) == Merge(FlattenFields(fields[..n], []),
              match fields[n].value
              case Atom(Date(_)) => map[]
              case Atom(leaf) => map[fields[n].key := leaf]
              case Object(inner) => Under(fields[n].key, FlattenFields(inner, [])))
  {
    var last := fields[|fields| - 1];
    assert [] + [last.key] == [last.key];
    if last.value.Object? {
      PrefixOnly(last.value.fields, [last.key]);
    }
  }

  ghost predicate Extends(fields: seq<Field>, init: seq<Field>, last: Field) {
    fields == init + [last]
  }

  /** The leaves of an object by position are those before its last field and those of the last field. */
  lemma SplitLast(fields: seq<Field>, init: seq<Field>, last: Field, name: string)
    requires Extends(fields, init, last)
    ensures forall p {:trigger LeafNamed(fields, p, name)} :: LeafNamed(fields, p, name)
              == if p == [] || p[0] > |init| then None
                 else if p[0] < |init| then LeafNamed(init, p, name)
                 else LeafBelow(last, p[1..], name)
    ensures forall p {:trigger LeafNamed(init, p, name)} :: LeafNamed(init, p, name).Some? ==>
              p != [] && p[0] < |init| && LeafNamed(fields, p, name) == LeafNamed(init, p, name)
  {}

  /** The positions that go through the last field. */
  lemma ThroughLast(fields: seq<Field>, init: seq<Field>, last: Field, name: string, rest: seq<nat>)
    requires Extends(fields, init, last)
    ensures LeafNamed(fields, [|init|] + rest, name) == LeafBelow(last, rest, name)
  {
    assert ([|init|] + rest)[1..] == rest;
  }

  /** The last field is an object, `inner`, in which the name goes on as `rest`. */
  ghost predicate Nests(fields: seq<Field>, init: seq<Field>, field: Field, name: string, inner: seq<Field>,
                        rest: string) {
    && Extends(fields, init, field) && field.value == Object(inner)
    && Below(field.key, name) && rest == name[|field.key| + 1..]
  }

  lemma SplitNested(fields: seq<Field>, init: seq<Field>, field: Field, name: string, inner: seq<Field>, rest: string)
    requires Nests(fields, init, field, name, inner, rest)
    ensures forall p {:trigger LeafNamed(fields, p, name)} :: LeafNamed(fields, p, name)
              == if p == [] || p[0] > |init| then None
                 else if p[0] < |init| then LeafNamed(init, p, name)
                 else LeafNamed(inner, p[1..], rest)
    ensures forall p {:trigger LeafNamed(init, p, name)} :: LeafNamed(init, p, name).Some? ==>
              p != [] && p[0] < |init| && LeafNamed(fields, p, name) == LeafNamed(init, p, name)
    ensures forall p {:trigger LeafNamed(inner, p, rest)} ::
              ([|init|] + p)[1..] == p && LeafNamed(fields, [|init|] + p, name) == LeafNamed(inner, p, rest)
  {
    SplitLast(fields, init, field, name);
    forall p ensures ([|init|] + p)[1..] == p && LeafNamed(fields, [|init|] + p, name) == LeafNamed(inner, p, rest) {
      ThroughLast(fields, init, field, name, p);
    }
  }

  /**
   * What `flattenKeys` holds under a name: the last scalar, or `undefined` when there is no scalar but an `undefined`.
   */
  ghost predicate KeysHold(fields: seq<Field>, name: string, last: Option<seq<nat>>) {
    var keys := FlattenFields(fields, []);
    match last
    case Some(p) => LastScalar(fields, name, p) && name in keys && Some(keys[name]) == LeafNamed(fields, p, name)
    case None =>
      && (forall p :: !IsScalar(LeafNamed(fields, p, name)))
      && (name in keys <==> UndefinedSomewhere(fields, name))
      && (name in keys ==> keys[name] == Undefined)
  }

  lemma {:induction false} KeysByPosition(fields: seq<Field>, name: string) returns (last: Option<seq<nat>>)
    requires WithoutLength(fields)
    ensures KeysHold(fields, name, last)
    decreases fields
  {
    if fields == [] {
      last := None;
    } else {
      var init, field := fields[..|fields| - 1], fields[|fields| - 1];
      last := KeysByPosition(init, name);
      if field.value.Object? && Below(field.key, name) {
        var inner, rest := field.value.fields, name[|field.key| + 1..];
        var below := KeysByPosition(inner, rest);
        last := KeysObject(fields, init, field, name, inner, rest, last, below);
      } else if field.value.Atom? && field.value.leaf.Scalar? && field.key == name {
        last := KeysScalar(fields, init, field, name);
      } else {
        KeysElse(fields, init, field, name, last);
      }
    }
  }

  lemma UndefinedElse(fields: seq<Field>, init: seq<Field>, field: Field, name: string)
    requires Extends(fields, init, field) && (field.value.Object? ==> !Below(field.key, name))
    ensures UndefinedSomewhere(fields, name)
        <==> UndefinedSomewhere(init, name) || (field.value == Atom(Undefined) && field.key == name)
  {
    hide LeafNamed;
    SplitLast(fields, init, field, name);
    if field.value == Atom(Undefined) && field.key == name {
      ThroughLast(fields, init, field, name, []);
      assert LeafNamed(fields, [|init|] + [], name) == Some(Undefined);
    }
  }

  lemma KeysScalar(fields: seq<Field>, init: seq<Field>, field: Field, name: string) returns (last: Option<seq<nat>>)
    requires Extends(fields, init, field) && field.key == name && field.value.Atom? && field.value.leaf.Scalar?
    ensures KeysHold(fields, name, last)
  {
    hide LeafNamed, FlattenFields;
    KeysLast(fields);
    SplitLast(fields, init, field, name);
    last := Some([|init|]);
  }

  /** The last field holds no scalar of the name. */
  lemma KeysElse(fields: seq<Field>, init: seq<Field>, field: Field, name: string, before: Option<seq<nat>>)
    requires Extends(fields, init, field) && KeysHold(init, name, before)
    requires if field.value.Object? then !Below(field.key, name) else field.key != name || !field.value.leaf.Scalar?
    ensures KeysHold(fields, name, before)
  {
    hide LeafNamed, FlattenFields;
    KeysLast(fields);
    assert fields[..|fields| - 1] == init;
    SplitLast(fields, init, field, name);
    UndefinedElse(fields, init, field, name);
    hide UndefinedSomewhere;
    if field.value.Object? {
      UnderAt(field.key, FlattenFields(field.value.fields, []), name);
    }
  }

  lemma KeysObject(fields: seq<Field>, init: seq<Field>, field: Field, name: string, inner: seq<Field>, rest: string,
                   before: Option<seq<nat>>, below: Option<seq<nat>>) returns (last: Option<seq<nat>>)
    requires Nests(fields, init, field, name, inner, rest)
    requires KeysHold(init, name, before) && KeysHold(inner, rest, below)
    ensures KeysHold(fields, name, last)
  {
    hide LeafNamed, FlattenFields;
    KeysLast(fields);
    assert fields[..|fields| - 1] == init;
    UnderAt(field.key, FlattenFields(inner, []), name);
    SplitNested(fields, init, field, name, inner, rest);
    last := if below.Some? then Some([|init|] + below.value) else before;
    if below.None? {
      UndefinedNested(fields, init, field, name, inner, rest);
      hide UndefinedSomewhere;
    }
  }

  lemma UndefinedNested(fields: seq<Field>, init: seq<Field>, field: Field, name: string, inner: seq<Field>,
                        rest: string)
    requires Nests(fields, init, field, name, inner, rest)
    ensures UndefinedSomewhere(fields, name) <==> UndefinedSomewhere(init, name) || UndefinedSomewhere(inner, rest)
  {
    hide LeafNamed;
    SplitNested(fields, init, field, name, inner, rest);
  }

  // ---------------------------------------------------------------- flattenObject by position

  /** What `flattenObject` holds under a name: the last leaf alive, or a top-level `undefined` when none is. */
  ghost predicate ObjectHolds(fields: seq<Field>, name: string, last: Option<seq<nat>>) {
    var object_ := FlattenedObject(fields);
    match last
    case Some(p) =>
      && LastAlive(fields, name, p)
      && name in object_ && object_[name] == Print(LeafNamed(fields, p, name).value)
    case None =>
      && (forall p :: !Alive(fields, name, p))
      && (name in object_ <==> UndefinedOnTop(fields, name))
      && (name in object_ ==> object_[name] == Undefined)
  }

  lemma ObjectLast(fields: seq<Field>, init: seq<Field>, last: Field)
    requires Extends(fields, init, last)
    ensures FlattenedObject(fields) == FlattenedObject(init) + FlattenedField(last)
  {
    assert fields[..|fields| - 1] == init;
  }

  lemma LeafHere(field: Field, name: string)
    ensures LeafBelow(field, [], name)
         == if field.value.Atom? && field.key == name then Some(field.value.leaf) else None
  {}

  /** A last field that is no `undefined` of the name erases nothing. */
  lemma AliveBefore(fields: seq<Field>, init: seq<Field>, last: Field, name: string, p: seq<nat>)
    requires Extends(fields, init, last) && last != Field(name, Atom(Undefined)) && p != [] && p[0] < |init|
    ensures Alive(fields, name, p) <==> Alive(init, name, p)
  {
    hide LeafNamed;
    SplitLast(fields, init, last, name);
    if Alive(init, name, p) {
      forall q | Precedes(p, q) ensures LeafNamed(fields, q, name) != Some(Undefined) {
        LeafHere(last, name);
        assert q[0] == |init| ==> q[1..] == [];
      }
    }
    if Alive(fields, name, p) {
      forall q | Precedes(p, q) ensures LeafNamed(init, q, name) != Some(Undefined) {
        assert LeafNamed(fields, q, name) != Some(Undefined);
      }
    }
  }

  lemma ObjectPass(fields: seq<Field>, init: seq<Field>, field: Field, name: string, last: Option<seq<nat>>)
    requires Extends(fields, init, field) && ObjectHolds(init, name, last)
    requires if field.value.Object? then !Below(field.key, name) else field.key != name
    ensures ObjectHolds(fields, name, last)
  {
    hide LeafNamed, FlattenedObject;
    ObjectLast(fields, init, field);
    SplitLast(fields, init, field, name);
    forall p | p != [] && p[0] < |init| ensures Alive(fields, name, p) <==> Alive(init, name, p) {
      AliveBefore(fields, init, field, name, p);
    }
    if field.value.Object? {
      PrefixedOn(field.key, FlattenedObject(field.value.fields), name);
    }
  }

  /** A leaf in the last field is erased by nothing before or after it. */
  lemma ObjectAtom(fields: seq<Field>, init: seq<Field>, field: Field, name: string) returns (last: Option<seq<nat>>)
    requires Extends(fields, init, field) && field.value.Atom? && field.key == name
    ensures ObjectHolds(fields, name, last)
  {
    hide LeafNamed, FlattenedObject;
    ObjectLast(fields, init, field);
    SplitLast(fields, init, field, name);
    var n: nat := |init|;
    ThroughLast(fields, init, field, name, []);
    assert [n] + [] == [n];
    assert LeafNamed(fields, [n], name) == Some(field.value.leaf);
    if field.value.leaf == Undefined {
      last := None;
      forall p ensures !Alive(fields, name, p) {
        if LeafNamed(fields, p, name).Some? && p[0] < n {
          assert Precedes(p, [n]);
        }
      }
    } else {
      last := Some([n]);
      assert Alive(fields, name, [n]);
      forall p | Alive(fields, name, p) ensures p == [n] || Before(p, [n]) {
        assert LeafNamed(fields, p, name).Some?;
        if p[0] == n {
          assert p == [n] + p[1..];
        }
      }
    }
  }

  /** In the last field a leaf lives as it does in the object that field holds. */
  lemma AliveWithin(fields: seq<Field>, init: seq<Field>, field: Field, name: string, inner: seq<Field>,
                    rest: string, p: seq<nat>)
    requires Nests(fields, init, field, name, inner, rest)
    ensures Alive(fields, name, [|init|] + p) <==> Alive(inner, rest, p)
  {
    hide LeafNamed;
    SplitNested(fields, init, field, name, inner, rest);
    var n := |init|;
    if Alive(inner, rest, p) {
      forall q | Precedes([n] + p, q) ensures LeafNamed(fields, q, name) != Some(Undefined) {
        assert LeafNamed(inner, q[1..], rest) != Some(Undefined) || q[0] > n;
      }
    }
    if Alive(fields, name, [n] + p) {
      forall q | Precedes(p, q) ensures LeafNamed(inner, q, rest) != Some(Undefined) {
        assert ([n] + p)[1..] == p && ([n] + q)[1..] == q;
        assert Precedes([n] + p, [n] + q);
      }
    }
  }

  lemma AliveSplit(fields: seq<Field>, init: seq<Field>, field: Field, name: string, inner: seq<Field>, rest: string)
    requires Nests(fields, init, field, name, inner, rest)
    ensures forall p {:trigger Alive(fields, name, p)} :: Alive(fields, name, p) ==>
              p != [] && if p[0] < |init| then Alive(init, name, p) else p[0] == |init| && Alive(inner, rest, p[1..])
    ensures forall p {:trigger Alive(init, name, p)} :: Alive(init, name, p) ==>
              p != [] && p[0] < |init| && Alive(fields, name, p)
    ensures forall p {:trigger Alive(inner, rest, p)} :: Alive(inner, rest, p) ==> Alive(fields, name, [|init|] + p)
  {
    hide LeafNamed, Alive;
    SplitLast(fields, init, field, name);
    forall p ensures Alive(fields, name, p) ==>
                       p != [] && if p[0] < |init| then Alive(init, name, p)
                                  else p[0] == |init| && Alive(inner, rest, p[1..])
    {
      AliveIsLeaf(fields, name, p);
      if p != [] && p[0] == |init| {
        assert p == [|init|] + p[1..];
        AliveWithin(fields, init, field, name, inner, rest, p[1..]);
      } else if p != [] && p[0] < |init| {
        AliveBefore(fields, init, field, name, p);
      }
    }
    forall p | Alive(init, name, p) ensures p != [] && p[0] < |init| && Alive(fields, name, p) {
      AliveIsLeaf(init, name, p);
      AliveBefore(fields, init, field, name, p);
    }
    forall p | Alive(inner, rest, p) ensures Alive(fields, name, [|init|] + p) {
      AliveWithin(fields, init, field, name, inner, rest, p);
    }
  }

  lemma AliveIsLeaf(fields: seq<Field>, name: string, p: seq<nat>)
    ensures Alive(fields, name, p) ==> LeafNamed(fields, p, name).Some? && LeafNamed(fields, p, name) != Some(Undefined)
  {}

  lemma ObjectNested(fields: seq<Field>, init: seq<Field>, field: Field, name: string, inner: seq<Field>, rest: string,
                     before: Option<seq<nat>>, below: Option<seq<nat>>) returns (last: Option<seq<nat>>)
    requires Nests(fields, init, field, name, inner, rest)
    requires ObjectHolds(init, name, before) && ObjectHolds(inner, rest, below)
    ensures ObjectHolds(fields, name, last)
  {
    hide LeafNamed, FlattenedObject, Alive, UndefinedOnTop;
    ObjectLast(fields, init, field);
    PrefixedOn(field.key, FlattenedObject(inner), name);
    SplitNested(fields, init, field, name, inner, rest);
    AliveSplit(fields, init, field, name, inner, rest);
    NestedOnTop(fields, init, field, name);
    last := if below.Some? then Some([|init|] + below.value) else before;
    if last.Some? {
      AliveIsLeaf(fields, name, last.value);
    }
  }

  lemma NestedOnTop(fields: seq<Field>, init: seq<Field>, field: Field, name: string)
    requires Extends(fields, init, field) && field != Field(name, Atom(Undefined))
    ensures UndefinedOnTop(fields, name) <==> UndefinedOnTop(init, name)
  {
    hide LeafNamed;
    SplitLast(fields, init, field, name);
    LeafHere(field, name);
    assert forall i: nat :: [i][1..] == [];
  }

  lemma {:induction false} ObjectByPosition(fields: seq<Field>, name: string) returns (last: Option<seq<nat>>)
    ensures ObjectHolds(fields, name, last)
    decreases fields
  {
    if fields == [] {
      last := None;
    } else {
      var init, field := fields[..|fields| - 1], fields[|fields| - 1];
      last := ObjectByPosition(init, name);
      if field.value.Object? && Below(field.key, name) {
        var inner, rest := field.value.fields, name[|field.key| + 1..];
        var below := ObjectByPosition(inner, rest);
        last := ObjectNested(fields, init, field, name, inner, rest, last, below);
      } else if field.value.Atom? && field.key == name {
        last := ObjectAtom(fields, init, field, name);
      } else {
        ObjectPass(fields, init, field, name, last);
      }
    }
  }

  // ---------------------------------------------------------------- when the two agree, whatever the keys

  ghost predicate HasScalar(fields: seq<Field>, name: string) {
    exists p :: IsScalar(LeafNamed(fields, p, name))
  }

  ghost predicate HasAlive(fields: seq<Field>, name: string) {
    exists p :: Alive(fields, name, p)
  }

  /**
   * The leaves of one name decide alike: the last scalar prints as the last leaf alive, one is there if and only if the
   * other is, and without either an `undefined` is on top if it is anywhere.
   */
  ghost predicate LeavesAgree(fields: seq<Field>, name: string) {
    && (HasScalar(fields, name) <==> HasAlive(fields, name))
    && (forall p, q :: LastScalar(fields, name, p) && LastAlive(fields, name, q) ==>
          LeafNamed(fields, p, name) == Some(Print(LeafNamed(fields, q, name).value)))
    && (!HasScalar(fields, name) && UndefinedSomewhere(fields, name) ==> UndefinedOnTop(fields, name))
  }

  ghost predicate SameAt(a: Flat, b: Flat, name: string) {
    (name in a <==> name in b) && (name in a ==> a[name] == b[name])
  }

  /** Under every name, whatever the keys of the object, its leaves tell whether the two flattenings hold the same. */
  lemma AgreeAtIff(fields: seq<Field>, name: string)
    requires WithoutLength(fields)
    ensures SameAt(FlattenKeys(Object(fields), []), FlattenedObject(fields), name) <==> LeavesAgree(fields, name)
  {
    hide LeafNamed, FlattenFields, FlattenedObject, Alive, Before;
    var scalar := KeysByPosition(fields, name);
    var alive := ObjectByPosition(fields, name);
    assert HasScalar(fields, name) <==> scalar.Some?;
    assert HasAlive(fields, name) <==> alive.Some?;
    OnTopIsSomewhere(fields, name);
    assert FlattenKeys(Object(fields), []) == FlattenFields(fields, []);
    match (scalar, alive)
    case (Some(p), Some(q)) =>
      OneLast(fields, name, p, q);
      assert LastScalar(fields, name, p) && LastAlive(fields, name, q);
    case (None, Some(q)) => AliveIsLeaf(fields, name, q);
    case _ =>
  }

  lemma OnTopIsSomewhere(fields: seq<Field>, name: string)
    ensures UndefinedOnTop(fields, name) ==> UndefinedSomewhere(fields, name)
  {}

  lemma {:induction false} BeforeIsStrict(p: seq<nat>, q: seq<nat>)
    ensures Before(p, q) ==> !Before(q, p) && p != q
    decreases |p|
  {
    if p != [] && q != [] && p[0] == q[0] {
      BeforeIsStrict(p[1..], q[1..]);
    }
  }

  /** There is only one last scalar and one last leaf alive. */
  lemma OneLast(fields: seq<Field>, name: string, p: seq<nat>, q: seq<nat>)
    requires LastScalar(fields, name, p) && LastAlive(fields, name, q)
    ensures forall x :: LastScalar(fields, name, x) ==> x == p
    ensures forall x :: LastAlive(fields, name, x) ==> x == q
  {
    hide LeafNamed, Alive;
    forall x | LastScalar(fields, name, x) ensures x == p {
      BeforeIsStrict(p, x);
    }
    forall x | LastAlive(fields, name, x) ensures x == q {
      BeforeIsStrict(q, x);
    }
  }

  /**
   * The two flattenings are one map exactly when the leaves of every name decide alike, dots and repeated names
   * included.
   */
  lemma FlatteningsAgreeIff(fields: seq<Field>)
    requires WithoutLength(fields)
    ensures FlattenKeys(Object(fields), []) == FlattenedObject(fields) <==> forall name :: LeavesAgree(fields, name)
  {
    hide *;
    var keys, object_ := FlattenKeys(Object(fields), []), FlattenedObject(fields);
    forall name ensures SameAt(keys, object_, name) <==> LeavesAgree(fields, name) {
      AgreeAtIff(fields, name);
    }
    SameEverywhere(keys, object_);
  }

  lemma SameEverywhere(a: Flat, b: Flat)
    ensures a == b <==> forall name :: SameAt(a, b, name)
  {
    if forall name :: SameAt(a, b, name) {
      forall name ensures (name in a <==> name in b) && (name in a ==> a[name] == b[name]) {
        assert SameAt(a, b, name);
      }
    }
  }

  /** No leaf of the name is `undefined` or a Date. */
  ghost predicate OnlyScalars(fields: seq<Field>, name: string) {
    forall p :: LeafNamed(fields, p, name).Some? ==> LeafNamed(fields, p, name).value.Scalar?
  }

  /** The two differ at most under names that a Date or an `undefined` has, whatever the keys. */
  lemma ScalarsAgree(fields: seq<Field>, name: string)
    requires WithoutLength(fields) && OnlyScalars(fields, name)
    ensures SameAt(FlattenKeys(Object(fields), []), FlattenedObject(fields), name)
  {
    hide LeafNamed, FlattenKeys, FlattenedObject;
    forall p ensures Alive(fields, name, p) <==> IsScalar(LeafNamed(fields, p, name)) {
      assert OnlyScalars(fields, name);
    }
    forall p, q | LastScalar(fields, name, p) && LastAlive(fields, name, q) ensures p == q {
      BeforeIsStrict(p, q);
    }
    AgreeAtIff(fields, name);
  }

  /** So on scalars alone they are one map, dotted and repeated keys included. */
  lemma AllScalarsAgree(fields: seq<Field>)
    requires WithoutLength(fields) && forall name :: OnlyScalars(fields, name)
    ensures FlattenKeys(Object(fields), []) == FlattenedObject(fields)
  {
    forall name ensures SameAt(FlattenKeys(Object(fields), []), FlattenedObject(fields), name) {
      ScalarsAgree(fields, name);
    }
    SameEverywhere(FlattenKeys(Object(fields), []), FlattenedObject(fields));
  }

  // ---------------------------------------------------------------- plain keys: when the two agree

  /** No Date anywhere, and `undefined` at most at the top level. */
  ghost predicate OrdinaryLeaves(fields: seq<Field>) {
    forall path, leaf :: LeafAt(Object(fields), path) == Some(leaf) ==>
      !leaf.Date? && (leaf == Undefined ==> |path| == 1)
  }

  /** Same leaf path, same dotted name: names of leaves tell their paths. */
  lemma SameName(fields: seq<Field>, p: seq<string>, q: seq<string>)
    requires PlainFields(fields) && LeafAt(Object(fields), p).Some? && LeafAt(Object(fields), q).Some?
             && Join(p) == Join(q)
    ensures p == q
  {
    hide Join;
    LeafPathPlain(Object(fields), p);
    LeafPathPlain(Object(fields), q);
    JoinInjective(p, q);
  }

  /** The entries of `flattenKeys`, without a prefix, are the leaves that are no Dates. */
  lemma KeysEntry(fields: seq<Field>, path: seq<string>)
    requires PlainFields(fields) && WithoutLength(fields) && LeafAt(Object(fields), path).Some?
    ensures var keys, leaf := FlattenKeys(Object(fields), []), LeafAt(Object(fields), path).value;
            && (Join(path) in keys <==> !leaf.Date?)
            && (Join(path) in keys ==> keys[Join(path)] == leaf)
  {
    hide Join, LeafAt, FlattenKeys, HoldsLeaves, PlainFields;
    var data, keys := Object(fields), FlattenKeys(Object(fields), []);
    KeysHoldAll(fields);
    assert [] + path == path;
    if LeafAt(data, path).value.Date? {
      if Join(path) in keys {
        var other := NameHeld(data, [], keys, Join(path));
        assert [] + other == other;
        SameName(fields, path, other);
      }
    } else {
      LeafHeld(data, [], keys, path, LeafAt(data, path).value);
    }
  }

  lemma KeysHoldAll(fields: seq<Field>)
    requires PlainFields(fields) && WithoutLength(fields)
    ensures HoldsLeaves(Object(fields), [], FlattenKeys(Object(fields), []))
  {
    KeysHoldLeaves(Object(fields), []);
  }

  lemma ObjectEntry(fields: seq<Field>, path: seq<string>)
    requires PlainFields(fields) && LeafAt(Object(fields), path).Some?
    ensures var object_, leaf := FlattenedObject(fields), LeafAt(Object(fields), path).value;
            && (Join(path) in object_ <==> Kept(path, leaf).Some?)
            && (Join(path) in object_ ==> Some(object_[Join(path)]) == Kept(path, leaf))
  {
    hide Join, LeafAt, FlattenedObject, HoldsKept, PlainFields;
    ObjectHoldsKept(fields);
    var object_, leaf := FlattenedObject(fields), LeafAt(Object(fields), path).value;
    if Kept(path, leaf).Some? {
      LeafKept(fields, object_, path, leaf);
    } else if Join(path) in object_ {
      var other := NameKept(fields, object_, Join(path));
      SameName(fields, path, other);
    }
  }

  /** Every entry of either map belongs to a leaf. */
  lemma EntryHasLeaf(fields: seq<Field>, name: string) returns (path: seq<string>)
    requires PlainFields(fields) && WithoutLength(fields)
             && (name in FlattenKeys(Object(fields), []) || name in FlattenedObject(fields))
    ensures LeafAt(Object(fields), path).Some? && name == Join(path)
  {
    hide Join, LeafAt, FlattenKeys, FlattenedObject, HoldsLeaves, HoldsKept, PlainFields;
    if name in FlattenKeys(Object(fields), []) {
      KeysHoldAll(fields);
      path := NameHeld(Object(fields), [], FlattenKeys(Object(fields), []), name);
      assert [] + path == path;
    } else {
      ObjectHoldsKept(fields);
      path := NameKept(fields, FlattenedObject(fields), name);
    }
  }

  /** On plain data the two flattenings are one map exactly when the leaves are ordinary. */
  lemma PlainFlatteningsAgreeIff(fields: seq<Field>)
    requires PlainFields(fields) && WithoutLength(fields)
    ensures FlattenKeys(Object(fields), []) == FlattenedObject(fields) <==> OrdinaryLeaves(fields)
  {
    hide Join, LeafAt, FlattenKeys, FlattenedObject, PlainFields;
    var keys, object_ := FlattenKeys(Object(fields), []), FlattenedObject(fields);
    if OrdinaryLeaves(fields) {
      forall name | name in keys || name in object_
        ensures name in keys && name in object_ && keys[name] == object_[name]
      {
        var path := EntryHasLeaf(fields, name);
        KeysEntry(fields, path);
        ObjectEntry(fields, path);
      }
      assert keys.Keys == object_.Keys;
    } else {
      var path, leaf :| LeafAt(Object(fields), path) == Some(leaf)
                     && (leaf.Date? || (leaf == Undefined && |path| != 1));
      NoLeafHere(fields);
      KeysEntry(fields, path);
      ObjectEntry(fields, path);
    }
  }

  // ---------------------------------------------------------------- dots, collisions and `undefined`

  function Nested(leaf: Leaf): Field {
    Field("a", Object([Field("b", Atom(leaf))]))
  }

  const DOTTED := Field("a.b", Atom(Undefined))

  lemma NestedFlattened(leaf: Leaf)
    requires leaf.Scalar?
    ensures FlattenFields([Nested(leaf)], []) == map["a.b" := leaf]
    ensures FlattenedObject([Nested(leaf)]).Keys == {"a.b"}
  {
    var inner := [Field("b", Atom(leaf))];
    assert [Nested(leaf)][..0] == [] && inner[..0] == [];
    JoinMore("a", ["b"]);
    assert Join(["b"]) == "b" && "a" + "." + "b" == "a.b";
    assert [] + ["a"] == ["a"] && ["a"] + ["b"] == ["a", "b"];
    assert FlattenFields(inner[..0], ["a"]) == map[];
    assert FlattenKeys(inner[0].value, ["a"] + ["b"]) == map["a.b" := leaf];
    MergeDisjoint(map[], map["a.b" := leaf]);
    assert FlattenFields(inner, ["a"]) == map["a.b" := leaf];
    assert FlattenedObject(inner) == map[] + map["b" := leaf] == map["b" := leaf];
    PrefixedAt("a", map["b" := leaf], "b");
  }

  /**
   * The least example beyond plain keys: a top-level `undefined` under a dotted key erases the scalar of that name in
   * `flattenObject` only, because `merge` keeps what is defined.
   */
  lemma UndefinedErases(leaf: Leaf)
    requires leaf.Scalar?
    ensures var fields := [Nested(leaf), DOTTED];
            && OrdinaryLeaves(fields)
            && FlattenKeys(Object(fields), []) == map["a.b" := leaf]
            && FlattenedObject(fields) == map["a.b" := Undefined]
  {
    NestedFlattened(leaf);
    var fields := [Nested(leaf), DOTTED];
    assert fields[..1] == [Nested(leaf)];
    assert FlattenKeys(DOTTED.value, [] + ["a.b"]) == map["a.b" := Undefined];
    assert Merge(map["a.b" := leaf], map["a.b" := Undefined]) == map["a.b" := leaf];
    assert FlattenedField(DOTTED) == map["a.b" := Undefined];
    assert FlattenedObject([Nested(leaf)]) + map["a.b" := Undefined] == map["a.b" := Undefined];
    OrdinaryPair(leaf);
  }

  lemma OrdinaryPair(leaf: Leaf)
    requires leaf.Scalar?
    ensures OrdinaryLeaves([Nested(leaf), DOTTED])
  {
    hide LeafAt;
    var fields := [Nested(leaf), DOTTED];
    assert fields[..1] == [Nested(leaf)];
    forall path, l | LeafAt(Object(fields), path) == Some(l) ensures !l.Date? && (l == Undefined ==> |path| == 1) {
      LeafSplit(fields, path);
      assert path == [path[0]] + path[1..];
      if path[0] == "a.b" {
        AtomLeaf(Undefined, path[1..]);
      } else {
        OneField(Nested(leaf));
        OneField(Field("b", Atom(leaf)));
        AtomLeaf(leaf, path[1..][1..]);
      }
    }
  }
}
