/**
 * Repair of credential references in the nodes of a workflow, with one cache by name and one by id
 * (`replaceInvalidCredentials`, packages/cli/src/workflow-helpers.ts).
 */
module CredentialRepair {
  import opened Wrappers

  /** A node's credential entry: the old bare name, or an object with an id that may be null. */
  datatype Credential = Bare(name: string) | Details(id: Option<string>, name: string)

  datatype Row = Row(name: string, credentialType: string)

  /** The credentials table, keyed by its primary key. */
  type Database = map<string, Row>

  datatype Entry = Entry(credentialType: string, credential: Credential)

  /** `credentials` keeps the order of `Object.entries`. */
  datatype Node = Node(disabled: bool, credentials: Option<seq<Entry>>)

  datatype Key = Key(credentialType: string, text: string)

  datatype Caches = Caches(byName: map<Key, Credential>, byId: map<Key, Credential>)

  // ---------------------------------------------------------------- the queries

  function RowsNamed(db: Database, credentialType: string, name: string): set<string> {
    set id | id in db && db[id] == Row(name, credentialType)
  }

  /** The one row of that type and name, if there is exactly one. */
  function UniqueNamed(db: Database, credentialType: string, name: string): Option<string> {
    var ids := RowsNamed(db, credentialType, name);
    if |ids| == 1 then
      Single(ids);
      var id :| id in ids; Some(id)
    else None
  }

  lemma Single<T>(s: set<T>)
    requires |s| == 1
    ensures exists x :: x in s
    ensures forall x, y :: x in s && y in s ==> x == y
  {
    var x :| x in s;
    assert |s - {x}| == 0;
    assert forall y :: y in s && y != x ==> y in s - {x};
  }

  function FoundById(db: Database, credentialType: string, id: string): bool {
    id in db && db[id].credentialType == credentialType
  }

  // ---------------------------------------------------------------- the reference: each credential on its own

  /** What one credential becomes when every query is asked afresh. */
  function Uncached(db: Database, e: Entry): Credential {
    if e.credential.Details? && e.credential.id.Some? && FoundById(db, e.credentialType, e.credential.id.value) then
      Details(e.credential.id, db[e.credential.id.value].name)
    else
      match UniqueNamed(db, e.credentialType, e.credential.name)
      case Some(id) => Details(Some(id), e.credential.name)
      case None => e.credential
  }

  /** A bare name stands for an object with that name and a null id. */
  function Normal(c: Credential): Credential {
    if c.Bare? then Details(None, c.name) else c
  }

  // ---------------------------------------------------------------- the cached pass

  function RepairOne(db: Database, c: Caches, e: Entry): (Credential, Caches) {
    var t, name := e.credentialType, e.credential.name;
    if e.credential.Bare? || e.credential.id.None? then
      if Key(t, name) in c.byName then (c.byName[Key(t, name)], c)
      else
        match UniqueNamed(db, t, name)
        case Some(id) =>
          (Details(Some(id), db[id].name), c.(byName := c.byName[Key(t, name) := Details(Some(id), db[id].name)]))
        case None => (e.credential, c.(byName := c.byName[Key(t, name) := Details(None, name)]))
    else
      var id := e.credential.id.value;
      if Key(t, id) in c.byId then (c.byId[Key(t, id)], c)
      else if FoundById(db, t, id) then
        (Details(Some(id), db[id].name), c.(byId := c.byId[Key(t, id) := Details(Some(id), db[id].name)]))
      else
        match UniqueNamed(db, t, name)
        case Some(found) =>
          (Details(Some(found), db[found].name),
           c.(byId := c.byId[Key(t, found) := Details(Some(found), db[found].name)]))
        case None => (e.credential, c.(byId := c.byId[Key(t, id) := e.credential]))
  }

  function RepairEntries(db: Database, c: Caches, entries: seq<Entry>): (seq<Entry>, Caches) {
    if entries == [] then ([], c)
    else
      var n := |entries| - 1;
      var (done, mid) := RepairEntries(db, c, entries[..n]);
      var (credential, after) := RepairOne(db, mid, entries[n]);
      (done + [Entry(entries[n].credentialType, credential)], after)
  }

  function RepairNode(db: Database, c: Caches, node: Node): (Node, Caches) {
    if node.credentials.None? || node.disabled then (node, c)
    else
      var (entries, after) := RepairEntries(db, c, node.credentials.value);
      (node.(credentials := Some(entries)), after)
  }

  function RepairNodes(db: Database, nodes: seq<Node>): (seq<Node>, Caches) {
    if nodes == [] then ([], Caches(map[], map[]))
    else
      var n := |nodes| - 1;
      var (done, mid) := RepairNodes(db, nodes[..n]);
      var (node, after) := RepairNode(db, mid, nodes[n]);
      (done + [node], after)
  }

  // ---------------------------------------------------------------- the loops

  method FindBy(db: Database, name: string, credentialType: string) returns (unique: Option<string>)
    ensures unique == UniqueNamed(db, credentialType, name)
  {
    unique := UniqueNamed(db, credentialType, name);
  }

  method ReplaceEntry(db: Database, ghost c: Caches, byName: map<Key, Credential>, byId: map<Key, Credential>, e: Entry)
    returns (credential: Credential, byName': map<Key, Credential>, byId': map<Key, Credential>)
    requires c == Caches(byName, byId)
    ensures (credential, Caches(byName', byId')) == RepairOne(db, c, e)
  {
    credential, byName', byId' := e.credential, byName, byId;
    var name := e.credential.name;
    if e.credential.Bare? || e.credential.id.None? {
      var key := Key(e.credentialType, name);
      if key !in byName {
        var found := FindBy(db, name, e.credentialType);
        if found.Some? {
          byName' := byName[key := Details(found, db[found.value].name)];
          credential := byName'[key];
          return;
        }
        byName' := byName[key := Details(None, name)];
      } else {
        credential := byName[key];
      }
      return;
    }
    var id := e.credential.id.value;
    var key := Key(e.credentialType, id);
    if key !in byId {
      if FoundById(db, e.credentialType, id) {
        byId' := byId[key := Details(Some(id), db[id].name)];
        credential := byId'[key];
        return;
      }
      var found := FindBy(db, name, e.credentialType);
      if found.Some? {
        var foundKey := Key(e.credentialType, found.value);
        byId' := byId[foundKey := Details(found, db[found.value].name)];
        credential := byId'[foundKey];
        return;
      }
      byId' := byId[key := e.credential];
      return;
    }
    credential := byId[key];
  }

  method ReplaceNode(db: Database, ghost c: Caches, byName: map<Key, Credential>, byId: map<Key, Credential>,
                     node: Node)
    returns (node': Node, byName': map<Key, Credential>, byId': map<Key, Credential>)
    requires c == Caches(byName, byId)
    ensures (node', Caches(byName', byId')) == RepairNode(db, c, node)
  {
    node', byName', byId' := node, byName, byId;
    if node.credentials.None? || node.disabled {
      return;
    }
    var entries := node.credentials.value;
    var repaired := [];
    assert entries[..0] == [];
    for k := 0 to |entries|
      invariant (repaired, Caches(byName', byId')) == RepairEntries(db, c, entries[..k])
    {
      assert entries[..k + 1][..k] == entries[..k];
      var credential;
      credential, byName', byId' := ReplaceEntry(db, Caches(byName', byId'), byName', byId', entries[k]);
      repaired := repaired + [Entry(entries[k].credentialType, credential)];
    }
    assert entries[..|entries|] == entries;
    node' := node.(credentials := Some(repaired));
  }

  /** The nodes are repaired in place, one credential after the other, with both caches carried along. */
  method ReplaceInvalidCredentials(db: Database, nodes: array<Node>)
    modifies nodes
    ensures nodes[..] == RepairNodes(db, old(nodes[..])).0
    ensures AgreeingNames(db, EnabledEntries(old(nodes[..]))) ==>
              forall i :: 0 <= i < nodes.Length ==> Repaired(db, old(nodes[..])[i], nodes[..][i])
    ensures forall i :: 0 <= i < nodes.Length ==>
              NodeRepairedTo(db, EnabledEntries(old(nodes[..])[..i]), old(nodes[..])[i], nodes[..][i])
  {
    hide Repaired, AgreeingNames, EnabledEntries, NodeRepairedTo;
    ghost var was := nodes[..];
    var byName: map<Key, Credential>, byId: map<Key, Credential> := map[], map[];
    assert was[..0] == [];
    for i := 0 to nodes.Length
      invariant nodes[..i] == RepairNodes(db, was[..i]).0
      invariant forall k :: i <= k < nodes.Length ==> nodes[k] == was[k]
      invariant Caches(byName, byId) == RepairNodes(db, was[..i]).1
    {
      assert was[..i + 1][..i] == was[..i];
      ghost var done := nodes[..i];
      nodes[i], byName, byId := ReplaceNode(db, Caches(byName, byId), byName, byId, nodes[i]);
      assert nodes[..i] == done;
      assert nodes[..i + 1] == done + [nodes[i]];
    }
    assert was[..nodes.Length] == was && nodes[..nodes.Length] == nodes[..];
    RepairIsUncached(db, was);
    RepairFollowsRows(db, was);
  }

  // ---------------------------------------------------------------- agreement with the reference

  /** The credentials that the pass looks at, in its order. */
  function EnabledEntries(nodes: seq<Node>): seq<Entry> {
    if nodes == [] then []
    else
      EnabledEntries(nodes[..|nodes| - 1]) + NodeEntries(nodes[|nodes| - 1])
  }

  function NodeEntries(node: Node): seq<Entry> {
    if node.credentials.None? || node.disabled then [] else node.credentials.value
  }

  /** An id the table does not know for this type, under a name that does not identify a row either. */
  predicate Unresolvable(db: Database, e: Entry) {
    && e.credential.Details? && e.credential.id.Some?
    && !FoundById(db, e.credentialType, e.credential.id.value)
    && UniqueNamed(db, e.credentialType, e.credential.name).None?
  }

  predicate SameTarget(e: Entry, f: Entry) {
    && e.credentialType == f.credentialType
    && e.credential.Details? && f.credential.Details? && e.credential.id.Some? && e.credential.id == f.credential.id
  }

  /** No unresolvable credential is followed by one with the same type and id under another name. */
  ghost predicate AgreeingNames(db: Database, seen: seq<Entry>) {
    forall i, j :: 0 <= i < j < |seen| && SameTarget(seen[i], seen[j]) && Unresolvable(db, seen[i]) ==>
      seen[i].credential.name == seen[j].credential.name
  }

  ghost predicate SameEntry(db: Database, before: Entry, after: Entry) {
    after.credentialType == before.credentialType && Normal(after.credential) == Normal(Uncached(db, before))
  }

  /** A disabled node is untouched; every credential of an enabled one is what the uncached lookup gives. */
  ghost predicate Repaired(db: Database, before: Node, after: Node) {
    if before.credentials.None? || before.disabled then after == before
    else
      && after.disabled == before.disabled && after.credentials.Some?
      && |after.credentials.value| == |before.credentials.value|
      && forall k :: 0 <= k < |before.credentials.value| ==>
           SameEntry(db, before.credentials.value[k], after.credentials.value[k])
  }

  /** Of the unresolvable credentials with that type and id, `seen[i]` is the first. */
  ghost predicate FirstUnresolvable(db: Database, seen: seq<Entry>, key: Key, i: nat) {
    && i < |seen| && UnresolvableAt(db, seen[i], key)
    && forall j :: 0 <= j < i ==> !UnresolvableAt(db, seen[j], key)
  }

  predicate UnresolvableAt(db: Database, e: Entry, key: Key) {
    Unresolvable(db, e) && e.credentialType == key.credentialType && e.credential.id == Some(key.text)
  }

  /** The cached value under an unknown id is that of the first unresolvable credential seen with it. */
  ghost predicate Remembers(db: Database, seen: seq<Entry>, key: Key, credential: Credential) {
    exists i: nat :: FirstUnresolvable(db, seen, key, i) && seen[i].credential == credential
  }

  /** What the caches hold once `seen` has been visited. */
  ghost predicate CachesOf(db: Database, seen: seq<Entry>, c: Caches) {
    && (forall key :: key in c.byName ==>
          Normal(Uncached(db, Entry(key.credentialType, Bare(key.text)))) == c.byName[key])
    && (forall key :: key in c.byId && FoundById(db, key.credentialType, key.text) ==>
          c.byId[key] == Details(Some(key.text), db[key.text].name))
    && (forall key :: key in c.byId && !FoundById(db, key.credentialType, key.text) ==>
          Remembers(db, seen, key, c.byId[key]))
    && (forall i :: 0 <= i < |seen| && Unresolvable(db, seen[i]) ==>
          Key(seen[i].credentialType, seen[i].credential.id.value) in c.byId)
  }

  lemma UniqueNamedRow(db: Database, credentialType: string, name: string)
    ensures var r := UniqueNamed(db, credentialType, name);
            r.Some? ==> r.value in db && db[r.value] == Row(name, credentialType)
  {}

  ghost predicate Agrees(db: Database, c: Caches, e: Entry) {
    Normal(RepairOne(db, c, e).0) == Normal(Uncached(db, e))
  }

  /** One visit: agreement of the new entry, and the caches afterwards. */
  lemma VisitOne(db: Database, seen: seq<Entry>, c: Caches, e: Entry)
    requires CachesOf(db, seen, c) && AgreeingNames(db, seen)
    ensures Agrees(db, c, e) <==> AgreeingNames(db, seen + [e])
    ensures CachesOf(db, seen + [e], RepairOne(db, c, e).1)
  {
    UniqueNamedRow(db, e.credentialType, e.credential.name);
    VisitAgrees(db, seen, c, e);
    VisitCaches(db, seen, c, e);
  }

  lemma VisitAgrees(db: Database, seen: seq<Entry>, c: Caches, e: Entry)
    requires CachesOf(db, seen, c) && AgreeingNames(db, seen)
    ensures Agrees(db, c, e) <==> AgreeingNames(db, seen + [e])
  {
    UniqueNamedRow(db, e.credentialType, e.credential.name);
    var more := seen + [e];
    if e.credential.Details? && e.credential.id.Some? && !FoundById(db, e.credentialType, e.credential.id.value) {
      var key := Key(e.credentialType, e.credential.id.value);
      if key in c.byId {
        var i: nat :| FirstUnresolvable(db, seen, key, i) && seen[i].credential == c.byId[key];
        assert more[i] == seen[i] && more[|seen|] == e && SameTarget(more[i], more[|seen|]);
        if AgreeingNames(db, more) {
          assert seen[i].credential.name == e.credential.name;
        } else {
          NameDiffers(db, seen, e);
        }
      } else {
        NoneBefore(db, seen, c, e);
      }
    } else {
      forall j, k | 0 <= j < k < |more| && SameTarget(more[j], more[k]) && Unresolvable(db, more[j])
        ensures more[j].credential.name == more[k].credential.name
      {
        assert more[j] == seen[j] && k < |seen| && more[k] == seen[k];
      }
    }
  }

  lemma NameDiffers(db: Database, seen: seq<Entry>, e: Entry)
    requires AgreeingNames(db, seen) && !AgreeingNames(db, seen + [e])
    ensures forall i :: 0 <= i < |seen| && SameTarget(seen[i], e) && Unresolvable(db, seen[i]) ==>
              seen[i].credential.name != e.credential.name
  {
    var more := seen + [e];
    var j, k :| 0 <= j < k < |more| && SameTarget(more[j], more[k]) && Unresolvable(db, more[j])
                && more[j].credential.name != more[k].credential.name;
    assert more[j] == seen[j];
    assert forall m :: 0 <= m < |seen| ==> more[m] == seen[m];
    assert k == |seen|;
    forall i | 0 <= i < |seen| && SameTarget(seen[i], e) && Unresolvable(db, seen[i])
      ensures seen[i].credential.name != e.credential.name
    {
      if i < j {
        assert SameTarget(seen[i], seen[j]);
      } else if j < i {
        assert SameTarget(seen[j], seen[i]);
      }
    }
  }

  lemma NoneBefore(db: Database, seen: seq<Entry>, c: Caches, e: Entry)
    requires CachesOf(db, seen, c) && AgreeingNames(db, seen)
    requires e.credential.Details? && e.credential.id.Some?
    requires Key(e.credentialType, e.credential.id.value) !in c.byId
    ensures AgreeingNames(db, seen + [e])
  {
    var more := seen + [e];
    assert forall m :: 0 <= m < |seen| ==> more[m] == seen[m];
    assert forall j :: 0 <= j < |seen| && Unresolvable(db, seen[j]) ==> !SameTarget(seen[j], e);
  }

  lemma VisitCaches(db: Database, seen: seq<Entry>, c: Caches, e: Entry)
    requires CachesOf(db, seen, c)
    ensures CachesOf(db, seen + [e], RepairOne(db, c, e).1)
  {
    UniqueNamedRow(db, e.credentialType, e.credential.name);
    if e.credential.Bare? || e.credential.id.None? {
      VisitByName(db, seen, c, e);
    } else {
      VisitById(db, seen, c, e);
    }
  }

  lemma VisitByName(db: Database, seen: seq<Entry>, c: Caches, e: Entry)
    requires CachesOf(db, seen, c) && (e.credential.Bare? || e.credential.id.None?)
    ensures CachesOf(db, seen + [e], RepairOne(db, c, e).1)
  {
    UniqueNamedRow(db, e.credentialType, e.credential.name);
    var after := RepairOne(db, c, e).1;
    assert after.byId == c.byId;
    SeenGrows(db, seen, c, e);
  }

  /** Whatever was seen before is still seen, at the same place. */
  lemma SeenGrows(db: Database, seen: seq<Entry>, c: Caches, e: Entry)
    requires CachesOf(db, seen, c)
    ensures forall key :: key in c.byId && !FoundById(db, key.credentialType, key.text) ==>
              Remembers(db, seen + [e], key, c.byId[key])
    ensures forall i :: 0 <= i < |seen| ==> (seen + [e])[i] == seen[i]
  {
    forall key | key in c.byId && !FoundById(db, key.credentialType, key.text)
      ensures Remembers(db, seen + [e], key, c.byId[key])
    {
      var i: nat :| FirstUnresolvable(db, seen, key, i) && seen[i].credential == c.byId[key];
      assert forall j :: 0 <= j <= i ==> (seen + [e])[j] == seen[j];
      assert FirstUnresolvable(db, seen + [e], key, i);
    }
  }

  lemma VisitById(db: Database, seen: seq<Entry>, c: Caches, e: Entry)
    requires CachesOf(db, seen, c) && e.credential.Details? && e.credential.id.Some?
    ensures CachesOf(db, seen + [e], RepairOne(db, c, e).1)
  {
    UniqueNamedRow(db, e.credentialType, e.credential.name);
    var more, after := seen + [e], RepairOne(db, c, e).1;
    assert after.byName == c.byName && more[|seen|] == e;
    SeenGrows(db, seen, c, e);
    forall key | key in after.byId && !FoundById(db, key.credentialType, key.text)
      ensures Remembers(db, more, key, after.byId[key])
    {
      if key !in c.byId || after.byId[key] != c.byId[key] {
        assert UnresolvableAt(db, more[|seen|], key);
        assert forall j :: 0 <= j < |seen| ==> more[j] == seen[j];
        assert FirstUnresolvable(db, more, key, |seen|);
      }
    }
  }

  lemma AgreeingPrefix(db: Database, a: seq<Entry>, b: seq<Entry>)
    requires AgreeingNames(db, a + b)
    ensures AgreeingNames(db, a)
  {
    forall i, j | 0 <= i < j < |a| && SameTarget(a[i], a[j]) && Unresolvable(db, a[i])
      ensures a[i].credential.name == a[j].credential.name
    {
      assert (a + b)[i] == a[i] && (a + b)[j] == a[j];
    }
  }

  lemma {:induction false} VisitEntries(db: Database, seen: seq<Entry>, c: Caches, entries: seq<Entry>)
    requires CachesOf(db, seen, c) && AgreeingNames(db, seen)
    ensures var (r, after) := RepairEntries(db, c, entries);
            && |r| == |entries|
            && (AgreeingNames(db, seen + entries) <==>
                  forall k :: 0 <= k < |entries| ==> SameEntry(db, entries[k], r[k]))
            && (AgreeingNames(db, seen + entries) ==> CachesOf(db, seen + entries, after))
  {
    hide AgreeingNames, CachesOf, RepairOne, Normal, Uncached;
    if entries == [] {
      assert seen + entries == seen;
    } else {
      var n := |entries| - 1;
      var prefix := entries[..n];
      assert entries == prefix + [entries[n]];
      assert seen + entries == (seen + prefix) + [entries[n]];
      VisitEntries(db, seen, c, prefix);
      var (done, mid) := RepairEntries(db, c, prefix);
      var r := RepairEntries(db, c, entries).0;
      assert forall k :: 0 <= k < n ==> r[k] == done[k] && entries[k] == prefix[k];
      if AgreeingNames(db, seen + prefix) {
        VisitOne(db, seen + prefix, mid, entries[n]);
      } else if AgreeingNames(db, seen + entries) {
        AgreeingPrefix(db, seen + prefix, [entries[n]]);
      }
    }
  }

  lemma EnabledOfNode(nodes: seq<Node>)
    requires nodes != []
    ensures var n := |nodes| - 1;
            EnabledEntries(nodes) == EnabledEntries(nodes[..n]) + NodeEntries(nodes[n])
  {}

  lemma VisitNode(db: Database, seen: seq<Entry>, c: Caches, node: Node)
    requires CachesOf(db, seen, c) && AgreeingNames(db, seen)
    ensures var (r, after) := RepairNode(db, c, node);
            && (AgreeingNames(db, seen + NodeEntries(node)) <==> Repaired(db, node, r))
            && (AgreeingNames(db, seen + NodeEntries(node)) ==> CachesOf(db, seen + NodeEntries(node), after))
  {
    hide AgreeingNames, CachesOf;
    if node.credentials.None? || node.disabled {
      assert seen + [] == seen;
    } else {
      VisitEntries(db, seen, c, node.credentials.value);
    }
  }

  lemma {:induction false} VisitNodes(db: Database, nodes: seq<Node>)
    ensures var (r, after) := RepairNodes(db, nodes);
            && |r| == |nodes|
            && (AgreeingNames(db, EnabledEntries(nodes)) <==>
                  forall i :: 0 <= i < |nodes| ==> Repaired(db, nodes[i], r[i]))
            && (AgreeingNames(db, EnabledEntries(nodes)) ==> CachesOf(db, EnabledEntries(nodes), after))
  {
    hide AgreeingNames, CachesOf, Repaired, EnabledEntries, RepairNode;
    if nodes == [] {
      NothingSeen(db);
    } else {
      var n := |nodes| - 1;
      var prefix, node := nodes[..n], nodes[n];
      VisitNodes(db, prefix);
      var (done, mid) := RepairNodes(db, prefix);
      var r := RepairNodes(db, nodes).0;
      assert forall i :: 0 <= i < n ==> r[i] == done[i] && nodes[i] == prefix[i];
      var seen := EnabledEntries(prefix);
      EnabledOfNode(nodes);
      if AgreeingNames(db, seen) {
        VisitNode(db, seen, mid, node);
      } else if AgreeingNames(db, EnabledEntries(nodes)) {
        AgreeingPrefix(db, seen, NodeEntries(node));
      }
    }
  }

  lemma NothingSeen(db: Database)
    ensures EnabledEntries([]) == [] && AgreeingNames(db, []) && CachesOf(db, [], Caches(map[], map[]))
  {}

  /**
   * The cached pass gives every node what uncached lookups give, disabled nodes untouched, exactly when names agree.
   */
  lemma RepairIsUncached(db: Database, nodes: seq<Node>)
    ensures |RepairNodes(db, nodes).0| == |nodes|
    ensures AgreeingNames(db, EnabledEntries(nodes)) <==>
            forall i :: 0 <= i < |nodes| ==> Repaired(db, nodes[i], RepairNodes(db, nodes).0[i])
  {
    VisitNodes(db, nodes);
  }

  /** Disabled nodes and nodes without credentials are never touched, whatever the names. */
  lemma {:induction false} OthersUntouched(db: Database, nodes: seq<Node>, i: nat)
    requires i < |nodes| && (nodes[i].disabled || nodes[i].credentials.None?)
    ensures |RepairNodes(db, nodes).0| == |nodes| && RepairNodes(db, nodes).0[i] == nodes[i]
  {
    VisitNodes(db, nodes[..|nodes| - 1]);
    if i < |nodes| - 1 {
      OthersUntouched(db, nodes[..|nodes| - 1], i);
    }
  }

  // ---------------------------------------------------------------- what the pass does, over the rows of the table

  /** The row is one of that type and name. */
  predicate Matches(db: Database, credentialType: string, name: string, id: string) {
    id in db && db[id] == Row(name, credentialType)
  }

  /** It is the only one. */
  ghost predicate OnlyMatch(db: Database, credentialType: string, name: string, id: string) {
    && Matches(db, credentialType, name, id)
    && forall other :: Matches(db, credentialType, name, other) ==> other == id
  }

  lemma RowsOfOnlyMatch(db: Database, credentialType: string, name: string, id: string)
    requires OnlyMatch(db, credentialType, name, id)
    ensures RowsNamed(db, credentialType, name) == {id}
  {
    assert forall other :: other in RowsNamed(db, credentialType, name) <==> Matches(db, credentialType, name, other);
  }

  lemma FoundIsOnlyMatch(db: Database, credentialType: string, name: string, id: string)
    requires UniqueNamed(db, credentialType, name) == Some(id)
    ensures OnlyMatch(db, credentialType, name, id)
  {
    var ids := RowsNamed(db, credentialType, name);
    Single(ids);
    assert id in ids;
    assert forall other :: Matches(db, credentialType, name, other) ==> other in ids;
  }

  /** The lookup by name finds a row exactly when it is the only one of that type and name. */
  lemma UniqueNamedIff(db: Database, credentialType: string, name: string, id: string)
    ensures UniqueNamed(db, credentialType, name) == Some(id) <==> OnlyMatch(db, credentialType, name, id)
  {
    if OnlyMatch(db, credentialType, name, id) {
      RowsOfOnlyMatch(db, credentialType, name, id);
    }
    if UniqueNamed(db, credentialType, name) == Some(id) {
      FoundIsOnlyMatch(db, credentialType, name, id);
    }
  }

  lemma UniqueNamedNone(db: Database, credentialType: string, name: string)
    ensures UniqueNamed(db, credentialType, name).None? <==> forall id :: !OnlyMatch(db, credentialType, name, id)
  {
    if UniqueNamed(db, credentialType, name).Some? {
      UniqueNamedIff(db, credentialType, name, UniqueNamed(db, credentialType, name).value);
    }
    forall id ensures OnlyMatch(db, credentialType, name, id) ==> UniqueNamed(db, credentialType, name).Some? {
      UniqueNamedIff(db, credentialType, name, id);
    }
  }

  lemma FoundByIdIff(db: Database, credentialType: string, id: string)
    ensures FoundById(db, credentialType, id) <==> exists name :: Matches(db, credentialType, name, id)
  {
    if FoundById(db, credentialType, id) {
      assert Matches(db, credentialType, db[id].name, id);
    }
  }

  /** By its name a credential becomes the one row of that name; with none or several it keeps what it says. */
  ghost predicate NamedTo(db: Database, e: Entry, after: Credential) {
    var t, name := e.credentialType, e.credential.name;
    && (forall id :: OnlyMatch(db, t, name, id) ==> after == Details(Some(id), name))
    && ((forall id :: !OnlyMatch(db, t, name, id)) ==> Normal(after) == Normal(e.credential))
  }

  /** An id of no row of the type, under a name of none or several. */
  ghost predicate Lost(db: Database, e: Entry, id: string) {
    && e.credential.Details? && e.credential.id == Some(id)
    && (forall name :: !Matches(db, e.credentialType, name, id))
    && (forall other :: !OnlyMatch(db, e.credentialType, e.credential.name, other))
  }

  ghost predicate FirstLost(db: Database, seen: seq<Entry>, credentialType: string, id: string, i: nat) {
    && i < |seen| && seen[i].credentialType == credentialType && Lost(db, seen[i], id)
    && forall j :: 0 <= j < i ==> !(seen[j].credentialType == credentialType && Lost(db, seen[j], id))
  }

  /** What becomes of a credential after those in `seen`, in terms of the rows alone. */
  ghost predicate RepairedTo(db: Database, seen: seq<Entry>, e: Entry, after: Credential) {
    var t := e.credentialType;
    if e.credential.Bare? || e.credential.id.None? then NamedTo(db, e, after)
    else
      var id := e.credential.id.value;
      && (forall name :: Matches(db, t, name, id) ==> after == Details(Some(id), name))
      && (forall i: nat :: FirstLost(db, seen, t, id, i) ==> after == seen[i].credential)
      && ((forall name :: !Matches(db, t, name, id)) && (forall i: nat :: !FirstLost(db, seen, t, id, i)) ==>
            NamedTo(db, e, after))
  }

  lemma LostIff(db: Database, e: Entry, key: Key)
    requires e.credentialType == key.credentialType
    ensures UnresolvableAt(db, e, key) <==> Lost(db, e, key.text)
  {
    FoundByIdIff(db, key.credentialType, key.text);
    UniqueNamedNone(db, e.credentialType, e.credential.name);
  }

  lemma FirstLostIff(db: Database, seen: seq<Entry>, key: Key, i: nat)
    ensures FirstUnresolvable(db, seen, key, i) <==> FirstLost(db, seen, key.credentialType, key.text, i)
  {
    hide UnresolvableAt, Lost;
    forall j | 0 <= j < |seen| && seen[j].credentialType == key.credentialType
      ensures UnresolvableAt(db, seen[j], key) <==> Lost(db, seen[j], key.text)
    {
      LostIff(db, seen[j], key);
    }
    forall j | 0 <= j < |seen|
      ensures UnresolvableAt(db, seen[j], key) ==> seen[j].credentialType == key.credentialType
    {
      TypeOfUnresolvable(db, seen[j], key);
    }
  }

  lemma TypeOfUnresolvable(db: Database, e: Entry, key: Key)
    ensures UnresolvableAt(db, e, key) ==> e.credentialType == key.credentialType
  {}

  lemma NamedFresh(db: Database, e: Entry)
    ensures match UniqueNamed(db, e.credentialType, e.credential.name)
            case Some(id) => NamedTo(db, e, Details(Some(id), e.credential.name))
            case None => forall after :: Normal(after) == Normal(e.credential) ==> NamedTo(db, e, after)
  {
    var t, name := e.credentialType, e.credential.name;
    UniqueNamedNone(db, t, name);
    forall id { UniqueNamedIff(db, t, name, id); }
  }

  lemma OneByName(db: Database, seen: seq<Entry>, c: Caches, e: Entry)
    requires CachesOf(db, seen, c) && (e.credential.Bare? || e.credential.id.None?)
    ensures NamedTo(db, e, RepairOne(db, c, e).0)
  {
    UniqueNamedRow(db, e.credentialType, e.credential.name);
    NamedFresh(db, e);
    hide NamedTo, UniqueNamed;
  }

  lemma OneById(db: Database, seen: seq<Entry>, c: Caches, e: Entry, key: Key)
    requires CachesOf(db, seen, c) && e.credential.Details? && e.credential.id.Some?
    requires key == Key(e.credentialType, e.credential.id.value)
    ensures var after, known := RepairOne(db, c, e).0, FoundById(db, key.credentialType, key.text);
            && (known ==> after == Details(e.credential.id, db[key.text].name))
            && (forall i: nat :: FirstUnresolvable(db, seen, key, i) ==> after == seen[i].credential)
            && ((forall i: nat :: !FirstUnresolvable(db, seen, key, i)) && !known ==> NamedTo(db, e, after))
  {
    UniqueNamedRow(db, e.credentialType, e.credential.name);
    NamedFresh(db, e);
    hide NamedTo, UniqueNamed;
    var after := RepairOne(db, c, e).0;
    forall i: nat | FirstUnresolvable(db, seen, key, i) ensures after == seen[i].credential {
      assert key in c.byId;
      var k: nat :| FirstUnresolvable(db, seen, key, k) && seen[k].credential == c.byId[key];
      assert i == k;
    }
  }

  lemma OneRepaired(db: Database, seen: seq<Entry>, c: Caches, e: Entry)
    requires CachesOf(db, seen, c)
    ensures RepairedTo(db, seen, e, RepairOne(db, c, e).0)
  {
    hide CachesOf, NamedTo, RepairOne, FirstUnresolvable, FirstLost;
    if e.credential.Bare? || e.credential.id.None? {
      OneByName(db, seen, c, e);
    } else {
      var key := Key(e.credentialType, e.credential.id.value);
      OneById(db, seen, c, e, key);
      FoundByIdIff(db, key.credentialType, key.text);
      forall i: nat
        ensures FirstUnresolvable(db, seen, key, i) <==> FirstLost(db, seen, key.credentialType, key.text, i)
      {
        FirstLostIff(db, seen, key, i);
      }
    }
  }

  lemma {:induction false} EntriesRepaired(db: Database, seen: seq<Entry>, c: Caches, entries: seq<Entry>)
    requires CachesOf(db, seen, c)
    ensures var (r, after) := RepairEntries(db, c, entries);
            && |r| == |entries| && CachesOf(db, seen + entries, after)
            && forall k :: 0 <= k < |entries| ==>
                 r[k].credentialType == entries[k].credentialType
                 && RepairedTo(db, seen + entries[..k], entries[k], r[k].credential)
  {
    hide CachesOf, RepairOne, RepairedTo;
    if entries == [] {
      assert seen + entries == seen;
    } else {
      var n := |entries| - 1;
      var prefix := entries[..n];
      assert seen + entries == (seen + prefix) + [entries[n]];
      EntriesRepaired(db, seen, c, prefix);
      var (done, mid) := RepairEntries(db, c, prefix);
      assert forall k :: 0 <= k < n ==> prefix[..k] == entries[..k] && prefix[k] == entries[k];
      OneRepaired(db, seen + prefix, mid, entries[n]);
      VisitCaches(db, seen + prefix, mid, entries[n]);
    }
  }

  /** In an enabled node every credential becomes what the rows say, after those before it; other nodes stay. */
  ghost predicate NodeRepairedTo(db: Database, seen: seq<Entry>, before: Node, after: Node) {
    if before.credentials.None? || before.disabled then after == before
    else
      var entries := before.credentials.value;
      && after.disabled == before.disabled && after.credentials.Some? && |after.credentials.value| == |entries|
      && forall k :: 0 <= k < |entries| ==>
           after.credentials.value[k].credentialType == entries[k].credentialType
           && RepairedTo(db, seen + entries[..k], entries[k], after.credentials.value[k].credential)
  }

  lemma NodeRepaired(db: Database, seen: seq<Entry>, c: Caches, node: Node)
    requires CachesOf(db, seen, c)
    ensures NodeRepairedTo(db, seen, node, RepairNode(db, c, node).0)
    ensures CachesOf(db, seen + NodeEntries(node), RepairNode(db, c, node).1)
  {
    hide CachesOf, RepairedTo;
    if node.credentials.None? || node.disabled {
      assert seen + [] == seen;
    } else {
      EntriesRepaired(db, seen, c, node.credentials.value);
    }
  }

  /** The whole pass, whatever the names, in terms of the rows of the table alone. */
  lemma {:induction false} RepairFollowsRows(db: Database, nodes: seq<Node>)
    ensures var (r, after) := RepairNodes(db, nodes);
            && |r| == |nodes| && CachesOf(db, EnabledEntries(nodes), after)
            && forall i :: 0 <= i < |nodes| ==> NodeRepairedTo(db, EnabledEntries(nodes[..i]), nodes[i], r[i])
  {
    hide CachesOf, NodeRepairedTo, EnabledEntries, RepairNode;
    if nodes == [] {
      NothingSeen(db);
    } else {
      var n := |nodes| - 1;
      var prefix := nodes[..n];
      RepairFollowsRows(db, prefix);
      assert forall i :: 0 <= i < n ==> prefix[..i] == nodes[..i] && prefix[i] == nodes[i];
      NodeRepaired(db, EnabledEntries(prefix), RepairNodes(db, prefix).1, nodes[n]);
      EnabledOfNode(nodes);
    }
  }
}
