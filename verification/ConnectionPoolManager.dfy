/**
 * The cache of connection pools (packages/nodes-base/utils/connection-pool-manager.ts). A pool and its abort controller
 * carry one number; a creation in flight has a number before it has an entry, so creations may overlap.
 */
module ConnectionPoolManager {
  import Runs

  const TTL := 5 * 60 * 1000
  const CLEAN_UP_INTERVAL := 60 * 1000

  type Key = string

  datatype Registration = Registration(controller: nat, lastUsed: int)

  datatype State = State(
    pools: map<Key, Registration>,
    aborted: set<nat>,
    listening: map<nat, Key>,   // what the abort listener of a controller cleans up
    creating: map<nat, Key>,    // creations whose handler has not answered yet
    made: set<nat>,             // the pools that handlers have answered with
    created: nat,
    now: int,
    lastSweep: int)

  datatype Step =
    | Hit(key: Key)
    | Miss(key: Key)
    | Complete(n: nat)
    | Reject(n: nat)
    | AbortController(n: nat)
    | Sweep(order: seq<Key>)
    | Purge(order: seq<Key>)
    | Wait(ms: nat)

  // ---------------------------------------------------------------- the re-entrant chain

  /** `abort()`: the first call runs the listener, which cleans up the key it was registered for. */
  function Aborted(s: State, n: nat): State
    decreases |s.pools|, 1
  {
    if n in s.aborted then s
    else
      var marked := s.(aborted := s.aborted + {n});
      if n in s.listening then CleanedUp(marked, s.listening[n]) else marked
  }

  /** `cleanupConnection`: the entry goes first, then its controller is aborted. */
  function CleanedUp(s: State, key: Key): State
    decreases |s.pools|, 0
  {
    if key !in s.pools then s
    else
      SmallerWithout(s.pools, key);
      Aborted(s.(pools := s.pools - {key}), s.pools[key].controller)
  }

  lemma SmallerWithout<K, V>(m: map<K, V>, k: K)
    requires k in m
    ensures |m - {k}| < |m|
  {
    assert (m - {k}).Keys == m.Keys - {k};
    assert |(m - {k}).Keys| == |m - {k}| && |m.Keys| == |m|;
  }

  function Swept(s: State, order: seq<Key>): State {
    if order == [] then s
    else
      var n := |order| - 1;
      var t := Swept(s, order[..n]);
      if order[n] in t.pools && t.now - t.pools[order[n]].lastUsed > TTL then CleanedUp(t, order[n]) else t
  }

  function Purged(s: State, order: seq<Key>): State {
    if order == [] then s else CleanedUp(Purged(s, order[..|order| - 1]), order[|order| - 1])
  }

  function Completed(s: State, n: nat): State {
    if n !in s.creating then s
    else
      var rest := s.(creating := s.creating - {n}, made := s.made + {n});
      if n in s.aborted then rest
      else
        rest.(pools := s.pools[s.creating[n] := Registration(n, s.now)], listening := s.listening[n := s.creating[n]])
  }

  function Apply(s: State, step: Step): State {
    match step
    case Hit(key) => if key in s.pools then s.(pools := s.pools[key := s.pools[key].(lastUsed := s.now)]) else s
    case Miss(key) => s.(creating := s.creating[s.created := key], created := s.created + 1)
    case Complete(n) => Completed(s, n)
    case Reject(n) => s.(creating := s.creating - {n})
    case AbortController(n) => Aborted(s, n)
    case Sweep(order) => Swept(s, order).(lastSweep := s.now)
    case Purge(order) => Purged(s, order)
    case Wait(ms) => s.(now := s.now + ms)
  }

  ghost predicate Enumerates(order: seq<Key>, pools: map<Key, Registration>) {
    forall key :: key in order <==> key in pools
  }

  /** The interval timer fires on time: time does not pass the next sweep. */
  ghost predicate Possible(s: State, step: Step) {
    match step
    case Hit(key) => key in s.pools
    case Miss(key) => key !in s.pools
    case Complete(n) => n in s.creating
    case Reject(n) => n in s.creating
    case AbortController(n) => n < s.created
    case Sweep(order) => Enumerates(order, s.pools)
    case Purge(order) => Enumerates(order, s.pools)
    case Wait(ms) => s.now + ms - s.lastSweep <= CLEAN_UP_INTERVAL
  }

  function Init(now: int): State {
    State(map[], {}, map[], map[], {}, 0, now, now)
  }

  // ---------------------------------------------------------------- the manager object

  class ConnectionPoolManager {
    var pools: map<Key, Registration>
    var aborted: set<nat>
    var listening: map<nat, Key>
    var creating: map<nat, Key>
    ghost var made: set<nat>
    var created: nat
    var now: int
    var lastSweep: int

    ghost function Value(): State
      reads this
    {
      State(pools, aborted, listening, creating, made, created, now, lastSweep)
    }

    constructor (now: int)
      ensures Value() == Init(now)
    {
      pools, aborted, listening, creating, made, created := map[], {}, map[], map[], {}, 0;
      this.now, lastSweep := now, now;
    }

    /**
     * A hit refreshes the entry and calls its `wasUsed` with the pool; a miss starts a creation. The result is the
     * number of the pool, made or in the making.
     */
    method GetConnection(key: Key) returns (n: nat, wasUsed: bool)
      modifies this
      ensures Value() == Apply(old(Value()), if key in old(pools) then Hit(key) else Miss(key))
      ensures n == if key in old(pools) then old(pools)[key].controller else old(created)
      ensures wasUsed <==> key in old(pools)
    {
      wasUsed := key in pools;
      if wasUsed {
        n := pools[key].controller;
        pools := pools[key := pools[key].(lastUsed := now)];
        return;
      }
      n := created;
      creating := creating[n := key];
      created := created + 1;
    }

    /** The handler has answered; a controller aborted meanwhile makes the creation fail. */
    method FinishConnection(n: nat) returns (ok: bool)
      requires n in creating
      modifies this
      ensures Value() == Completed(old(Value()), n)
      ensures ok == (n !in old(aborted))
    {
      var key := creating[n];
      creating, made := creating - {n}, made + {n};
      if n in aborted {
        return false;
      }
      pools := pools[key := Registration(n, now)];
      listening := listening[n := key];
      return true;
    }

    method Abort(n: nat)
      modifies this
      ensures Value() == Aborted(old(Value()), n)
      decreases |pools|, 1
    {
      if n in aborted {
        return;
      }
      aborted := aborted + {n};
      if n in listening {
        CleanupConnection(listening[n]);
      }
    }

    method CleanupConnection(key: Key)
      modifies this
      ensures Value() == CleanedUp(old(Value()), key)
      decreases |pools|, 0
    {
      if key in pools {
        var registration := pools[key];
        SmallerWithout(pools, key);
        pools := pools - {key};
        Abort(registration.controller);
      }
    }

    method CleanupStaleConnections(order: seq<Key>)
      modifies this
      ensures Value() == Apply(old(Value()), Sweep(order))
    {
      assert order[..0] == [];
      for i := 0 to |order|
        invariant Value() == Swept(old(Value()), order[..i])
      {
        assert order[..i + 1][..i] == order[..i];
        if order[i] in pools && now - pools[order[i]].lastUsed > TTL {
          CleanupConnection(order[i]);
        }
      }
      assert order[..|order|] == order;
      SweptClock(old(Value()), order);
      lastSweep := now;
    }

    method PurgeConnections(order: seq<Key>)
      modifies this
      ensures Value() == Purged(old(Value()), order)
    {
      assert order[..0] == [];
      for i := 0 to |order|
        invariant Value() == Purged(old(Value()), order[..i])
      {
        assert order[..i + 1][..i] == order[..i];
        CleanupConnection(order[i]);
      }
      assert order[..|order|] == order;
    }
  }

  lemma {:induction false} ChainFrame(s: State, n: nat)
    ensures var t := Aborted(s, n);
            && t == s.(pools := t.pools, aborted := t.aborted)
            && n in t.aborted && s.aborted <= t.aborted
            && (forall key :: key in t.pools ==> key in s.pools && t.pools[key] == s.pools[key])
    decreases |s.pools|
  {
    if n !in s.aborted && n in s.listening {
      var key := s.listening[n];
      var marked := s.(aborted := s.aborted + {n});
      if key in marked.pools {
        SmallerWithout(s.pools, key);
        ChainFrame(marked.(pools := marked.pools - {key}), marked.pools[key].controller);
      }
    }
  }

  lemma CleanupFrame(s: State, key: Key)
    ensures var t := CleanedUp(s, key);
            && t == s.(pools := t.pools, aborted := t.aborted)
            && key !in t.pools && s.aborted <= t.aborted
            && (forall k :: k in t.pools ==> k in s.pools && t.pools[k] == s.pools[k])
  {
    if key in s.pools {
      ChainFrame(s.(pools := s.pools - {key}), s.pools[key].controller);
    }
  }

  lemma {:induction false} SweptClock(s: State, order: seq<Key>)
    ensures Swept(s, order) == s.(pools := Swept(s, order).pools, aborted := Swept(s, order).aborted)
  {
    if order != [] {
      SweptClock(s, order[..|order| - 1]);
      CleanupFrame(Swept(s, order[..|order| - 1]), order[|order| - 1]);
    }
  }

  // ---------------------------------------------------------------- no registered pool is aborted

  /** Every entry belongs to a live controller whose listener guards that very entry. */
  ghost predicate Live(s: State) {
    && (forall key :: key in s.pools ==>
          var n := s.pools[key].controller;
          n !in s.aborted && n in s.listening && s.listening[n] == key && n !in s.creating)
    && (forall n :: n in s.creating || n in s.made || n in s.aborted ==> n < s.created)
    && (forall n :: n in s.creating ==> n !in s.made)
    && (forall n :: n in s.listening ==> n in s.made)
  }

  function Without(s: State, key: Key): State {
    if key in s.pools then s.(pools := s.pools - {key}, aborted := s.aborted + {s.pools[key].controller}) else s
  }

  /** In a live state the chain from a key ends after one entry. */
  lemma CleanupOne(s: State, key: Key)
    requires Live(s)
    ensures CleanedUp(s, key) == Without(s, key) && Live(CleanedUp(s, key))
  {
    if key in s.pools {
      var n := s.pools[key].controller;
      var t := s.(pools := s.pools - {key});
      assert Aborted(t, n) == CleanedUp(t.(aborted := t.aborted + {n}), key);
      assert CleanedUp(t.(aborted := t.aborted + {n}), key) == t.(aborted := t.aborted + {n});
      OwnersDiffer(s, key);
    }
  }

  lemma OwnersDiffer(s: State, key: Key)
    requires Live(s) && key in s.pools
    ensures forall k :: k in s.pools && k != key ==> s.pools[k].controller != s.pools[key].controller
  {}

  /** With its entry gone and its mark set, a controller's chain has nothing left to do. */
  lemma ChainEnds(s: State, m: nat, key: Key)
    requires m in s.listening && s.listening[m] == key && key !in s.pools
    ensures Aborted(s, m) == s.(aborted := s.aborted + {m})
  {
    if m in s.aborted {
      assert s.aborted + {m} == s.aborted;
    }
  }

  /** The chain from a controller whose key holds `m` by now: both marks are set, and the entry is gone. */
  lemma ChainOverEntry(s: State, n: nat, key: Key)
    requires Live(s) && n !in s.aborted && n in s.listening && s.listening[n] == key && key in s.pools
    ensures Aborted(s, n) == s.(pools := s.pools - {key}, aborted := s.aborted + {n} + {s.pools[key].controller})
  {
    var m := s.pools[key].controller;
    var t := s.(aborted := s.aborted + {n}, pools := s.pools - {key});
    assert Aborted(s, n) == CleanedUp(s.(aborted := s.aborted + {n}), key) == Aborted(t, m);
    hide Aborted, CleanedUp;
    ChainEnds(t, m, key);
  }

  lemma ChainWithoutEntry(s: State, n: nat)
    requires n !in s.aborted && (n in s.listening ==> s.listening[n] !in s.pools)
    ensures Aborted(s, n) == s.(aborted := s.aborted + {n})
  {}

  lemma LiveWithout(s: State, key: Key)
    requires Live(s)
    ensures Live(Without(s, key))
  {
    if key in s.pools {
      OwnersDiffer(s, key);
    }
  }

  /** A mark on a controller that no entry has keeps a state live. */
  lemma LiveMarked(s: State, n: nat)
    requires Live(s) && n < s.created && forall key :: key in s.pools ==> s.pools[key].controller != n
    ensures Live(s.(aborted := s.aborted + {n}))
  {}

  /** Aborting a controller takes down whatever its key holds by then, its own pool or a later one. */
  lemma AbortOne(s: State, n: nat)
    requires Live(s) && n < s.created
    ensures Aborted(s, n) ==
            if n in s.aborted then s
            else if n in s.listening then
              Without(s, s.listening[n]).(aborted := Without(s, s.listening[n]).aborted + {n})
            else s.(aborted := s.aborted + {n})
    ensures Live(Aborted(s, n))
  {
    hide CleanedUp;
    if n !in s.aborted {
      if n in s.listening && s.listening[n] in s.pools {
        var key := s.listening[n];
        ChainOverEntry(s, n, key);
        hide Aborted;
        assert s.aborted + {n} + {s.pools[key].controller} == s.aborted + {s.pools[key].controller} + {n};
        LiveWithout(s, key);
        LiveMarked(Without(s, key), n);
      } else {
        ChainWithoutEntry(s, n);
        hide Aborted;
        LiveMarked(s, n);
      }
    }
  }

  lemma {:induction false} SweepExact(s: State, order: seq<Key>)
    requires Live(s)
    ensures Live(Swept(s, order))
    ensures var t := Swept(s, order);
            && (forall key :: key in t.pools <==>
                  key in s.pools && !(key in order && s.now - s.pools[key].lastUsed > TTL))
            && (forall key :: key in t.pools ==> t.pools[key] == s.pools[key])
            && (forall n :: n in t.aborted <==>
                  (n in s.aborted ||
                   exists key :: key in order && key in s.pools && s.pools[key].controller == n
                                 && s.now - s.pools[key].lastUsed > TTL))
  {
    hide CleanedUp, Live;
    if order != [] {
      var m := |order| - 1;
      assert order == order[..m] + [order[m]];
      SweepExact(s, order[..m]);
      SweptClock(s, order[..m]);
      CleanupOne(Swept(s, order[..m]), order[m]);
    }
  }

  lemma {:induction false} PurgeExact(s: State, order: seq<Key>)
    requires Live(s)
    ensures Live(Purged(s, order))
    ensures var t := Purged(s, order);
            && t == s.(pools := t.pools, aborted := t.aborted)
            && (forall key :: key in t.pools <==> key in s.pools && key !in order)
            && (forall key :: key in t.pools ==> t.pools[key] == s.pools[key])
            && (forall n :: n in t.aborted <==>
                  (n in s.aborted || exists key :: key in order && key in s.pools && s.pools[key].controller == n))
  {
    hide CleanedUp, Live;
    if order != [] {
      var m := |order| - 1;
      assert order == order[..m] + [order[m]];
      PurgeExact(s, order[..m]);
      CleanupOne(Purged(s, order[..m]), order[m]);
    }
  }

  lemma LiveStep(s: State, step: Step)
    requires Live(s) && Possible(s, step)
    ensures Live(Apply(s, step))
  {
    match step
    case AbortController(n) => AbortOne(s, n);
    case Sweep(order) => SweepExact(s, order);
    case Purge(order) => PurgeExact(s, order);
    case _ =>
  }

  /** In every state of every run, overlapping creations included, no registered pool has an aborted controller. */
  lemma NoAbortedPoolRegistered(now: int, steps: seq<Step>, key: Key)
    requires Runs.Permitted(Possible, Apply, Init(now), steps)
    ensures var s := Runs.Final(Apply, Init(now), steps);
            Live(s) && (key in s.pools ==> s.pools[key].controller !in s.aborted)
  {
    forall s, step | Live(s) && Possible(s, step) ensures Live(Apply(s, step)) {
      LiveStep(s, step);
    }
    Runs.InvariantOverRun(Live, Possible, Apply, Init(now), steps);
  }

  // ---------------------------------------------------------------- registered or aborted

  ghost predicate Registered(s: State, n: nat) {
    n in s.listening && s.listening[n] in s.pools && s.pools[s.listening[n]].controller == n
  }

  /** Every pool ever made is registered or aborted (and, in live states, not both). */
  ghost predicate Accounted(s: State) {
    forall n :: n in s.made ==> Registered(s, n) || n in s.aborted
  }

  /** A creation that completes over an entry made for the same key in the meantime. */
  ghost predicate Overwrites(s: State, step: Step) {
    step.Complete? && step.n in s.creating && step.n !in s.aborted && s.creating[step.n] in s.pools
  }

  lemma AccountedIff(s: State, step: Step)
    requires Live(s) && Accounted(s) && Possible(s, step)
    ensures Accounted(Apply(s, step)) <==> !Overwrites(s, step)
  {
    match step
    case AbortController(n) => AbortOne(s, n);
    case Sweep(order) =>
      SweepExact(s, order);
      SweptClock(s, order);
    case Purge(order) => PurgeExact(s, order);
    case Complete(n) =>
      if Overwrites(s, step) {
        var old_ := s.pools[s.creating[n]].controller;
        assert old_ in Apply(s, step).made && !Registered(Apply(s, step), old_);
      }
    case _ =>
  }

  /** Creations for one key never overlap: a miss only while none is in flight for the key. */
  ghost predicate NonOverlapping(s: State, step: Step) {
    Possible(s, step) && (step.Miss? ==> forall n :: n in s.creating ==> s.creating[n] != step.key)
  }

  ghost predicate Exclusive(s: State) {
    && Live(s) && Accounted(s)
    && (forall n :: n in s.creating ==> s.creating[n] !in s.pools)
    && (forall n, m :: n in s.creating && m in s.creating && n != m ==> s.creating[n] != s.creating[m])
  }

  lemma ExclusiveStep(s: State, step: Step)
    requires Exclusive(s) && NonOverlapping(s, step)
    ensures Exclusive(Apply(s, step))
  {
    LiveStep(s, step);
    AccountedIff(s, step);
    match step
    case AbortController(n) => AbortOne(s, n);
    case Sweep(order) =>
      SweepExact(s, order);
      SweptClock(s, order);
    case Purge(order) => PurgeExact(s, order);
    case _ =>
  }

  /** When creations never overlap, every pool ever made is at all times exactly one of registered or aborted. */
  lemma RegisteredXorAborted(now: int, steps: seq<Step>, n: nat)
    requires Runs.Permitted(NonOverlapping, Apply, Init(now), steps)
    ensures var s := Runs.Final(Apply, Init(now), steps);
            n in s.made ==> (Registered(s, n) <==> n !in s.aborted)
  {
    forall s, step | Exclusive(s) && NonOverlapping(s, step) ensures Exclusive(Apply(s, step)) {
      ExclusiveStep(s, step);
    }
    Runs.InvariantOverRun(Exclusive, NonOverlapping, Apply, Init(now), steps);
  }

  // ---------------------------------------------------------------- what overlapping creations leave behind

  ghost predicate Orphaned(n: nat, s: State) {
    Live(s) && n in s.listening && n !in s.aborted && !Registered(s, n)
  }

  /** Two overlapping misses for one key leave the first pool neither registered nor aborted. */
  lemma OverlapOrphans(s: State, n: nat, m: nat)
    requires Live(s) && n != m && n in s.creating && m in s.creating && s.creating[n] == s.creating[m]
    requires n !in s.aborted && m !in s.aborted
    ensures Orphaned(n, Apply(Apply(s, Complete(n)), Complete(m)))
  {
    LiveStep(s, Complete(n));
    LiveStep(Apply(s, Complete(n)), Complete(m));
  }

  /** No hit, sweep or purge ever closes an orphaned pool: only its own controller does. */
  lemma OrphanNeverCleanedUp(s: State, n: nat, steps: seq<Step>)
    requires Orphaned(n, s)
    requires Runs.Permitted((x, step) => Possible(x, step) && step != AbortController(n), Apply, s, steps)
    ensures Orphaned(n, Runs.Final(Apply, s, steps))
  {
    var inv := (x: State) => Orphaned(n, x);
    var ok := (x, step) => Possible(x, step) && step != AbortController(n);
    forall x, step | inv(x) && ok(x, step) ensures inv(Apply(x, step)) {
      LiveStep(x, step);
      match step
      case AbortController(k) => AbortOne(x, k);
      case Sweep(order) =>
        SweepExact(x, order);
        SweptClock(x, order);
      case Purge(order) => PurgeExact(x, order);
      case _ =>
    }
    Runs.InvariantOverRun(inv, ok, Apply, s, steps);
  }

  /** And when it does, its listener takes down the pool registered under the key since. */
  lemma OrphanTakesSuccessorDown(s: State, n: nat)
    requires Orphaned(n, s) && s.listening[n] in s.pools
    ensures var successor := s.pools[s.listening[n]].controller;
            && successor != n && successor !in s.aborted && successor in Aborted(s, n).aborted
            && s.listening[n] !in Aborted(s, n).pools
  {
    AbortOne(s, n);
  }

  // ---------------------------------------------------------------- what a creation leads to

  /** Only the entry of `key` may differ. */
  ghost predicate OnlyEntry(s: State, t: State, key: Key) {
    forall k :: k != key ==> (k in t.pools <==> k in s.pools) && (k in t.pools ==> t.pools[k] == s.pools[k])
  }

  /** A miss starts one creation, for its key and under a fresh number, and registers nothing yet. */
  lemma MissStartsCreation(s: State, key: Key)
    requires Live(s)
    ensures var t := Apply(s, Miss(key));
            && s.created !in s.creating && s.created in t.creating && t.creating[s.created] == key
            && (forall n :: n != s.created ==>
                  (n in t.creating <==> n in s.creating) && (n in t.creating ==> t.creating[n] == s.creating[n]))
            && t.created == s.created + 1 && t.pools == s.pools && t.aborted == s.aborted && t.listening == s.listening
  {}

  /** A creation that answers registers its pool under its key, used just now; an aborted one registers nothing. */
  lemma CreationRegisters(s: State, n: nat)
    requires Live(s) && n in s.creating
    ensures var t, key := Apply(s, Complete(n)), s.creating[n];
            && n !in t.creating && t.aborted == s.aborted && t.now == s.now && t.created == s.created
            && (n in s.aborted ==> t.pools == s.pools && t.listening == s.listening)
            && (n !in s.aborted ==>
                  && key in t.pools && t.pools[key].controller == n && t.pools[key].lastUsed == s.now
                  && OnlyEntry(s, t, key) && n in t.listening && t.listening[n] == key && Registered(t, n))
  {}

  /** A creation that fails leaves no trace but its number. */
  lemma RejectedLeavesNothing(s: State, n: nat)
    ensures var t := Apply(s, Reject(n));
            n !in t.creating && t == s.(creating := t.creating) && t.creating == s.creating - {n}
  {}

  /** A hit keeps the pool and marks it as used just now. */
  lemma HitRefreshes(s: State, key: Key)
    requires key in s.pools
    ensures var t := Apply(s, Hit(key));
            && key in t.pools && t.pools[key].controller == s.pools[key].controller && t.pools[key].lastUsed == s.now
            && OnlyEntry(s, t, key) && t == s.(pools := t.pools)
  {}

  /** A pool created within the last five minutes survives a sweep; one created earlier and unused is closed by it. */
  lemma CreationDecidesSweep(s: State, n: nat, ms: nat, order: seq<Key>)
    requires Live(s) && n in s.creating && n !in s.aborted
    requires var t := Apply(Apply(s, Complete(n)), Wait(ms)); Enumerates(order, t.pools)
    ensures var t, key := Apply(Apply(Apply(s, Complete(n)), Wait(ms)), Sweep(order)), s.creating[n];
            if ms <= 300000 then key in t.pools && t.pools[key].controller == n && n !in t.aborted
            else key !in t.pools && n in t.aborted
  {
    LiveStep(s, Complete(n));
    var t := Apply(Apply(s, Complete(n)), Wait(ms));
    SweepExact(t, order);
    OwnersDiffer(t, s.creating[n]);
  }

  /** A key that is missed and created is hit afterwards, with the pool of that creation. */
  lemma MissThenHit(s: State, key: Key, ms: nat)
    requires Live(s) && key !in s.pools
    ensures var n := s.created;
            var t := Apply(Apply(Apply(s, Miss(key)), Wait(ms)), Complete(n));
            Possible(t, Hit(key)) && t.pools[key].controller == n && t.pools[key].lastUsed == s.now + ms
  {
    LiveStep(s, Miss(key));
    var waited := Apply(Apply(s, Miss(key)), Wait(ms));
    CreationRegisters(waited, s.created);
  }

  // ---------------------------------------------------------------- idle time

  /** A pool used within the last five minutes survives a sweep; one unused for longer is closed by it. */
  lemma UseDecidesSweep(s: State, key: Key, ms: nat, order: seq<Key>)
    requires Live(s) && key in s.pools
    requires var t := Apply(Apply(s, Hit(key)), Wait(ms)); Enumerates(order, t.pools)
    ensures var t := Apply(Apply(Apply(s, Hit(key)), Wait(ms)), Sweep(order));
            var n := s.pools[key].controller;
            if ms <= 300000 then key in t.pools && t.pools[key].controller == n && n !in t.aborted
            else key !in t.pools && n in t.aborted
  {
    LiveStep(s, Hit(key));
    var t := Apply(Apply(s, Hit(key)), Wait(ms));
    SweepExact(t, order);
    OwnersDiffer(t, key);
  }

  ghost predicate IdleBounded(s: State) {
    && Live(s) && s.lastSweep <= s.now <= s.lastSweep + CLEAN_UP_INTERVAL
    && forall key :: key in s.pools ==> s.pools[key].lastUsed <= s.now && s.lastSweep - s.pools[key].lastUsed <= TTL
  }

  lemma IdleStep(s: State, step: Step)
    requires IdleBounded(s) && Possible(s, step)
    ensures IdleBounded(Apply(s, step))
  {
    LiveStep(s, step);
    match step
    case AbortController(n) => AbortOne(s, n);
    case Sweep(order) =>
      SweepExact(s, order);
      SweptClock(s, order);
    case Purge(order) => PurgeExact(s, order);
    case _ =>
  }

  /** With a sweep every minute no registered pool is ever idle for more than six minutes. */
  lemma IdleAtMostSixMinutes(now: int, steps: seq<Step>, key: Key)
    requires Runs.Permitted(Possible, Apply, Init(now), steps)
    ensures var s := Runs.Final(Apply, Init(now), steps);
            key in s.pools ==> 0 <= s.now - s.pools[key].lastUsed <= 360000
  {
    forall s, step | IdleBounded(s) && Possible(s, step) ensures IdleBounded(Apply(s, step)) {
      IdleStep(s, step);
    }
    Runs.InvariantOverRun(IdleBounded, Possible, Apply, Init(now), steps);
  }
}
