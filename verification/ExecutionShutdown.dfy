/** `shutdown` with `cancelAll` in regular mode: the wait loop and what it depends on. */
module ExecutionShutdown {
  import opened Counting
  import opened ConcurrencyControl
  import opened ActiveExecutions
  import opened ExecutionSlots
  import opened ExecutionLifecycle
  import Runs

  /** What may happen while shutdown waits: no add interleaves and nothing turns waiting. */
  ghost predicate Quiet(s: State, step: Step) {
    && Possible(s, step)
    && !step.Begin? && !step.Register? && !step.Shutdown? && !step.RemoveQueued?
    && (step.SetStatus? ==> step.status != Waiting)
  }

  /** The handler of registration `j` is due and will delete the id, whichever registration the map holds by then. */
  ghost predicate Deletes(s: State, j: nat, id: ExecutionId) {
    && j < |s.registrations| && s.registrations[j].id == id
    && Due(s.registrations[j]) && s.registrations[j].status != Waiting
  }

  ghost predicate HasDeleter(s: State, id: ExecutionId) {
    exists j: nat :: Deletes(s, j, id)
  }

  /** Every entry has a settled promise, and a handler due that deletes it. */
  ghost predicate Draining(s: State) {
    && Wf(s)
    && forall id :: id in s.active ==> s.registrations[s.active[id]].settled && HasDeleter(s, id)
  }

  /** An entry whose own handler has run is waiting, or another handler that is due deletes it. */
  ghost predicate EntriesGo(s: State)
    requires Wf(s)
  {
    forall id :: id in s.active && s.registrations[s.active[id]].handled ==> WaitsNow(s, id) || HasDeleter(s, id)
  }

  ghost function HandlersDue(s: State): nat {
    Count(Due, s.registrations)
  }

  /** What the pass with `cancelAll` does to the registrations and the map. */
  lemma CancelAllParts(s: State, order: seq<ExecutionId>)
    requires Wf(s) && Possible(s, Shutdown(true, order))
    ensures var t := Apply(s, Shutdown(true, order));
            && Wf(t) && |t.registrations| == |s.registrations|
            && (forall i :: 0 <= i < |s.registrations| ==>
                  t.registrations[i] == s.registrations[i].(settled := t.registrations[i].settled))
            && (forall i :: 0 <= i < |s.registrations| && (s.registrations[i].settled || !Current(s, i)) ==>
                  t.registrations[i] == s.registrations[i])
            && (forall id :: id in t.active <==> id in s.active && !WaitsNow(s, id))
            && (forall id :: id in t.active ==> t.active[id] == s.active[id] && t.registrations[t.active[id]].settled)
  {
    var d := s.(control := s.control.(enabled := false));
    CancelPassFrame(d, true, order);
    forall i | 0 <= i < |s.registrations| && !Current(s, i)
      ensures CancelPass(d, true, order).registrations[i] == s.registrations[i]
    {
      CancelPassSettles(d, true, order, i);
    }
    forall id | id in s.active
      ensures id in CancelPass(d, true, order).active <==> !WaitsNow(s, id)
      ensures !WaitsNow(s, id) ==> CancelPass(d, true, order).registrations[s.active[id]].settled
    {
      CancelPassActive(d, true, order, id);
    }
  }

  /**
   * An entry left by the pass has a settled promise; unless its handler has run before, that handler is due and
   * deletes.
   */
  lemma CancelPassLeavesDraining(s: State, order: seq<ExecutionId>)
    requires Wf(s) && EntriesGo(s) && Possible(s, Shutdown(true, order))
    ensures Draining(Apply(s, Shutdown(true, order)))
    ensures HandledOnlyWaiting(s) ==>
              forall id :: id in Apply(s, Shutdown(true, order)).active ==>
                Deleting(Apply(s, Shutdown(true, order)), id)
  {
    hide Apply;
    CancelAllParts(s, order);
    var t := Apply(s, Shutdown(true, order));
    forall id | id in t.active ensures HasDeleter(t, id) {
      if s.registrations[s.active[id]].handled {
        var j: nat :| Deletes(s, j, id);
        assert Deletes(t, j, id);
      } else {
        assert Deletes(t, t.active[id], id);
      }
    }
  }

  lemma DrainingUpdate(s: State, id: ExecutionId, f: Registration -> Registration)
    requires Draining(s)
    requires forall r :: f(r).id == r.id && f(r).handled == r.handled && (r.settled ==> f(r).settled)
    requires forall r: Registration :: r.status != Waiting ==> f(r).status != Waiting
    ensures Draining(Update(s, id, f)) && HandlersDue(Update(s, id, f)) == HandlersDue(s)
  {
    var t := Update(s, id, f);
    if id in s.active {
      CountUpdate(Due, s.registrations, s.active[id], f(s.registrations[s.active[id]]));
    }
    forall x | x in t.active ensures t.registrations[t.active[x]].settled && HasDeleter(t, x) {
      var j: nat :| Deletes(s, j, x);
      assert Deletes(t, j, x);
    }
  }

  lemma DrainingHandle(s: State, i: nat)
    requires Draining(s) && Possible(s, Handle(i))
    ensures Draining(DoHandle(s, i)) && HandlersDue(DoHandle(s, i)) == HandlersDue(s) - 1
  {
    var t := DoHandle(s, i);
    CountUpdate(Due, s.registrations, i, s.registrations[i].(handled := true));
    HandleParts(s, i);
    hide DoHandle;
    forall x | x in t.active ensures t.registrations[t.active[x]].settled && HasDeleter(t, x) {
      var j: nat :| Deletes(s, j, x);
      assert Deletes(t, j, x);
    }
  }

  lemma HandleParts(s: State, i: nat)
    requires Wf(s) && Possible(s, Handle(i))
    ensures var t := DoHandle(s, i);
            && Wf(t) && t.registrations == s.registrations[i := s.registrations[i].(handled := true)]
            && (forall x :: x in t.active <==> x in s.active && !Deletes(s, i, x))
            && (forall x :: x in t.active ==> t.active[x] == s.active[x])
  {
    WfStep(s, Handle(i));
  }

  lemma DrainingStop(s: State, id: ExecutionId)
    requires Draining(s)
    ensures Draining(DoStop(s, id)) && HandlersDue(DoStop(s, id)) == HandlersDue(s)
  {
    if id in s.active && s.registrations[s.active[id]].status == Waiting {
      var t := DoStop(s, id);
      forall x | x in t.active ensures HasDeleter(t, x) {
        var j: nat :| Deletes(s, j, x);
        assert Deletes(t, j, x);
      }
    } else {
      DrainingUpdate(s, id, (r: Registration) => r.(settled := true));
    }
  }

  lemma DrainingStep(s: State, step: Step)
    requires Draining(s) && Quiet(s, step)
    ensures Draining(Apply(s, step))
    ensures HandlersDue(Apply(s, step)) == HandlersDue(s) - (if step.Handle? then 1 else 0)
  {
    hide Draining, HandlersDue, Update, DoHandle;
    match step
    case Handle(i) => DrainingHandle(s, i);
    case SetStatus(id, status) => DrainingUpdate(s, id, (r: Registration) => r.(status := status));
    case AttachResponse(id) => DrainingUpdate(s, id, (r: Registration) => r.(hasResponse := true));
    case Stop(id) => DrainingStop(s, id);
    case Finalize(id) => DrainingUpdate(s, id, (r: Registration) => r.(settled := true));
  }

  /** While an entry remains, a handler can run; once no handler is due, the map is empty. */
  lemma DrainingProgress(s: State)
    requires Draining(s)
    ensures s.active != map[] ==> exists i :: Possible(s, Handle(i))
    ensures HandlersDue(s) == 0 ==> s.active == map[]
  {
    if s.active != map[] {
      var id :| id in s.active;
      var j: nat :| Deletes(s, j, id);
      assert Possible(s, Handle(j));
      CountUpdate(Due, s.registrations, j, s.registrations[j].(handled := true));
    }
  }

  function Handles(steps: seq<Step>): nat {
    if steps == [] then 0 else (if steps[0].Handle? then 1 else 0) + Handles(steps[1..])
  }

  lemma {:induction false} DrainingRun(s: State, steps: seq<Step>)
    requires Draining(s) && Runs.Permitted(Quiet, Apply, s, steps)
    ensures Draining(Runs.Final(Apply, s, steps))
    ensures HandlersDue(Runs.Final(Apply, s, steps)) == HandlersDue(s) - Handles(steps)
    decreases |steps|
  {
    if steps != [] {
      DrainingStep(s, steps[0]);
      DrainingRun(Apply(s, steps[0]), steps[1..]);
    }
  }

  /**
   * After any run in which waiting is left only by registering again, `shutdown(true)` empties the map: the handlers
   * due are a measure that every handler lowers and nothing raises, one can run while an entry remains, and without one
   * the map is empty.
   */
  lemma ShutdownEmpties(limit: nat, before: seq<Step>, order: seq<ExecutionId>, after: seq<Step>)
    requires Runs.Permitted(WaitsUntilResumed, Apply, Init(limit), before)
    requires Possible(Runs.Final(Apply, Init(limit), before), Shutdown(true, order))
    requires Runs.Permitted(Quiet, Apply, Apply(Runs.Final(Apply, Init(limit), before), Shutdown(true, order)), after)
    ensures var start := Apply(Runs.Final(Apply, Init(limit), before), Shutdown(true, order));
            var s := Runs.Final(Apply, start, after);
            && HandlersDue(s) == HandlersDue(start) - Handles(after)
            && (s.active != map[] ==> exists i :: Possible(s, Handle(i)))
            && (HandlersDue(s) == 0 ==> s.active == map[])
  {
    HandledOnlyWaitingOverRuns(limit, before);
    var s := Runs.Final(Apply, Init(limit), before);
    CancelPassLeavesDraining(s, order);
    DrainingRun(Apply(s, Shutdown(true, order)), after);
    DrainingProgress(Runs.Final(Apply, Apply(s, Shutdown(true, order)), after));
  }

  // ---------------------------------------------------------------- exactly when the wait ends

  /** The entry's own handler has run, it is not waiting, and no handler that is due deletes it. */
  ghost predicate Stuck(id: ExecutionId, s: State) {
    && Wf(s) && !HasDeleter(s, id)
    && id in s.active && s.registrations[s.active[id]].handled && s.registrations[s.active[id]].status != Waiting
  }

  lemma StuckUpdate(id: ExecutionId, s: State, x: ExecutionId, f: Registration -> Registration)
    requires Stuck(id, s)
    requires forall r :: f(r).id == r.id && f(r).handled == r.handled && (r.settled ==> f(r).settled)
    requires forall r: Registration :: r.status != Waiting ==> f(r).status != Waiting
    ensures Stuck(id, Update(s, x, f))
  {
    var t := Update(s, x, f);
    forall j: nat ensures !Deletes(t, j, id) {
      assert !Deletes(s, j, id);
    }
  }

  lemma StuckHandle(id: ExecutionId, s: State, i: nat)
    requires Stuck(id, s) && Possible(s, Handle(i))
    ensures Stuck(id, DoHandle(s, i))
  {
    var t := DoHandle(s, i);
    HandleParts(s, i);
    hide DoHandle;
    forall j: nat ensures !Deletes(t, j, id) {
      assert !Deletes(s, j, id);
    }
  }

  lemma StuckStop(id: ExecutionId, s: State, x: ExecutionId)
    requires Stuck(id, s)
    ensures Stuck(id, DoStop(s, x))
  {
    if x in s.active && s.registrations[s.active[x]].status == Waiting {
      forall j: nat ensures !Deletes(DoStop(s, x), j, id) {
        assert !Deletes(s, j, id);
      }
    } else {
      StuckUpdate(id, s, x, (r: Registration) => r.(settled := true));
    }
  }

  lemma StuckStep(id: ExecutionId, s: State, step: Step)
    requires Stuck(id, s) && Quiet(s, step)
    ensures Stuck(id, Apply(s, step))
  {
    hide Stuck, Update, DoHandle;
    match step
    case Handle(i) => StuckHandle(id, s, i);
    case SetStatus(x, status) => StuckUpdate(id, s, x, (r: Registration) => r.(status := status));
    case AttachResponse(x) => StuckUpdate(id, s, x, (r: Registration) => r.(hasResponse := true));
    case Stop(x) => StuckStop(id, s, x);
    case Finalize(x) => StuckUpdate(id, s, x, (r: Registration) => r.(settled := true));
  }

  lemma StuckPass(s: State, id: ExecutionId, order: seq<ExecutionId>)
    requires Stuck(id, s) && Possible(s, Shutdown(true, order))
    ensures Stuck(id, Apply(s, Shutdown(true, order)))
  {
    hide Apply;
    CancelAllParts(s, order);
    var t := Apply(s, Shutdown(true, order));
    forall j: nat ensures !Deletes(t, j, id) {
      assert !Deletes(s, j, id);
      if j < |s.registrations| && s.registrations[j].id == id && Current(s, j) {
        assert j == s.active[id];
      }
    }
  }

  /** Such an entry survives the pass and everything after it. */
  lemma StuckForever(s: State, id: ExecutionId, order: seq<ExecutionId>, after: seq<Step>)
    requires Stuck(id, s) && Possible(s, Shutdown(true, order))
    requires Runs.Permitted(Quiet, Apply, Apply(s, Shutdown(true, order)), after)
    ensures id in Runs.Final(Apply, Apply(s, Shutdown(true, order)), after).active
  {
    hide Apply, Quiet;
    StuckPass(s, id, order);
    var inv := (x: State) => Stuck(id, x);
    forall x, step | inv(x) && Quiet(x, step) ensures inv(Apply(x, step)) {
      StuckStep(id, x, step);
    }
    Runs.InvariantOverRun(inv, Quiet, Apply, Apply(s, Shutdown(true, order)), after);
  }

  /** The run that lets every handler that is due run, lowest number first. */
  ghost function DrainRun(s: State, n: nat): seq<Step>
    requires n <= |s.registrations|
  {
    if n == 0 then []
    else DrainRun(s, n - 1) + if Due(s.registrations[n - 1]) then [Handle(n - 1)] else []
  }

  lemma {:induction false} RunAppend(ok: (State, Step) -> bool, s: State, a: seq<Step>, b: seq<Step>)
    requires Runs.Permitted(ok, Apply, s, a) && Runs.Permitted(ok, Apply, Runs.Final(Apply, s, a), b)
    ensures Runs.Permitted(ok, Apply, s, a + b)
    ensures Runs.Final(Apply, s, a + b) == Runs.Final(Apply, Runs.Final(Apply, s, a), b)
    decreases |a|
  {
    if a == [] {
      assert a + b == b;
    } else {
      assert (a + b)[1..] == a[1..] + b;
      RunAppend(ok, Apply(s, a[0]), a[1..], b);
    }
  }

  lemma {:induction false} DrainRunHandles(s: State, n: nat)
    requires Draining(s) && n <= |s.registrations|
    ensures Runs.Permitted(Quiet, Apply, s, DrainRun(s, n))
    ensures var t := Runs.Final(Apply, s, DrainRun(s, n));
            && |t.registrations| == |s.registrations|
            && (forall i :: 0 <= i < n ==> !Due(t.registrations[i]))
            && (forall i :: n <= i < |s.registrations| ==> t.registrations[i] == s.registrations[i])
  {
    hide Draining, Quiet, DoHandle;
    if n > 0 {
      var run := DrainRun(s, n - 1);
      DrainRunHandles(s, n - 1);
      if Due(s.registrations[n - 1]) {
        var t := Runs.Final(Apply, s, run);
        DrainingRun(s, run);
        HandleDue(t, n - 1);
        Runs.OneStep(Quiet, Apply, t, Handle(n - 1));
        RunAppend(Quiet, s, run, [Handle(n - 1)]);
      } else {
        assert DrainRun(s, n) == run;
      }
    }
  }

  lemma HandleDue(s: State, i: nat)
    requires Draining(s) && i < |s.registrations| && Due(s.registrations[i])
    ensures Quiet(s, Handle(i))
    ensures Apply(s, Handle(i)).registrations == s.registrations[i := s.registrations[i].(handled := true)]
  {
    HandleParts(s, i);
  }

  lemma NothingDueMeansEmpty(s: State)
    requires Draining(s) && forall i :: 0 <= i < |s.registrations| ==> !Due(s.registrations[i])
    ensures s.active == map[]
  {
    assert forall id :: !HasDeleter(s, id);
  }

  /**
   * From any well-formed state `shutdown(true)` can end if and only if every entry whose own handler has run is waiting
   * or deleted by another handler that is due.
   */
  lemma ShutdownEndsIff(s: State, order: seq<ExecutionId>)
    requires Wf(s) && Possible(s, Shutdown(true, order))
    ensures EntriesGo(s) <==>
            exists after :: && Runs.Permitted(Quiet, Apply, Apply(s, Shutdown(true, order)), after)
                            && Runs.Final(Apply, Apply(s, Shutdown(true, order)), after).active == map[]
  {
    hide Apply, Quiet;
    var t := Apply(s, Shutdown(true, order));
    if EntriesGo(s) {
      CancelPassLeavesDraining(s, order);
      var after := DrainRun(t, |t.registrations|);
      DrainRunHandles(t, |t.registrations|);
      DrainingRun(t, after);
      NothingDueMeansEmpty(Runs.Final(Apply, t, after));
    } else {
      var id :| id in s.active && s.registrations[s.active[id]].handled && !WaitsNow(s, id) && !HasDeleter(s, id);
      forall after | Runs.Permitted(Quiet, Apply, t, after) ensures id in Runs.Final(Apply, t, after).active {
        StuckForever(s, id, order, after);
      }
    }
  }

  // ---------------------------------------------------------------- the loop

  /** One `sleep`: every handler that is due when it starts runs. */
  method Sleep(registry: ActiveExecutions)
    requires Draining(registry.Value())
    modifies registry, registry.concurrencyControl
    ensures Draining(registry.Value()) && registry.activeExecutions == map[]
    ensures registry.concurrencyControl.isEnabled == old(registry.concurrencyControl.isEnabled)
  {
    var n := |registry.registrations|;
    for i := 0 to n
      invariant Draining(registry.Value()) && |registry.registrations| == n
      invariant registry.concurrencyControl.isEnabled == old(registry.concurrencyControl.isEnabled)
      invariant forall j :: 0 <= j < i ==> !Due(registry.registrations[j])
    {
      if Due(registry.registrations[i]) {
        DrainingStep(registry.Value(), Handle(i));
        registry.OnSettled(i);
      }
    }
    NothingDueMeansEmpty(registry.Value());
  }

  /** `shutdown(true)`: the cancel pass, then the loop that sleeps until nothing is active. */
  method ShutdownAll(registry: ActiveExecutions, order: seq<ExecutionId>)
    requires Wf(registry.Value()) && EntriesGo(registry.Value())
    requires Possible(registry.Value(), Shutdown(true, order))
    modifies registry, registry.concurrencyControl
    ensures registry.activeExecutions == map[] && !registry.concurrencyControl.isEnabled
  {
    CancelPassLeavesDraining(registry.Value(), order);
    registry.CancelActive(true, order);
    ghost var was := old(registry.Value());
    CancelPassDisabled(was.(control := was.control.(enabled := false)), true, order);
    while registry.activeExecutions != map[]
      invariant Draining(registry.Value()) && !registry.concurrencyControl.isEnabled
      decreases registry.activeExecutions != map[]
    {
      Sleep(registry);
    }
  }
}
