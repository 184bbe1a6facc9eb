/** What the operations of the execution registry do to its fields, and the life of an execution step by step. */
module ExecutionSteps {
  import opened Wrappers
  import opened ConcurrencyControl
  import opened ActiveExecutions
  import opened ExecutionSlots
  import opened ExecutionLifecycle
  import opened ExecutionShutdown
  import Runs

  // ---------------------------------------------------------------- operations on the current registration

  /** The number of the registration that the map holds for the id. */
  ghost predicate Holds(s: State, id: ExecutionId, i: nat) {
    Wf(s) && id in s.active && s.active[id] == i
  }

  /** Only registration `i` may differ: the map, the capacity, the queue and the adds under way are as before. */
  ghost predicate OnlyRegistration(s: State, t: State, i: nat) {
    && t.active == s.active && t.control == s.control && t.entering == s.entering
    && |t.registrations| == |s.registrations|
    && forall j :: 0 <= j < |s.registrations| && j != i ==> t.registrations[j] == s.registrations[j]
  }

  /** `setStatus` stores the status in the registration that the map holds, and changes nothing else. */
  lemma StatusStored(s: State, id: ExecutionId, status: Status, i: nat)
    requires Holds(s, id, i)
    ensures var t := Apply(s, SetStatus(id, status));
            && OnlyRegistration(s, t, i)
            && var (before, after) := (s.registrations[i], t.registrations[i]);
               && after.status == status && after.id == id && after.startedAt == before.startedAt
               && after.hasResponse == before.hasResponse && after.limited == before.limited
               && after.settled == before.settled && after.handled == before.handled
  {}

  /** An attached response promise stays with the registration that the map holds. */
  lemma ResponseStored(s: State, id: ExecutionId, i: nat)
    requires Holds(s, id, i)
    ensures var t := Apply(s, AttachResponse(id));
            && OnlyRegistration(s, t, i)
            && var (before, after) := (s.registrations[i], t.registrations[i]);
               && after.hasResponse && after.id == id && after.status == before.status
               && after.startedAt == before.startedAt && after.limited == before.limited
               && after.settled == before.settled && after.handled == before.handled
  {}

  /**
   * `finalizeExecution`, and `stopExecution` unless the execution waits, settle the promise of that registration only.
   */
  lemma PromiseSettled(s: State, id: ExecutionId, step: Step, i: nat)
    requires Holds(s, id, i)
    requires step == Finalize(id) || (step == Stop(id) && s.registrations[i].status != Waiting)
    ensures var t := Apply(s, step);
            && OnlyRegistration(s, t, i)
            && var (before, after) := (s.registrations[i], t.registrations[i]);
               && after.settled && after.id == id && after.status == before.status
               && after.startedAt == before.startedAt && after.limited == before.limited
               && after.hasResponse == before.hasResponse && after.handled == before.handled
  {}

  /** Stopping a waiting execution takes its id, and nothing else, out of the map. */
  lemma WaitingStopped(s: State, id: ExecutionId, i: nat)
    requires Holds(s, id, i) && s.registrations[i].status == Waiting
    ensures var t := Apply(s, Stop(id));
            && t.registrations == s.registrations && t.control == s.control && t.entering == s.entering
            && id !in t.active
            && forall x :: x != id ==>
                 (x in t.active <==> x in s.active) && (x in t.active ==> t.active[x] == s.active[x])
  {}

  /** None of them does anything for an id that is not active. */
  lemma UnknownIgnored(s: State, id: ExecutionId, status: Status)
    requires id !in s.active
    ensures Apply(s, SetStatus(id, status)) == s && Apply(s, AttachResponse(id)) == s
    ensures Apply(s, Finalize(id)) == s && Apply(s, Stop(id)) == s
  {}

  // ---------------------------------------------------------------- adding

  /** With a free slot, or none needed, `add` goes on at once; otherwise the execution waits at the end of the queue. */
  lemma Begun(s: State, id: ExecutionId, limited: bool)
    ensures var t := Apply(s, Begin(id, limited));
            && t.registrations == s.registrations && t.active == s.active && t.control.enabled == s.control.enabled
            && (!limited || !s.control.enabled ==>
                  t.control == s.control && t.entering == s.entering + [Entering(id, limited)])
            && (limited && s.control.enabled ==>
                  && t.control.capacity == s.control.capacity - 1
                  && (s.control.capacity >= 1 ==>
                        t.control.queue == s.control.queue && t.entering == s.entering + [Entering(id, true)])
                  && (s.control.capacity <= 0 ==>
                        t.control.queue == s.control.queue + [id] && t.entering == s.entering))
  {}

  /** A new registration runs, unsettled; a resumed execution keeps its start and its response promise. */
  lemma Registered(s: State, k: nat, now: int)
    requires Wf(s) && k < |s.entering|
    ensures var t, n := Apply(s, Register(k, now)), |s.registrations|;
            var e := s.entering[k];
            && |t.registrations| == n + 1 && (forall j :: 0 <= j < n ==> t.registrations[j] == s.registrations[j])
            && t.control == s.control && t.entering == s.entering[..k] + s.entering[k + 1..]
            && e.id in t.active && t.active[e.id] == n
            && (forall x :: x != e.id ==>
                  (x in t.active <==> x in s.active) && (x in t.active ==> t.active[x] == s.active[x]))
            && var r := t.registrations[n];
               && r.id == e.id && r.limited == e.limited && r.status == Running && !r.settled && !r.handled
               && (e.id !in s.active ==> r.startedAt == now && !r.hasResponse)
               && (e.id in s.active ==>
                     && r.startedAt == s.registrations[s.active[e.id]].startedAt
                     && r.hasResponse == s.registrations[s.active[e.id]].hasResponse)
  {}

  // ---------------------------------------------------------------- the settle handler, and the status it reads

  /**
   * A handler deletes its id unless its own registration waits, and leaves every other entry and registration alone.
   */
  lemma HandlerRun(s: State, i: nat)
    requires Wf(s) && Possible(s, Handle(i))
    ensures var t, r := Apply(s, Handle(i)), s.registrations[i];
            && r.settled && !r.handled && |t.registrations| == |s.registrations|
            && (forall j :: 0 <= j < |s.registrations| && j != i ==> t.registrations[j] == s.registrations[j])
            && t.registrations[i] == r.(handled := true)
            && (forall x :: x in t.active <==> x in s.active && (x != r.id || r.status == Waiting))
            && (forall x :: x in t.active ==> t.active[x] == s.active[x])
  {}

  /** It gives the slot of its registration back, and the head of the queue, if there is one, goes on with it. */
  lemma HandlerReleases(s: State, i: nat)
    requires Possible(s, Handle(i))
    ensures var t, c := Apply(s, Handle(i)), s.control;
            if !c.enabled || !s.registrations[i].limited then t.control == c && t.entering == s.entering
            else
              && t.control.enabled && t.control.capacity == c.capacity + 1
              && (c.queue == [] ==> t.control.queue == [] && t.entering == s.entering)
              && (c.queue != [] ==>
                    t.control.queue == c.queue[1..] && t.entering == s.entering + [Entering(c.queue[0], true)])
  {
    assert s.entering + [] == s.entering;
  }

  /** An execution that is finalized leaves the map exactly when the status set last is not `waiting`. */
  lemma StatusDecidesRemoval(s: State, id: ExecutionId, status: Status, i: nat)
    requires Holds(s, id, i) && !s.registrations[i].handled
    ensures var s1 := Apply(s, SetStatus(id, status));
            var s2 := Apply(s1, Finalize(id));
            var s3 := Apply(s2, Handle(i));
            && Possible(s1, Finalize(id)) && Possible(s2, Handle(i))
            && (id in s3.active <==> status == Waiting) && (status == Waiting ==> s3.active[id] == i)
            && (forall x :: x != id ==> (x in s3.active <==> x in s.active))
  {
    hide Apply;
    var s1 := Apply(s, SetStatus(id, status));
    StatusStored(s, id, status, i);
    UpdatedWf(s, SetStatus(id, status));
    var s2 := Apply(s1, Finalize(id));
    PromiseSettled(s1, id, Finalize(id), i);
    UpdatedWf(s1, Finalize(id));
    HandlerRun(s2, i);
  }

  lemma UpdatedWf(s: State, step: Step)
    requires Wf(s) && Possible(s, step)
    ensures Wf(Apply(s, step))
  {
    WfStep(s, step);
  }

  /** And one that waits is resumed with the start and the response promise it had. */
  lemma WaitingResumes(s: State, id: ExecutionId, i: nat, k: nat, now: int)
    requires Holds(s, id, i) && !s.registrations[i].handled && k < |s.entering| && s.entering[k].id == id
    ensures var s1 := Apply(Apply(s, SetStatus(id, Waiting)), Finalize(id));
            var s2 := Apply(s1, Register(k, now));
            && Possible(s1, Register(k, now))
            && id in s2.active && s2.active[id] == |s.registrations|
            && var r := s2.registrations[s2.active[id]];
               r.startedAt == s.registrations[i].startedAt && r.hasResponse == s.registrations[i].hasResponse
  {
    hide Apply;
    StatusStored(s, id, Waiting, i);
    UpdatedWf(s, SetStatus(id, Waiting));
    var s0 := Apply(s, SetStatus(id, Waiting));
    PromiseSettled(s0, id, Finalize(id), i);
    UpdatedWf(s0, Finalize(id));
    Registered(Apply(s0, Finalize(id)), k, now);
  }

  /**
   * A new execution that meets a free slot and an empty queue comes and goes without a trace in the map or the
   * capacity.
   */
  lemma WholeLife(s: State, id: ExecutionId, now: int)
    requires Wf(s) && id !in s.active && s.control.enabled && s.control.capacity >= 1 && s.control.queue == []
    ensures var k, n := |s.entering|, |s.registrations|;
            var s1 := Apply(s, Begin(id, true));
            var s2 := Apply(s1, Register(k, now));
            var s3 := Apply(s2, Finalize(id));
            var s4 := Apply(s3, Handle(n));
            && Possible(s1, Register(k, now)) && Possible(s2, Finalize(id)) && Possible(s3, Handle(n))
            && s2.control.capacity == s.control.capacity - 1 && id in s2.active && s2.registrations[n].startedAt == now
            && s4.active == s.active && s4.control == s.control && s4.entering == s.entering
            && |s4.registrations| == n + 1 && s4.registrations[..n] == s.registrations
  {
    var k, n := |s.entering|, |s.registrations|;
    var s1 := Apply(s, Begin(id, true));
    var s2 := Apply(s1, Register(k, now));
    assert s2.entering == s.entering;
    var s3 := Apply(s2, Finalize(id));
    var s4 := Apply(s3, Handle(n));
    assert s4.active.Keys == s.active.Keys;
  }

  // ---------------------------------------------------------------- removing from the queue

  /** The first queued item of the id is taken out, its slot returns, and the next item, if any, proceeds. */
  lemma QueuedRemoved(c: Control, id: ExecutionId)
    requires c.enabled && id in c.queue
    ensures var (after, resolved) := Removed(c, id);
            && after.enabled && after.capacity == c.capacity + 1
            && exists i :: 0 <= i < |c.queue| && c.queue[i] == id && id !in c.queue[..i]
                 && (if resolved.Some? then [resolved.value] else []) + after.queue == c.queue[..i] + c.queue[i + 1..]
                 && (resolved.None? ==> after.queue == [])
  {
    var i := FindIndex(c.queue, id);
    FindIndexFinds(c.queue, id);
    var (after, resolved) := Removed(c, id);
    assert (if resolved.Some? then [resolved.value] else []) + after.queue == c.queue[..i] + c.queue[i + 1..];
  }

  /** In the registry the one that proceeds goes on with `add`; an id that is not queued changes nothing. */
  lemma QueuedRemovalAdmits(s: State, id: ExecutionId)
    ensures var t, resolved := Apply(s, RemoveQueued(id)), Removed(s.control, id).1;
            && t.registrations == s.registrations && t.active == s.active && t.control == Removed(s.control, id).0
            && t.entering == s.entering + (if resolved.Some? then [Entering(resolved.value, true)] else [])
            && (!s.control.enabled || id !in s.control.queue ==> t == s)
  {
    FindIndexFinds(s.control.queue, id);
    assert s.entering + [] == s.entering;
  }

  // ---------------------------------------------------------------- shutdown

  /** Once disabled, the control hands out and takes back nothing: whoever is queued stays queued. */
  lemma DisabledStep(s: State, step: Step)
    requires !s.control.enabled && Quiet(s, step)
    ensures Apply(s, step).control == s.control && Apply(s, step).entering == s.entering
  {
    assert s.entering + [] == s.entering;
  }

  /** From a shutdown on no handler admits an execution from the queue. */
  lemma NobodyAdmittedAfterShutdown(s: State, cancelAll: bool, order: seq<ExecutionId>, after: seq<Step>)
    requires Wf(s) && Possible(s, Shutdown(cancelAll, order))
    requires Runs.Permitted(Quiet, Apply, Apply(s, Shutdown(cancelAll, order)), after)
    ensures var t := Runs.Final(Apply, Apply(s, Shutdown(cancelAll, order)), after);
            && !t.control.enabled && t.control.queue == s.control.queue && t.control.capacity == s.control.capacity
            && t.entering == s.entering
  {
    hide Apply, Quiet;
    var start := Apply(s, Shutdown(cancelAll, order));
    ShutdownDisables(s, cancelAll, order);
    var inv := (x: State) => x.control == start.control && x.entering == start.entering;
    forall x, step | inv(x) && Quiet(x, step) ensures inv(Apply(x, step)) {
      DisabledStep(x, step);
    }
    Runs.InvariantOverRun(inv, Quiet, Apply, start, after);
  }

  lemma ShutdownDisables(s: State, cancelAll: bool, order: seq<ExecutionId>)
    requires Wf(s)
    ensures var t := Apply(s, Shutdown(cancelAll, order));
            t.control == s.control.(enabled := false) && t.entering == s.entering
  {
    CancelPassFrame(s.(control := s.control.(enabled := false)), cancelAll, order);
  }

  /** The cancel pass settles only executions that it stops and that do not wait. */
  lemma {:induction false} CancelPassSpares(s: State, cancelAll: bool, order: seq<ExecutionId>, id: ExecutionId)
    requires Wf(s) && id in s.active
    requires var r := s.registrations[s.active[id]]; r.status == Waiting || !(r.hasResponse || cancelAll)
    ensures |CancelPass(s, cancelAll, order).registrations| == |s.registrations|
    ensures CancelPass(s, cancelAll, order).registrations[s.active[id]] == s.registrations[s.active[id]]
  {
    if order != [] {
      CancelPassSpares(s, cancelAll, order[..|order| - 1], id);
      CancelPassFrame(s, cancelAll, order[..|order| - 1]);
    }
  }

  /**
   * For either value of `cancelAll`, the pass drops the waiting, and the new ones without a response promise unless all
   * are cancelled; it settles those with a response promise, or all; the rest it leaves running.
   */
  lemma CancelPassExact(s: State, cancelAll: bool, order: seq<ExecutionId>, id: ExecutionId)
    requires Wf(s) && Possible(s, Shutdown(cancelAll, order)) && id in s.active
    ensures var t, r := Apply(s, Shutdown(cancelAll, order)), s.registrations[s.active[id]];
            var stopped := r.hasResponse || cancelAll;
            && |t.registrations| == |s.registrations|
            && (id in t.active <==> r.status != Waiting && (r.status == New ==> stopped))
            && (id in t.active ==> t.active[id] == s.active[id])
            && t.registrations[s.active[id]] == r.(settled := r.settled || (stopped && r.status != Waiting))
  {
    var d := s.(control := s.control.(enabled := false));
    CancelPassFrame(d, cancelAll, order);
    CancelPassActive(d, cancelAll, order, id);
    var r := s.registrations[s.active[id]];
    if r.status == Waiting || !(r.hasResponse || cancelAll) {
      CancelPassSpares(d, cancelAll, order, id);
    }
  }
}
