/** Capacity accounting over whole runs of the execution registry. */
module ExecutionSlots {
  import opened Wrappers
  import opened Counting
  import opened ConcurrencyControl
  import opened ActiveExecutions
  import Runs

  // ---------------------------------------------------------------- every run keeps the registry well formed

  lemma WfStep(s: State, step: Step)
    requires Wf(s) && Possible(s, step)
    ensures Wf(Apply(s, step))
  {
    hide CancelPass, DoRegister, DoHandle;
    match step
    case Register(k, now) => RegisterWf(s, k, now);
    case Handle(i) => HandleWf(s, i);
    case Shutdown(cancelAll, order) => CancelPassFrame(s.(control := s.control.(enabled := false)), cancelAll, order);
    case _ =>
  }

  lemma RegisterWf(s: State, k: nat, now: int)
    requires Wf(s) && k < |s.entering|
    ensures Wf(DoRegister(s, k, now))
  {}

  lemma HandleWf(s: State, i: nat)
    requires Wf(s) && i < |s.registrations| && Due(s.registrations[i])
    ensures Wf(DoHandle(s, i))
  {}

  /** What the cancel pass may do: settle registrations and drop entries. */
  ghost predicate Cancelled(s: State, t: State) {
    && Wf(t) && t.control == s.control && t.entering == s.entering
    && |t.registrations| == |s.registrations|
    && (forall i :: 0 <= i < |s.registrations| ==>
          && t.registrations[i] == s.registrations[i].(settled := t.registrations[i].settled)
          && (s.registrations[i].settled ==> t.registrations[i].settled))
    && (forall id :: id in t.active ==> id in s.active && t.active[id] == s.active[id])
  }

  lemma {:induction false} CancelPassFrame(s: State, cancelAll: bool, order: seq<ExecutionId>)
    requires Wf(s)
    ensures Cancelled(s, CancelPass(s, cancelAll, order))
  {
    hide CancelOne;
    if order != [] {
      CancelPassFrame(s, cancelAll, order[..|order| - 1]);
      CancelOneFrame(CancelPass(s, cancelAll, order[..|order| - 1]), cancelAll, order[|order| - 1]);
    }
  }

  lemma CancelOneFrame(s: State, cancelAll: bool, id: ExecutionId)
    requires Wf(s)
    ensures Cancelled(s, CancelOne(s, cancelAll, id))
  {}

  // ---------------------------------------------------------------- conservation

  /** An add that holds a slot until it registers. */
  ghost predicate HoldsBeforeRegistering(e: Entering) {
    e.limited
  }

  /** A registration that holds a slot until its settle handler runs. */
  ghost predicate HoldsUntilHandled(r: Registration) {
    r.limited && !r.handled
  }

  ghost function SlotsInUse(s: State): nat {
    Count(HoldsBeforeRegistering, s.entering) + Count(HoldsUntilHandled, s.registrations)
  }

  /** As long as the control is enabled, every slot is free, in use, or owed to a queued execution. */
  ghost predicate Conserved(limit: nat, s: State) {
    s.control.enabled ==> s.control.capacity == limit - SlotsInUse(s) - |s.control.queue|
  }

  lemma AdmitKeeps(limit: nat, s: State, r: (Control, Option<ExecutionId>))
    requires r.0.enabled ==>
               r.0.capacity == limit - SlotsInUse(s) - |r.0.queue| - (if r.1.Some? then 1 else 0)
    ensures Conserved(limit, Admit(s, r))
  {
    if r.1.Some? {
      CountAppend(HoldsBeforeRegistering, s.entering, Entering(r.1.value, true));
    } else {
      assert s.entering + [] == s.entering;
    }
  }

  lemma UpdateKeeps(s: State, id: ExecutionId, f: Registration -> Registration)
    requires forall r: Registration :: HoldsUntilHandled(f(r)) == HoldsUntilHandled(r)
    ensures SlotsInUse(Update(s, id, f)) == SlotsInUse(s) && Update(s, id, f).control == s.control
  {
    if id in s.active && s.active[id] < |s.registrations| {
      var i := s.active[id];
      CountUpdate(HoldsUntilHandled, s.registrations, i, f(s.registrations[i]));
    }
  }

  lemma RegisterKeeps(limit: nat, s: State, k: nat, now: int)
    requires Conserved(limit, s) && k < |s.entering|
    ensures Conserved(limit, DoRegister(s, k, now))
  {
    CountDrop(HoldsBeforeRegistering, s.entering, k);
    CountAppend(HoldsUntilHandled, s.registrations, Fresh(s, s.entering[k], now));
  }

  lemma HandleKeeps(limit: nat, s: State, i: nat)
    requires Conserved(limit, s) && i < |s.registrations| && Due(s.registrations[i])
    ensures Conserved(limit, DoHandle(s, i))
  {
    var r := s.registrations[i];
    CountUpdate(HoldsUntilHandled, s.registrations, i, r.(handled := true));
    var after := s.(registrations := s.registrations[i := r.(handled := true)]);
    AdmitKeeps(limit, after, Released(s.control, r.limited));
    assert SlotsInUse(DoHandle(s, i)) == SlotsInUse(Admit(after, Released(s.control, r.limited)));
  }

  lemma BeginKeeps(limit: nat, s: State, id: ExecutionId, limited: bool)
    requires Conserved(limit, s)
    ensures Conserved(limit, DoBegin(s, id, limited))
  {
    hide Count;
    CountAppend(HoldsBeforeRegistering, s.entering, Entering(id, limited));
    assert s.entering + [] == s.entering;
  }

  lemma ConservedStep(limit: nat, s: State, step: Step)
    requires Conserved(limit, s) && Possible(s, step)
    ensures Conserved(limit, Apply(s, step))
  {
    match step
    case Begin(id, limited) => BeginKeeps(limit, s, id, limited);
    case Register(k, now) => RegisterKeeps(limit, s, k, now);
    case SetStatus(id, status) => UpdateKeeps(s, id, (r: Registration) => r.(status := status));
    case AttachResponse(id) => UpdateKeeps(s, id, (r: Registration) => r.(hasResponse := true));
    case Stop(id) => UpdateKeeps(s, id, (r: Registration) => r.(settled := true));
    case Finalize(id) => UpdateKeeps(s, id, (r: Registration) => r.(settled := true));
    case Handle(i) => HandleKeeps(limit, s, i);
    case RemoveQueued(id) => AdmitKeeps(limit, s, Removed(s.control, id));
    case Shutdown(cancelAll, order) =>
      CancelPassDisabled(s.(control := s.control.(enabled := false)), cancelAll, order);
  }

  lemma {:induction false} CancelPassDisabled(s: State, cancelAll: bool, order: seq<ExecutionId>)
    ensures CancelPass(s, cancelAll, order).control == s.control
  {
    if order != [] {
      CancelPassDisabled(s, cancelAll, order[..|order| - 1]);
    }
  }

  /**
   * Over every interleaving, slots taken and not given back are exactly those of adds and registrations that still owe
   * a release.
   */
  lemma SlotConservation(limit: nat, steps: seq<Step>)
    requires Runs.Permitted(Possible, Apply, Init(limit), steps)
    ensures var s := Runs.Final(Apply, Init(limit), steps);
            s.control.enabled ==> limit - s.control.capacity == SlotsInUse(s) + |s.control.queue|
  {
    var inv := (s: State) => Conserved(limit, s);
    forall s, step | inv(s) && Possible(s, step) ensures inv(Apply(s, step)) {
      ConservedStep(limit, s, step);
    }
    Runs.InvariantOverRun(inv, Possible, Apply, Init(limit), steps);
  }

  ghost predicate HasHandled(i: nat, s: State) {
    i < |s.registrations| && s.registrations[i].handled
  }

  lemma HandledStep(i: nat, s: State, step: Step)
    requires HasHandled(i, s)
    ensures HasHandled(i, Apply(s, step))
  {
    if step.Shutdown? {
      CancelPassHandled(i, s.(control := s.control.(enabled := false)), step.cancelAll, step.order);
    }
  }

  lemma {:induction false} CancelPassHandled(i: nat, s: State, cancelAll: bool, order: seq<ExecutionId>)
    requires HasHandled(i, s)
    ensures HasHandled(i, CancelPass(s, cancelAll, order))
  {
    if order != [] {
      CancelPassHandled(i, s, cancelAll, order[..|order| - 1]);
    }
  }

  /** Once a registration's handler has run, no continuation lets it run, and release, again. */
  lemma NoSecondRelease(s: State, i: nat, steps: seq<Step>)
    requires Possible(s, Handle(i)) && Runs.Permitted(Possible, Apply, Apply(s, Handle(i)), steps)
    ensures !Possible(Runs.Final(Apply, Apply(s, Handle(i)), steps), Handle(i))
  {
    var inv := (x: State) => HasHandled(i, x);
    forall x, step | inv(x) && Possible(x, step) ensures inv(Apply(x, step)) {
      HandledStep(i, x, step);
    }
    Runs.InvariantOverRun(inv, Possible, Apply, Apply(s, Handle(i)), steps);
  }

  // ---------------------------------------------------------------- the limit

  /** A queued execution waits only while every slot is in use, and the queue accounts for the whole deficit. */
  ghost predicate Balanced(s: State) {
    s.control.enabled ==> |s.control.queue| == if s.control.capacity < 0 then -s.control.capacity else 0
  }

  lemma BalancedMeans(limit: nat, s: State)
    requires s.control.enabled && Conserved(limit, s) && Balanced(s)
    ensures SlotsInUse(s) <= limit && (s.control.queue != [] ==> SlotsInUse(s) == limit)
  {}

  /** Removing one queued execution while others wait lets one of those proceed although no slot came free. */
  predicate LetsOneTooManyIn(s: State, step: Step) {
    step.RemoveQueued? && s.control.enabled && step.id in s.control.queue && |s.control.queue| > 1
  }

  lemma CancelledKeepsBalance(s: State, step: Step)
    requires Possible(s, step) && !step.Begin? && !step.Handle? && !step.RemoveQueued?
    ensures Apply(s, step).control == s.control || !Apply(s, step).control.enabled
  {
    if step.Shutdown? {
      CancelPassDisabled(s.(control := s.control.(enabled := false)), step.cancelAll, step.order);
    }
  }

  lemma BalancedIff(s: State, step: Step)
    requires Balanced(s) && Possible(s, step)
    ensures Balanced(Apply(s, step)) <==> !LetsOneTooManyIn(s, step)
  {
    if !step.Begin? && !step.Handle? && !step.RemoveQueued? {
      CancelledKeepsBalance(s, step);
    }
    if step.RemoveQueued? {
      FindIndexFinds(s.control.queue, step.id);
    }
  }

  /** Without such a removal the limit is never exceeded, and slots are never left idle while executions wait. */
  lemma LimitRespected(limit: nat, steps: seq<Step>)
    requires Runs.Permitted((s, step) => Possible(s, step) && !LetsOneTooManyIn(s, step), Apply, Init(limit), steps)
    ensures var s := Runs.Final(Apply, Init(limit), steps);
            s.control.enabled ==> SlotsInUse(s) <= limit && (s.control.queue != [] ==> SlotsInUse(s) == limit)
  {
    var inv := (s: State) => Conserved(limit, s) && Balanced(s);
    var ok := (s, step) => Possible(s, step) && !LetsOneTooManyIn(s, step);
    forall s, step | inv(s) && ok(s, step) ensures inv(Apply(s, step)) {
      ConservedStep(limit, s, step);
      BalancedIff(s, step);
    }
    Runs.InvariantOverRun(inv, ok, Apply, Init(limit), steps);
    var s := Runs.Final(Apply, Init(limit), steps);
    if s.control.enabled {
      BalancedMeans(limit, s);
    }
  }

  /** From any accounted state the removal takes the slots in use to one above the limit. */
  lemma RemovalExceedsLimit(limit: nat, s: State, id: ExecutionId)
    requires Conserved(limit, s) && Balanced(s) && LetsOneTooManyIn(s, RemoveQueued(id))
    ensures SlotsInUse(Apply(s, RemoveQueued(id))) == limit + 1
  {
    hide SlotsInUse, Removed;
    ConservedStep(limit, s, RemoveQueued(id));
    RemovedCounts(s.control, id);
    assert Apply(s, RemoveQueued(id)).control == Removed(s.control, id).0;
    hide Apply;
  }

  function Beginning(ids: seq<ExecutionId>): seq<Step> {
    if ids == [] then [] else [Begin(ids[0], true)] + Beginning(ids[1..])
  }

  lemma {:induction false} BeganAll(limit: nat, s: State, ids: seq<ExecutionId>)
    requires s.control.enabled && Conserved(limit, s) && Balanced(s)
    ensures Runs.Permitted(Possible, Apply, s, Beginning(ids))
    ensures var t := Runs.Final(Apply, s, Beginning(ids));
            && t.control.enabled && Conserved(limit, t) && Balanced(t)
            && t.control.capacity == s.control.capacity - |ids|
    decreases |ids|
  {
    if ids != [] {
      var step := Begin(ids[0], true);
      assert Beginning(ids)[1..] == Beginning(ids[1..]);
      ConservedStep(limit, s, step);
      BalancedIff(s, step);
      BeganAll(limit, Apply(s, step), ids[1..]);
    }
  }

  /** Two executions more than the limit are enough: removing the first queued one exceeds it. */
  lemma LimitExceededFromStart(limit: nat, ids: seq<ExecutionId>)
    requires |ids| == limit + 2
    ensures Runs.Permitted(Possible, Apply, Init(limit), Beginning(ids))
    ensures var s := Runs.Final(Apply, Init(limit), Beginning(ids));
            && SlotsInUse(s) == limit && |s.control.queue| == 2
            && SlotsInUse(Apply(s, RemoveQueued(s.control.queue[0]))) == limit + 1
  {
    BeganAll(limit, Init(limit), ids);
    var s := Runs.Final(Apply, Init(limit), Beginning(ids));
    hide Apply, Runs.Final, Runs.Permitted;
    BalancedMeans(limit, s);
    RemovalExceedsLimit(limit, s, s.control.queue[0]);
  }

  // ---------------------------------------------------------------- first queued, first admitted

  /** The execution that a step puts into the queue, and the one it takes out to proceed. */
  function QueuedBy(s: State, step: Step): seq<ExecutionId> {
    if step.Begin? && !Throttled(s.control, step.limited, step.id).1 then [step.id] else []
  }

  function AdmittedBy(s: State, step: Step): seq<ExecutionId> {
    if step.Handle? && step.i < |s.registrations| then
      var resolved := Released(s.control, s.registrations[step.i].limited).1;
      if resolved.Some? then [resolved.value] else []
    else []
  }

  ghost function QueuedOver(s: State, steps: seq<Step>): seq<ExecutionId>
    decreases |steps|
  {
    if steps == [] then [] else QueuedBy(s, steps[0]) + QueuedOver(Apply(s, steps[0]), steps[1..])
  }

  ghost function AdmittedOver(s: State, steps: seq<Step>): seq<ExecutionId>
    decreases |steps|
  {
    if steps == [] then [] else AdmittedBy(s, steps[0]) + AdmittedOver(Apply(s, steps[0]), steps[1..])
  }

  lemma QueueStep(s: State, step: Step)
    requires Possible(s, step) && !step.RemoveQueued?
    ensures s.control.queue + QueuedBy(s, step) == AdmittedBy(s, step) + Apply(s, step).control.queue
  {
    if step.Shutdown? {
      CancelPassDisabled(s.(control := s.control.(enabled := false)), step.cancelAll, step.order);
    }
  }

  /** In runs without removals, what was queued is, in order, what was admitted followed by what still waits. */
  lemma {:induction false} FirstQueuedFirstAdmitted(s: State, steps: seq<Step>)
    requires Runs.Permitted((s, step: Step) => Possible(s, step) && !step.RemoveQueued?, Apply, s, steps)
    ensures s.control.queue + QueuedOver(s, steps)
         == AdmittedOver(s, steps) + Runs.Final(Apply, s, steps).control.queue
    decreases |steps|
  {
    hide Apply, QueuedBy, AdmittedBy, Possible;
    if steps != [] {
      var t := Apply(s, steps[0]);
      QueueStep(s, steps[0]);
      FirstQueuedFirstAdmitted(t, steps[1..]);
      var rest := QueuedOver(t, steps[1..]);
      assert s.control.queue + (QueuedBy(s, steps[0]) + rest) == (s.control.queue + QueuedBy(s, steps[0])) + rest;
      assert (AdmittedBy(s, steps[0]) + t.control.queue) + rest == AdmittedBy(s, steps[0]) + (t.control.queue + rest);
    }
  }
}
