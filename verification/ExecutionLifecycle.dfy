/** Late settle handlers, resumed executions and shutdown of the execution registry. */
module ExecutionLifecycle {
  import opened ConcurrencyControl
  import opened ActiveExecutions
  import opened ExecutionSlots
  import Runs

  /** Registration `i` is the one the map holds for its id. */
  ghost predicate Current(s: State, i: nat)
    requires i < |s.registrations|
  {
    var id := s.registrations[i].id;
    id in s.active && s.active[id] == i
  }

  // ---------------------------------------------------------------- late handlers

  /** A handler that is due and will delete belongs to the registration the map holds. */
  ghost predicate NoStaleHandler(s: State) {
    forall i :: 0 <= i < |s.registrations| && Due(s.registrations[i]) && s.registrations[i].status != Waiting ==>
      Current(s, i)
  }

  /** The steps that take a registration out of the map while its handler is due and going to delete. */
  ghost predicate StrandsHandler(s: State, step: Step) {
    match step
    case Register(k, _) => k < |s.entering| && Deleting(s, s.entering[k].id)
    case Shutdown(cancelAll, _) =>
      !cancelAll && exists id :: Deleting(s, id) && s.registrations[s.active[id]].status == New
                                 && !s.registrations[s.active[id]].hasResponse
    case _ => false
  }

  /** The map's registration of `id` has a handler due that will delete the id. */
  ghost predicate Deleting(s: State, id: ExecutionId) {
    && id in s.active && s.active[id] < |s.registrations|
    && Due(s.registrations[s.active[id]]) && s.registrations[s.active[id]].status != Waiting
  }

  /** In every well-formed state free of stale handlers, a step creates one exactly when it strands a handler. */
  lemma StaleHandlerIff(s: State, step: Step)
    requires Wf(s) && NoStaleHandler(s) && Possible(s, step)
    ensures NoStaleHandler(Apply(s, step)) <==> !StrandsHandler(s, step)
  {
    match step
    case Register(k, now) => RegisterStaleIff(s, k, now);
    case Shutdown(cancelAll, order) => ShutdownStaleIff(s, cancelAll, order);
    case Handle(i) => HandleNotStale(s, i);
    case SetStatus(id, status) => UpdateNotStale(s, id, (r: Registration) => r.(status := status));
    case AttachResponse(id) => UpdateNotStale(s, id, (r: Registration) => r.(hasResponse := true));
    case Finalize(id) => UpdateNotStale(s, id, (r: Registration) => r.(settled := true));
    case Stop(id) => UpdateNotStale(s, id, (r: Registration) => r.(settled := true));
    case _ =>
  }

  lemma UpdateNotStale(s: State, id: ExecutionId, f: Registration -> Registration)
    requires Wf(s) && NoStaleHandler(s) && forall r :: f(r).id == r.id
    ensures NoStaleHandler(Update(s, id, f))
  {}

  lemma HandleNotStale(s: State, i: nat)
    requires Wf(s) && NoStaleHandler(s) && i < |s.registrations| && Due(s.registrations[i])
    ensures NoStaleHandler(DoHandle(s, i))
  {
    var t := DoHandle(s, i);
    forall j | 0 <= j < |t.registrations| && Due(t.registrations[j]) && t.registrations[j].status != Waiting
      ensures Current(t, j)
    {
      assert j != i && Current(s, j);
    }
  }

  lemma RegisterStaleIff(s: State, k: nat, now: int)
    requires Wf(s) && NoStaleHandler(s) && k < |s.entering|
    ensures NoStaleHandler(DoRegister(s, k, now)) <==> !Deleting(s, s.entering[k].id)
  {
    var t, id := DoRegister(s, k, now), s.entering[k].id;
    if Deleting(s, id) {
      assert t.registrations[s.active[id]] == s.registrations[s.active[id]];
    } else {
      forall j | 0 <= j < |t.registrations| && Due(t.registrations[j]) && t.registrations[j].status != Waiting
        ensures Current(t, j)
      {
        assert j < |s.registrations| && t.registrations[j] == s.registrations[j] && Current(s, j);
      }
    }
  }

  lemma {:induction false} CancelPassActive(s: State, cancelAll: bool, order: seq<ExecutionId>, id: ExecutionId)
    requires Wf(s)
    ensures |CancelPass(s, cancelAll, order).registrations| == |s.registrations|
    ensures var t := CancelPass(s, cancelAll, order);
            id in s.active ==>
              var r := s.registrations[s.active[id]];
              var stopped := r.hasResponse || cancelAll;
              && (id in t.active <==> !(id in order && (r.status == Waiting || (r.status == New && !stopped))))
              && (id in order && r.status != Waiting && stopped ==> t.registrations[s.active[id]].settled)
  {
    if order != [] {
      var n := |order| - 1;
      assert order == order[..n] + [order[n]];
      CancelPassActive(s, cancelAll, order[..n], id);
      CancelPassFrame(s, cancelAll, order[..n]);
      if id in s.active && id != order[n] {
        CancelOneOther(CancelPass(s, cancelAll, order[..n]), cancelAll, order[n], id);
      }
    }
  }

  lemma CancelOneOther(s: State, cancelAll: bool, x: ExecutionId, id: ExecutionId)
    requires Wf(s) && x != id
    ensures id in CancelOne(s, cancelAll, x).active <==> id in s.active
    ensures |CancelOne(s, cancelAll, x).registrations| == |s.registrations|
    ensures forall i :: 0 <= i < |s.registrations| && s.registrations[i].settled ==>
              CancelOne(s, cancelAll, x).registrations[i].settled
  {}

  /** The pass settles only what the map holds. */
  lemma {:induction false} CancelPassSettles(s: State, cancelAll: bool, order: seq<ExecutionId>, i: nat)
    requires Wf(s) && i < |s.registrations| && !Current(s, i)
    ensures |CancelPass(s, cancelAll, order).registrations| == |s.registrations|
    ensures CancelPass(s, cancelAll, order).registrations[i] == s.registrations[i]
  {
    if order != [] {
      CancelPassSettles(s, cancelAll, order[..|order| - 1], i);
      CancelPassFrame(s, cancelAll, order[..|order| - 1]);
    }
  }

  lemma ShutdownStaleIff(s: State, cancelAll: bool, order: seq<ExecutionId>)
    requires Wf(s) && NoStaleHandler(s) && Possible(s, Shutdown(cancelAll, order))
    ensures NoStaleHandler(DoShutdown(s, cancelAll, order)) <==> !StrandsHandler(s, Shutdown(cancelAll, order))
  {
    var d := s.(control := s.control.(enabled := false));
    var t := DoShutdown(s, cancelAll, order);
    CancelPassFrame(d, cancelAll, order);
    if id :| !cancelAll && Deleting(s, id) && s.registrations[s.active[id]].status == New
             && !s.registrations[s.active[id]].hasResponse {
      CancelPassActive(d, cancelAll, order, id);
      assert Due(t.registrations[s.active[id]]);
      assert !Current(t, s.active[id]);
    } else {
      forall j | 0 <= j < |t.registrations| && Due(t.registrations[j]) && t.registrations[j].status != Waiting
        ensures Current(t, j)
      {
        if !Current(d, j) {
          CancelPassSettles(d, cancelAll, order, j);
        }
        assert Current(s, j);
        var id := s.registrations[j].id;
        CancelPassActive(d, cancelAll, order, id);
        if id !in t.active {
          assert t.registrations[j].settled && !s.registrations[j].handled;
          assert s.registrations[j].status == New && !s.registrations[j].hasResponse && !cancelAll;
          assert !s.registrations[j].settled;
          CancelPassLeavesDeleted(d, cancelAll, order, id);
        }
      }
    }
  }

  /** An entry that the pass deletes is not settled by it. */
  lemma {:induction false} CancelPassLeavesDeleted(s: State, cancelAll: bool, order: seq<ExecutionId>, id: ExecutionId)
    requires Wf(s) && id in s.active && !cancelAll
    requires s.registrations[s.active[id]].status == New && !s.registrations[s.active[id]].hasResponse
    ensures |CancelPass(s, cancelAll, order).registrations| == |s.registrations|
    ensures CancelPass(s, cancelAll, order).registrations[s.active[id]] == s.registrations[s.active[id]]
  {
    if order != [] {
      CancelPassLeavesDeleted(s, cancelAll, order[..|order| - 1], id);
      CancelPassFrame(s, cancelAll, order[..|order| - 1]);
    }
  }

  /** Where no handler is stale, a handler that runs removes no other registration from the map. */
  lemma LateHandlerHarmless(s: State, i: nat, id: ExecutionId)
    requires Wf(s) && NoStaleHandler(s) && Possible(s, Handle(i))
    requires id in s.active && s.active[id] != i
    ensures id in Apply(s, Handle(i)).active && Apply(s, Handle(i)).active[id] == s.active[id]
  {
    if s.registrations[i].status != Waiting {
      assert Current(s, i);
    }
  }

  /** Where one is stale and its id is registered again, running it removes the newer registration. */
  lemma StaleHandlerDeletes(s: State, i: nat)
    requires Wf(s) && Possible(s, Handle(i)) && s.registrations[i].status != Waiting && !Current(s, i)
    requires s.registrations[i].id in s.active
    ensures s.active[s.registrations[i].id] != i && s.registrations[i].id !in Apply(s, Handle(i)).active
  {}

  // ---------------------------------------------------------------- the discipline of the callers

  /** An id is registered again only when it is absent or waiting, and `new` never comes back. */
  ghost predicate Disciplined(s: State, step: Step) {
    Possible(s, step) &&
    match step
    case Register(k, _) => ResumesOnlyWaiting(s, s.entering[k].id)
    case SetStatus(_, status) => status != New
    case _ => true
  }

  /** And `setStatus` moves no waiting execution on: waiting is left by registering again. */
  ghost predicate WaitsUntilResumed(s: State, step: Step) {
    Disciplined(s, step) && (step.SetStatus? && WaitsNow(s, step.id) ==> step.status == Waiting)
  }

  ghost predicate WaitsNow(s: State, id: ExecutionId) {
    id in s.active && s.active[id] < |s.registrations| && s.registrations[s.active[id]].status == Waiting
  }

  ghost predicate ResumesOnlyWaiting(s: State, id: ExecutionId) {
    id in s.active ==> WaitsNow(s, id)
  }

  /** A registration the map still holds after its handler ran is waiting. */
  ghost predicate HandledOnlyWaiting(s: State) {
    forall id :: id in s.active && s.active[id] < |s.registrations| && s.registrations[s.active[id]].handled ==>
      WaitsNow(s, id)
  }

  ghost predicate NeverNew(s: State) {
    forall i :: 0 <= i < |s.registrations| ==> s.registrations[i].status != New
  }

  ghost predicate Orderly(s: State) {
    Wf(s) && NoStaleHandler(s) && NeverNew(s)
  }

  lemma OrderlyStep(s: State, step: Step)
    requires Orderly(s) && Disciplined(s, step)
    ensures Orderly(Apply(s, step))
  {
    WfStep(s, step);
    NotStranding(s, step);
    StaleHandlerIff(s, step);
    NeverNewStep(s, step);
  }

  lemma NotStranding(s: State, step: Step)
    requires Orderly(s) && Disciplined(s, step)
    ensures !StrandsHandler(s, step)
  {}

  lemma NeverNewStep(s: State, step: Step)
    requires Wf(s) && NeverNew(s) && Disciplined(s, step)
    ensures NeverNew(Apply(s, step))
  {
    if step.Shutdown? {
      CancelPassFrame(s.(control := s.control.(enabled := false)), step.cancelAll, step.order);
    }
  }

  lemma HandledOnlyWaitingStep(s: State, step: Step)
    requires Orderly(s) && HandledOnlyWaiting(s) && WaitsUntilResumed(s, step)
    ensures HandledOnlyWaiting(Apply(s, step))
  {
    if step.Shutdown? {
      CancelPassFrame(s.(control := s.control.(enabled := false)), step.cancelAll, step.order);
    } else if step.Handle? {
      HandleKeepsWaiting(s, step.i);
    }
  }

  lemma HandleKeepsWaiting(s: State, i: nat)
    requires Orderly(s) && HandledOnlyWaiting(s) && Possible(s, Handle(i))
    ensures HandledOnlyWaiting(DoHandle(s, i))
  {
    var t := DoHandle(s, i);
    forall id | id in t.active && t.active[id] < |t.registrations| && t.registrations[t.active[id]].handled
      ensures WaitsNow(t, id)
    {
      if t.active[id] == i {
        assert s.registrations[i].id == id;
      } else {
        assert WaitsNow(s, id);
      }
    }
  }

  /** While waiting is left only by registering again, an entry whose handler has run is waiting. */
  lemma HandledOnlyWaitingOverRuns(limit: nat, steps: seq<Step>)
    requires Runs.Permitted(WaitsUntilResumed, Apply, Init(limit), steps)
    ensures Orderly(Runs.Final(Apply, Init(limit), steps)) && HandledOnlyWaiting(Runs.Final(Apply, Init(limit), steps))
  {
    var inv := (s: State) => Orderly(s) && HandledOnlyWaiting(s);
    forall s, step | inv(s) && WaitsUntilResumed(s, step) ensures inv(Apply(s, step)) {
      OrderlyStep(s, step);
      HandledOnlyWaitingStep(s, step);
    }
    Runs.InvariantOverRun(inv, WaitsUntilResumed, Apply, Init(limit), steps);
  }

  /** Over every disciplined run no late handler of an older registration removes a newer one. */
  lemma LateHandlersHarmlessOverRuns(limit: nat, steps: seq<Step>, i: nat, id: ExecutionId)
    requires Runs.Permitted(Disciplined, Apply, Init(limit), steps)
    ensures var s := Runs.Final(Apply, Init(limit), steps);
            && Orderly(s)
            && (Possible(s, Handle(i)) && id in s.active && s.active[id] != i ==>
                  id in Apply(s, Handle(i)).active && Apply(s, Handle(i)).active[id] == s.active[id])
  {
    forall s, step | Orderly(s) && Disciplined(s, step) ensures Orderly(Apply(s, step)) {
      OrderlyStep(s, step);
    }
    Runs.InvariantOverRun(Orderly, Disciplined, Apply, Init(limit), steps);
    var s := Runs.Final(Apply, Init(limit), steps);
    if Possible(s, Handle(i)) && id in s.active && s.active[id] != i {
      LateHandlerHarmless(s, i, id);
    }
  }

  /**
   * Without the discipline it fails: an execution that has finished but whose handler is still due is registered again,
   * and the late handler then removes the new, running registration.
   */
  lemma UndisciplinedRunLosesRegistration(id: ExecutionId, limit: nat)
    ensures var steps := [Begin(id, false), Register(0, 1), Begin(id, false), Finalize(id), Register(0, 2)];
            var before := Runs.Final(Apply, Init(limit), steps);
            && Runs.Permitted(Possible, Apply, Init(limit), steps)
            && id in before.active && before.active[id] == 1 && |before.registrations| == 2
            && before.registrations[1].status == Running && !before.registrations[1].settled
            && Possible(before, Handle(0)) && id !in Apply(before, Handle(0)).active
  {
    var steps := [Begin(id, false), Register(0, 1), Begin(id, false), Finalize(id), Register(0, 2)];
    var s1 := Apply(Init(limit), steps[0]);
    var s2 := Apply(s1, steps[1]);
    var s3 := Apply(s2, steps[2]);
    var s4 := Apply(s3, steps[3]);
    var s5 := Apply(s4, steps[4]);
    assert s2.active == map[id := 0] && s2.entering == [];
    assert s4.registrations == [Registration(id, 1, Running, false, false, true, false)];
    assert s5.active == map[id := 1];
    assert s5.registrations == s4.registrations + [Registration(id, 1, Running, false, false, false, false)];
    FiveSteps(Init(limit), steps);
  }

  lemma FiveSteps(s: State, steps: seq<Step>)
    requires |steps| == 5
    ensures var s1 := Apply(s, steps[0]);
            var s2 := Apply(s1, steps[1]);
            var s3 := Apply(s2, steps[2]);
            var s4 := Apply(s3, steps[3]);
            && Runs.Final(Apply, s, steps) == Apply(s4, steps[4])
            && (Runs.Permitted(Possible, Apply, s, steps) <==>
                  Possible(s, steps[0]) && Possible(s1, steps[1]) && Possible(s2, steps[2]) && Possible(s3, steps[3])
                  && Possible(s4, steps[4]))
  {
    hide Apply, Possible;
    var s1 := Apply(s, steps[0]);
    var s2 := Apply(s1, steps[1]);
    var s3 := Apply(s2, steps[2]);
    var s4 := Apply(s3, steps[3]);
    Unfold(s, steps);
    Unfold(s1, steps[1..]);
    Unfold(s2, steps[2..]);
    Unfold(s3, steps[3..]);
    Unfold(s4, steps[4..]);
  }

  lemma Unfold(s: State, steps: seq<Step>)
    requires steps != []
    ensures Runs.Final(Apply, s, steps) == Runs.Final(Apply, Apply(s, steps[0]), steps[1..])
    ensures Runs.Permitted(Possible, Apply, s, steps)
        <==> Possible(s, steps[0]) && Runs.Permitted(Possible, Apply, Apply(s, steps[0]), steps[1..])
    ensures |steps| > 1 ==> steps[1..] != [] && forall k :: 0 <= k < |steps| ==> steps[k..][1..] == steps[k + 1..]
    ensures |steps| == 1 ==> steps[1..] == []
  {}

  // ---------------------------------------------------------------- what a resumed execution keeps

  ghost predicate Carries(id: ExecutionId, start: int, responds: bool, s: State) {
    && Wf(s) && id in s.active && s.registrations[s.active[id]].startedAt == start
    && (responds ==> s.registrations[s.active[id]].hasResponse)
  }

  ghost predicate StaysActive(id: ExecutionId, s: State, step: Step) {
    Possible(s, step) && id in Apply(s, step).active
  }

  lemma CarriesStep(id: ExecutionId, start: int, responds: bool, s: State, step: Step)
    requires Carries(id, start, responds, s) && StaysActive(id, s, step)
    ensures Carries(id, start, responds, Apply(s, step))
  {
    hide CancelPass, DoRegister, DoHandle;
    WfStep(s, step);
    if step.Shutdown? {
      CancelPassFrame(s.(control := s.control.(enabled := false)), step.cancelAll, step.order);
    } else if step.Register? {
      RegisterCarries(id, start, responds, s, step.k, step.now);
    } else if step.Handle? {
      HandleCarries(id, start, responds, s, step.i);
    }
  }

  lemma HandleCarries(id: ExecutionId, start: int, responds: bool, s: State, i: nat)
    requires Carries(id, start, responds, s) && Possible(s, Handle(i)) && id in DoHandle(s, i).active
    ensures Carries(id, start, responds, DoHandle(s, i))
  {
    HandleWf(s, i);
  }

  lemma RegisterCarries(id: ExecutionId, start: int, responds: bool, s: State, k: nat, now: int)
    requires Carries(id, start, responds, s) && k < |s.entering|
    ensures Carries(id, start, responds, DoRegister(s, k, now))
  {}

  /**
   * However often it is resumed, an id keeps its first start time and its response promise while it stays in the map.
   */
  lemma StartTimeKept(id: ExecutionId, s: State, steps: seq<Step>)
    requires Wf(s) && id in s.active
    requires Runs.Permitted((s, step) => StaysActive(id, s, step), Apply, s, steps)
    ensures var r := s.registrations[s.active[id]];
            Carries(id, r.startedAt, r.hasResponse, Runs.Final(Apply, s, steps))
  {
    var r := s.registrations[s.active[id]];
    var inv := (x: State) => Carries(id, r.startedAt, r.hasResponse, x);
    var ok := (x, step) => StaysActive(id, x, step);
    forall x, step | inv(x) && ok(x, step) ensures inv(Apply(x, step)) {
      CarriesStep(id, r.startedAt, r.hasResponse, x, step);
    }
    Runs.InvariantOverRun(inv, ok, Apply, s, steps);
  }
}
