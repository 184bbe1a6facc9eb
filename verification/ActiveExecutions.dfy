/**
 * The registry of active executions (packages/cli/src/active-executions.ts) in regular mode. Registration objects are
 * numbered in creation order; a settle handler keeps the number of its own registration but deletes by execution id.
 */
module ActiveExecutions {
  import opened Wrappers
  import opened ConcurrencyControl

  /** Every status other than these three behaves like `Finished` here. */
  datatype Status = New | Running | Waiting | Finished

  datatype Registration = Registration(
    id: ExecutionId, startedAt: int, status: Status, hasResponse: bool, limited: bool, settled: bool, handled: bool)

  /** An `add` call that has passed `throttle` and has not registered yet. */
  datatype Entering = Entering(id: ExecutionId, limited: bool)

  datatype State = State(
    control: Control, entering: seq<Entering>, registrations: seq<Registration>, active: map<ExecutionId, nat>)

  datatype Step =
    | Begin(id: ExecutionId, limited: bool)
    | Register(k: nat, now: int)
    | SetStatus(id: ExecutionId, status: Status)
    | AttachResponse(id: ExecutionId)
    | Stop(id: ExecutionId)
    | Finalize(id: ExecutionId)
    | Handle(i: nat)
    | RemoveQueued(id: ExecutionId)
    | Shutdown(cancelAll: bool, order: seq<ExecutionId>)

  ghost predicate Wf(s: State) {
    && (forall id :: id in s.active ==> s.active[id] < |s.registrations| && s.registrations[s.active[id]].id == id)
    && (forall i :: 0 <= i < |s.registrations| && s.registrations[i].handled ==> s.registrations[i].settled)
  }

  /** The registration's settle handler is due. */
  predicate Due(r: Registration) {
    r.settled && !r.handled
  }

  ghost predicate Possible(s: State, step: Step) {
    match step
    case Register(k, _) => k < |s.entering|
    case Handle(i) => i < |s.registrations| && Due(s.registrations[i])
    case Shutdown(_, order) => forall id :: id in order <==> id in s.active
    case _ => true
  }

  // ---------------------------------------------------------------- steps

  function Admit(s: State, r: (Control, Option<ExecutionId>)): State {
    s.(control := r.0, entering := s.entering + if r.1.Some? then [Entering(r.1.value, true)] else [])
  }

  function DoBegin(s: State, id: ExecutionId, limited: bool): State {
    var (control, admitted) := Throttled(s.control, limited, id);
    s.(control := control, entering := s.entering + if admitted then [Entering(id, limited)] else [])
  }

  function Fresh(s: State, e: Entering, now: int): Registration {
    if e.id in s.active && s.active[e.id] < |s.registrations| then
      var resuming := s.registrations[s.active[e.id]];
      Registration(e.id, resuming.startedAt, Running, resuming.hasResponse, e.limited, false, false)
    else Registration(e.id, now, Running, false, e.limited, false, false)
  }

  function DoRegister(s: State, k: nat, now: int): State {
    if k >= |s.entering| then s
    else
      var e := s.entering[k];
      s.(entering := s.entering[..k] + s.entering[k + 1..],
         registrations := s.registrations + [Fresh(s, e, now)],
         active := s.active[e.id := |s.registrations|])
  }

  function Update(s: State, id: ExecutionId, f: Registration -> Registration): State {
    if id in s.active && s.active[id] < |s.registrations| then
      s.(registrations := s.registrations[s.active[id] := f(s.registrations[s.active[id]])])
    else s
  }

  function DoSetStatus(s: State, id: ExecutionId, status: Status): State {
    Update(s, id, (r: Registration) => r.(status := status))
  }

  function DoAttachResponse(s: State, id: ExecutionId): State {
    Update(s, id, (r: Registration) => r.(hasResponse := true))
  }

  function DoStop(s: State, id: ExecutionId): State {
    if id in s.active && s.active[id] < |s.registrations| && s.registrations[s.active[id]].status == Waiting then
      s.(active := s.active - {id})
    else DoFinalize(s, id)
  }

  function DoFinalize(s: State, id: ExecutionId): State {
    Update(s, id, (r: Registration) => r.(settled := true))
  }

  function DoHandle(s: State, i: nat): State {
    if i >= |s.registrations| then s
    else
      var r := s.registrations[i];
      var admitted := Admit(s, Released(s.control, r.limited));
      var released := admitted.(registrations := s.registrations[i := r.(handled := true)]);
      if r.status == Waiting then released else released.(active := released.active - {r.id})
  }

  function DoRemoveQueued(s: State, id: ExecutionId): State {
    Admit(s, Removed(s.control, id))
  }

  function CancelOne(s: State, cancelAll: bool, id: ExecutionId): State {
    if id !in s.active || s.active[id] >= |s.registrations| then s
    else
      var r := s.registrations[s.active[id]];
      if r.hasResponse || cancelAll then DoStop(s, id)
      else if r.status == Waiting || r.status == New then s.(active := s.active - {id})
      else s
  }

  function CancelPass(s: State, cancelAll: bool, order: seq<ExecutionId>): State {
    if order == [] then s
    else CancelOne(CancelPass(s, cancelAll, order[..|order| - 1]), cancelAll, order[|order| - 1])
  }

  /** The synchronous part of `shutdown`: no more slots are handed out, then the cancel pass. */
  function DoShutdown(s: State, cancelAll: bool, order: seq<ExecutionId>): State {
    CancelPass(s.(control := s.control.(enabled := false)), cancelAll, order)
  }

  function Apply(s: State, step: Step): State {
    match step
    case Begin(id, limited) => DoBegin(s, id, limited)
    case Register(k, now) => DoRegister(s, k, now)
    case SetStatus(id, status) => DoSetStatus(s, id, status)
    case AttachResponse(id) => DoAttachResponse(s, id)
    case Stop(id) => DoStop(s, id)
    case Finalize(id) => DoFinalize(s, id)
    case Handle(i) => DoHandle(s, i)
    case RemoveQueued(id) => DoRemoveQueued(s, id)
    case Shutdown(cancelAll, order) => DoShutdown(s, cancelAll, order)
  }

  function Init(limit: nat): State {
    State(Control(true, limit, []), [], [], map[])
  }

  // ---------------------------------------------------------------- the registry object

  class ActiveExecutions {
    const concurrencyControl: ConcurrencyControlService
    var activeExecutions: map<ExecutionId, nat>
    var registrations: seq<Registration>
    var entering: seq<Entering>

    ghost function Value(): State
      reads this, concurrencyControl
    {
      State(concurrencyControl.Value(), entering, registrations, activeExecutions)
    }

    constructor (limit: nat)
      ensures fresh(concurrencyControl) && Value() == Init(limit)
    {
      concurrencyControl := new ConcurrencyControlService(limit);
      activeExecutions, registrations, entering := map[], [], [];
    }

    /** `add` up to and including `throttle`. */
    method AddUntilThrottled(id: ExecutionId, limited: bool)
      modifies this, concurrencyControl
      ensures Value() == DoBegin(old(Value()), id, limited)
    {
      var admitted := concurrencyControl.Throttle(limited, id);
      if admitted {
        entering := entering + [Entering(id, limited)];
      }
    }

    /** The rest of `add`: the registration replaces whatever the id had, and carries over what a resumed one keeps. */
    method AddRegister(k: nat, now: int)
      requires Wf(Value()) && Possible(Value(), Register(k, now))
      modifies this
      ensures Value() == DoRegister(old(Value()), k, now) && Wf(Value())
    {
      var e := entering[k];
      var startedAt, hasResponse := now, false;
      if e.id in activeExecutions {
        var resuming := registrations[activeExecutions[e.id]];
        startedAt, hasResponse := resuming.startedAt, resuming.hasResponse;
      }
      entering := entering[..k] + entering[k + 1..];
      activeExecutions := activeExecutions[e.id := |registrations|];
      registrations := registrations + [Registration(e.id, startedAt, Running, hasResponse, e.limited, false, false)];
    }

    /** Fails with `ExecutionNotFoundError` when the id is not active. */
    method SetStatus(id: ExecutionId, status: Status) returns (found: bool)
      requires Wf(Value())
      modifies this
      ensures Value() == DoSetStatus(old(Value()), id, status) && Wf(Value())
      ensures found == (id in old(activeExecutions))
    {
      found := id in activeExecutions;
      if found {
        var i := activeExecutions[id];
        registrations := registrations[i := registrations[i].(status := status)];
      }
    }

    method AttachResponsePromise(id: ExecutionId) returns (found: bool)
      requires Wf(Value())
      modifies this
      ensures Value() == DoAttachResponse(old(Value()), id) && Wf(Value())
      ensures found == (id in old(activeExecutions))
    {
      found := id in activeExecutions;
      if found {
        var i := activeExecutions[id];
        registrations := registrations[i := registrations[i].(hasResponse := true)];
      }
    }

    method StopExecution(id: ExecutionId)
      requires Wf(Value())
      modifies this
      ensures Value() == DoStop(old(Value()), id) && Wf(Value())
    {
      if id !in activeExecutions {
        return;
      }
      var i := activeExecutions[id];
      if registrations[i].status == Waiting {
        activeExecutions := activeExecutions - {id};
      } else {
        registrations := registrations[i := registrations[i].(settled := true)];
      }
    }

    method FinalizeExecution(id: ExecutionId)
      requires Wf(Value())
      modifies this
      ensures Value() == DoFinalize(old(Value()), id) && Wf(Value())
    {
      if id in activeExecutions {
        var i := activeExecutions[id];
        registrations := registrations[i := registrations[i].(settled := true)];
      }
    }

    /** The `finally` handler of registration `i`. */
    method OnSettled(i: nat)
      requires Wf(Value()) && Possible(Value(), Handle(i))
      modifies this, concurrencyControl
      ensures Value() == DoHandle(old(Value()), i) && Wf(Value())
    {
      var execution := registrations[i];
      var resolved := concurrencyControl.Release(execution.limited);
      if resolved.Some? {
        entering := entering + [Entering(resolved.value, true)];
      }
      registrations := registrations[i := execution.(handled := true)];
      if execution.status != Waiting {
        activeExecutions := activeExecutions - {execution.id};
      }
    }

    /** The cancel pass of `shutdown`. */
    method CancelActive(cancelAll: bool, order: seq<ExecutionId>)
      requires Wf(Value()) && Possible(Value(), Step.Shutdown(cancelAll, order))
      modifies this, concurrencyControl
      ensures Value() == DoShutdown(old(Value()), cancelAll, order) && Wf(Value())
    {
      concurrencyControl.Disable();
      assert order[..0] == [];
      ghost var start := Value();
      for n := 0 to |order|
        invariant Value() == CancelPass(start, cancelAll, order[..n]) && Wf(Value())
      {
        assert order[..n + 1][..n] == order[..n];
        var id := order[n];
        if id in activeExecutions {
          var r := registrations[activeExecutions[id]];
          if r.hasResponse || cancelAll {
            StopExecution(id);
          } else if r.status == Waiting || r.status == New {
            activeExecutions := activeExecutions - {id};
          }
        }
      }
      assert order[..|order|] == order;
    }
  }
}
