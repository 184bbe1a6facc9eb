/** Timers of waiting executions on the leader (packages/cli/src/wait-tracker.ts). */
module WaitTracker {
  import Runs

  type ExecutionId = string

  /** A live timer: what it starts, and when. */
  datatype Timer = Timer(executionId: ExecutionId, due: int)

  datatype Found = Found(id: ExecutionId, waitTill: int)

  datatype State = State(waiting: map<ExecutionId, nat>, timers: map<nat, Timer>, nextTimer: nat)

  datatype Step =
    | Poll(found: seq<Found>)         // the answer to a query for waiting executions
    | Fire(timer: nat)                // a timer fires and enters startExecution
    | StopExecution(id: ExecutionId)
    | Resume(id: ExecutionId)         // startExecution entered directly, as for a parent execution
    | StopTracking

  function Armed(s: State, f: Found): State {
    if f.id in s.waiting then s
    else State(s.waiting[f.id := s.nextTimer], s.timers[s.nextTimer := Timer(f.id, f.waitTill)], s.nextTimer + 1)
  }

  function Polled(s: State, found: seq<Found>): State {
    if found == [] then s else Armed(Polled(s, found[..|found| - 1]), found[|found| - 1])
  }

  function Apply(s: State, step: Step): State {
    match step
    case Poll(found) => Polled(s, found)
    case Fire(t) =>
      if t in s.timers then s.(timers := s.timers - {t}, waiting := s.waiting - {s.timers[t].executionId}) else s
    case StopExecution(id) =>
      if id in s.waiting then s.(timers := s.timers - {s.waiting[id]}, waiting := s.waiting - {id}) else s
    case Resume(id) => s.(waiting := s.waiting - {id})
    case StopTracking => s.(timers := s.timers - s.waiting.Values)
  }

  const INIT := State(map[], map[], 0)

  class WaitTracker {
    var waitingExecutions: map<ExecutionId, nat>
    var timers: map<nat, Timer>
    var nextTimer: nat

    ghost function Value(): State
      reads this
    {
      State(waitingExecutions, timers, nextTimer)
    }

    constructor ()
      ensures Value() == INIT
    {
      waitingExecutions, timers, nextTimer := map[], map[], 0;
    }

    method SetTimeout(timer: Timer) returns (t: nat)
      modifies this`timers, this`nextTimer
      ensures t == old(nextTimer) && nextTimer == t + 1 && timers == old(timers)[t := timer]
    {
      t := nextTimer;
      timers := timers[t := timer];
      nextTimer := nextTimer + 1;
    }

    /** The trigger time is the distance from `now`, so the timer is due at `waitTill` whatever `now` is. */
    method GetWaitingExecutions(executions: seq<Found>, now: int)
      modifies this
      ensures Value() == Apply(old(Value()), Poll(executions))
    {
      assert executions[..0] == [];
      for i := 0 to |executions|
        invariant Value() == Polled(old(Value()), executions[..i])
      {
        assert executions[..i + 1][..i] == executions[..i];
        var executionId := executions[i].id;
        if executionId !in waitingExecutions {
          var triggerTime := executions[i].waitTill - now;
          var t := SetTimeout(Timer(executionId, now + triggerTime));
          waitingExecutions := waitingExecutions[executionId := t];
        }
      }
      assert executions[..|executions|] == executions;
    }

    method Stop(id: ExecutionId)
      modifies this
      ensures Value() == Apply(old(Value()), StopExecution(id))
    {
      if id in waitingExecutions {
        timers := timers - {waitingExecutions[id]};
        waitingExecutions := waitingExecutions - {id};
      }
    }

    method StartExecution(id: ExecutionId)
      modifies this
      ensures Value() == Apply(old(Value()), Resume(id))
    {
      waitingExecutions := waitingExecutions - {id};
    }

    method OnTimer(t: nat)
      requires t in timers
      modifies this
      ensures Value() == Apply(old(Value()), Fire(t))
    {
      var timer := timers[t];
      timers := timers - {t};
      StartExecution(timer.executionId);
    }

    method StopTrackingAll()
      modifies this
      ensures Value() == Apply(old(Value()), StopTracking)
    {
      timers := timers - waitingExecutions.Values;
    }
  }

  // ---------------------------------------------------------------- tracked ids are the ids with a timer

  /** The map is a bijection between the tracked ids and the live timers. */
  ghost predicate Tracked(s: State) {
    && (forall id :: id in s.waiting ==> s.waiting[id] in s.timers && s.timers[s.waiting[id]].executionId == id)
    && (forall t :: t in s.timers ==>
          s.timers[t].executionId in s.waiting && s.waiting[s.timers[t].executionId] == t && t < s.nextTimer)
  }

  lemma {:induction false} PollKeepsTracked(s: State, found: seq<Found>)
    requires Tracked(s)
    ensures Tracked(Polled(s, found))
  {
    if found != [] {
      PollKeepsTracked(s, found[..|found| - 1]);
    }
  }

  /** Of a poll's answers the first per untracked id gets a timer, due at its time; tracked ids keep theirs. */
  lemma {:induction false} PollArms(s: State, found: seq<Found>, id: ExecutionId)
    requires Tracked(s)
    ensures id in Polled(s, found).waiting <==> id in s.waiting || exists i :: 0 <= i < |found| && found[i].id == id
    ensures id in s.waiting ==> Polled(s, found).waiting[id] == s.waiting[id]
                                && s.waiting[id] in Polled(s, found).timers
                                && Polled(s, found).timers[s.waiting[id]] == s.timers[s.waiting[id]]
    ensures id in Polled(s, found).waiting && id !in s.waiting ==>
              exists i :: 0 <= i < |found| && found[i].id == id && (forall j :: 0 <= j < i ==> found[j].id != id)
                          && Polled(s, found).waiting[id] in Polled(s, found).timers
                          && Polled(s, found).timers[Polled(s, found).waiting[id]] == Timer(id, found[i].waitTill)
  {
    if found != [] {
      var n := |found| - 1;
      var before := Polled(s, found[..n]);
      PollKeepsTracked(s, found[..n]);
      PollArms(s, found[..n], id);
      assert forall i :: 0 <= i < n ==> found[..n][i] == found[i];
      if id !in s.waiting && id in before.waiting {
        var i :| 0 <= i < n && found[..n][i].id == id && (forall j :: 0 <= j < i ==> found[..n][j].id != id)
                 && before.timers[before.waiting[id]] == Timer(id, found[..n][i].waitTill);
        assert found[i].id == id && forall j :: 0 <= j < i ==> found[j].id != id by {
          forall j | 0 <= j < i ensures found[j].id != id {
            assert found[..n][j].id != id;
          }
        }
      }
    }
  }

  /**
   * Which step breaks the correspondence: a direct start of a tracked execution, and a stepdown with anything tracked.
   */
  predicate Detaches(s: State, step: Step) {
    (step.Resume? && step.id in s.waiting) || (step.StopTracking? && s.waiting != map[])
  }

  lemma TrackedIff(s: State, step: Step)
    requires Tracked(s)
    ensures Tracked(Apply(s, step)) <==> !Detaches(s, step)
  {
    match step
    case Poll(found) => PollKeepsTracked(s, found);
    case Resume(id) =>
      if id in s.waiting {
        assert s.waiting[id] in Apply(s, step).timers;
      } else {
        assert s.waiting - {id} == s.waiting;
      }
    case StopTracking =>
      if s.waiting != map[] {
        var id :| id in s.waiting;
        assert s.waiting[id] in s.waiting.Values;
        assert id in Apply(s, step).waiting;
      } else {
        assert s.timers - s.waiting.Values == s.timers;
      }
    case _ =>
  }

  /**
   * Within one leadership term, over polls, firings and stops, the tracked ids are exactly those with a live timer, one
   * each.
   */
  lemma OneTimerPerTrackedExecution(steps: seq<Step>)
    requires Runs.Permitted((s, step) => !Detaches(s, step), Apply, INIT, steps)
    ensures Tracked(Runs.Final(Apply, INIT, steps))
  {
    var ok := (s, step) => !Detaches(s, step);
    forall s, step | Tracked(s) && ok(s, step) ensures Tracked(Apply(s, step)) {
      TrackedIff(s, step);
    }
    Runs.InvariantOverRun(Tracked, ok, Apply, INIT, steps);
  }

  /** Every other id is tracked as before, with the same timer. */
  ghost predicate OthersTracked(s: State, t: State, id: ExecutionId) {
    forall x :: x != id && x in s.waiting ==>
      && x in t.waiting && t.waiting[x] == s.waiting[x]
      && (s.waiting[x] in s.timers ==> s.waiting[x] in t.timers && t.timers[s.waiting[x]] == s.timers[s.waiting[x]])
  }

  ghost predicate Untracked(s: State, id: ExecutionId) {
    id !in s.waiting && forall t :: t in s.timers ==> s.timers[t].executionId != id
  }

  /** A stop, and a timer that fires, leave the id untracked and without a live timer, and touch no other id. */
  lemma StopUntracks(s: State, id: ExecutionId, step: Step)
    requires Tracked(s)
    requires step == StopExecution(id)
             || (step.Fire? && step.timer in s.timers && s.timers[step.timer].executionId == id)
    ensures Untracked(Apply(s, step), id) && OthersTracked(s, Apply(s, step), id)
    ensures Apply(s, step).waiting.Keys == s.waiting.Keys - {id} && Apply(s, step).timers.Keys <= s.timers.Keys
  {}

  /** So a poll that finds it again arms it afresh. */
  lemma StoppedIsArmedAgain(s: State, id: ExecutionId, found: Found)
    requires Tracked(s) && found.id == id
    ensures var t := Apply(Apply(s, StopExecution(id)), Poll([found]));
            id in t.waiting && t.waiting[id] in t.timers && t.timers[t.waiting[id]] == Timer(id, found.waitTill)
  {
    var stopped := Apply(s, StopExecution(id));
    StopUntracks(s, id, StopExecution(id));
    TrackedIff(s, StopExecution(id));
    PollArms(stopped, [found], id);
    assert [found][0].id == id;
  }

  /** A direct start forgets the id and leaves every timer alone. */
  lemma ResumeForgets(s: State, id: ExecutionId)
    ensures var t := Apply(s, Resume(id));
            id !in t.waiting && t.timers == s.timers && t.nextTimer == s.nextTimer
            && forall x :: x != id ==>
                 (x in t.waiting <==> x in s.waiting) && (x in t.waiting ==> t.waiting[x] == s.waiting[x])
  {}

  // ---------------------------------------------------------------- after a stepdown

  ghost predicate Abandoned(id: ExecutionId, s: State) {
    id in s.waiting && forall t :: t in s.timers ==> s.timers[t].executionId != id
  }

  lemma {:induction false} PollKeepsAbandoned(id: ExecutionId, s: State, found: seq<Found>)
    requires Abandoned(id, s)
    ensures Abandoned(id, Polled(s, found))
  {
    if found != [] {
      PollKeepsAbandoned(id, s, found[..|found| - 1]);
    }
  }

  /**
   * What was tracked at the stepdown never gets a timer again, however often it is polled, until it is stopped or
   * started.
   */
  lemma StepdownAbandons(s: State, id: ExecutionId, steps: seq<Step>)
    requires Tracked(s) && id in s.waiting
    requires Runs.Permitted((x, step) => step != StopExecution(id) && step != Resume(id), Apply,
                            Apply(s, StopTracking), steps)
    ensures Abandoned(id, Runs.Final(Apply, Apply(s, StopTracking), steps))
  {
    var start := Apply(s, StopTracking);
    assert forall t :: t in s.timers ==> s.waiting[s.timers[t].executionId] in s.waiting.Values;
    assert start.timers == map[];
    var inv := (x: State) => Abandoned(id, x);
    var ok := (x, step) => step != StopExecution(id) && step != Resume(id);
    forall x, step | inv(x) && ok(x, step) ensures inv(Apply(x, step)) {
      if step.Poll? {
        PollKeepsAbandoned(id, x, step.found);
      }
    }
    Runs.InvariantOverRun(inv, ok, Apply, start, steps);
  }
}
