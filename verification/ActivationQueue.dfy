/**
 * The queue of workflow activations to retry, on a single main
 * (packages/cli/src/active-workflow-manager.ts, packages/cli/src/constants.ts).
 */
module ActivationQueue {
  import Runs

  const WORKFLOW_REACTIVATE_INITIAL_TIMEOUT := 1000
  const WORKFLOW_REACTIVATE_MAX_TIMEOUT := 24 * 60 * 60 * 1000

  type WorkflowId = string

  datatype Queued = Queued(lastTimeout: int, timeout: nat)

  /** A live timer: the workflow it retries, and its delay. */
  datatype Timer = Timer(workflow: WorkflowId, delay: int)

  /** `retrying` are the retries whose activation has not answered yet. */
  datatype State = State(
    queued: map<WorkflowId, Queued>,
    timers: map<nat, Timer>,
    retrying: multiset<WorkflowId>,
    nextTimer: nat)

  datatype Step =
    | Queue(w: WorkflowId)
    | Fire(timer: nat)
    | RetryFails(w: WorkflowId)
    | RetrySucceeds(w: WorkflowId)
    | Dequeue(w: WorkflowId)        // a successful activation by other means, or `remove`
    | DequeueAll

  function NextTimeout(lastTimeout: int): int {
    if lastTimeout < WORKFLOW_REACTIVATE_MAX_TIMEOUT then Min(lastTimeout * 2, WORKFLOW_REACTIVATE_MAX_TIMEOUT)
    else lastTimeout
  }

  function Min(a: int, b: int): int {
    if a < b then a else b
  }

  function Dequeued(s: State, w: WorkflowId): State {
    if w in s.queued then s.(timers := s.timers - {s.queued[w].timeout}, queued := s.queued - {w}) else s
  }

  function Armed(s: State, w: WorkflowId, timeout: int): State {
    s.(queued := s.queued[w := Queued(timeout, s.nextTimer)],
       timers := s.timers[s.nextTimer := Timer(w, timeout)],
       nextTimer := s.nextTimer + 1)
  }

  function Apply(s: State, step: Step): State {
    match step
    case Queue(w) => Armed(Dequeued(s, w), w, WORKFLOW_REACTIVATE_INITIAL_TIMEOUT)
    case Fire(t) =>
      if t in s.timers then s.(timers := s.timers - {t}, retrying := s.retrying + multiset{s.timers[t].workflow}) else s
    case RetryFails(w) =>
      var answered := s.(retrying := s.retrying - multiset{w});
      if w in s.queued then Armed(answered, w, NextTimeout(s.queued[w].lastTimeout)) else answered
    case RetrySucceeds(w) => Dequeued(s, w).(retrying := s.retrying - multiset{w})
    case Dequeue(w) => Dequeued(s, w)
    case DequeueAll => s.(queued := map[], timers := s.timers - (set w | w in s.queued :: s.queued[w].timeout))
  }

  predicate Possible(s: State, step: Step) {
    match step
    case Fire(t) => t in s.timers
    case RetryFails(w) => w in s.retrying
    case RetrySucceeds(w) => w in s.retrying
    case _ => true
  }

  const INIT := State(map[], map[], multiset{}, 0)

  class ActivationQueue {
    var queuedActivations: map<WorkflowId, Queued>
    var timers: map<nat, Timer>
    var retrying: multiset<WorkflowId>
    var nextTimer: nat

    ghost function Value(): State
      reads this
    {
      State(queuedActivations, timers, retrying, nextTimer)
    }

    constructor ()
      ensures Value() == INIT
    {
      queuedActivations, timers, retrying, nextTimer := map[], map[], multiset{}, 0;
    }

    method SetTimeout(timer: Timer) returns (t: nat)
      modifies this`timers, this`nextTimer
      ensures t == old(nextTimer) && nextTimer == t + 1 && timers == old(timers)[t := timer]
    {
      t := nextTimer;
      timers := timers[t := timer];
      nextTimer := nextTimer + 1;
    }

    method AddQueuedWorkflowActivation(w: WorkflowId)
      modifies this
      ensures Value() == Apply(old(Value()), Queue(w))
    {
      RemoveQueuedWorkflowActivation(w);
      var t := SetTimeout(Timer(w, WORKFLOW_REACTIVATE_INITIAL_TIMEOUT));
      queuedActivations := queuedActivations[w := Queued(WORKFLOW_REACTIVATE_INITIAL_TIMEOUT, t)];
    }

    method RemoveQueuedWorkflowActivation(w: WorkflowId)
      modifies this
      ensures Value() == Apply(old(Value()), Dequeue(w))
    {
      if w in queuedActivations {
        timers := timers - {queuedActivations[w].timeout};
        queuedActivations := queuedActivations - {w};
      }
    }

    method RemoveAllQueuedWorkflowActivations()
      modifies this
      ensures Value() == Apply(old(Value()), DequeueAll)
    {
      ghost var was := queuedActivations;
      while queuedActivations != map[]
        invariant queuedActivations.Keys <= was.Keys
        invariant forall w :: w in queuedActivations ==> queuedActivations[w] == was[w]
        invariant timers == old(timers) - (set w | w in was && w !in queuedActivations :: was[w].timeout)
        invariant retrying == old(retrying) && nextTimer == old(nextTimer)
        decreases queuedActivations.Keys
      {
        var w :| w in queuedActivations;
        ghost var before := queuedActivations;
        RemoveQueuedWorkflowActivation(w);
        assert queuedActivations.Keys == before.Keys - {w};
        assert (set x | x in was && x !in queuedActivations :: was[x].timeout)
            == (set x | x in was && x !in before :: was[x].timeout) + {was[w].timeout};
      }
      assert (set w | w in was && w !in queuedActivations :: was[w].timeout) == (set w | w in was :: was[w].timeout);
    }

    /** The timer fires and the retry function starts an activation attempt. */
    method StartRetry(t: nat) returns (w: WorkflowId)
      requires t in timers
      modifies this
      ensures Value() == Apply(old(Value()), Fire(t)) && w == old(timers)[t].workflow
    {
      w := timers[t].workflow;
      timers := timers - {t};
      retrying := retrying + multiset{w};
    }

    /** The attempt answers. After a failure of a workflow no longer queued the function fails too, and arms nothing. */
    method FinishRetry(w: WorkflowId, success: bool) returns (ok: bool)
      requires w in retrying
      modifies this
      ensures Value() == Apply(old(Value()), if success then RetrySucceeds(w) else RetryFails(w))
      ensures ok == (success || w in old(queuedActivations))
    {
      retrying := retrying - multiset{w};
      if success {
        RemoveQueuedWorkflowActivation(w);
        return true;
      }
      if w !in queuedActivations {
        return false;
      }
      var lastTimeout := queuedActivations[w].lastTimeout;
      if lastTimeout < WORKFLOW_REACTIVATE_MAX_TIMEOUT {
        lastTimeout := Min(lastTimeout * 2, WORKFLOW_REACTIVATE_MAX_TIMEOUT);
      }
      var t := SetTimeout(Timer(w, lastTimeout));
      queuedActivations := queuedActivations[w := Queued(lastTimeout, t)];
      return true;
    }
  }

  // ---------------------------------------------------------------- one live timer, the stored one

  /** Every live timer is the one stored for its workflow. */
  ghost predicate OnlyStored(s: State) {
    forall t :: t in s.timers ==>
      var w := s.timers[t].workflow;
      w in s.queued && s.queued[w].timeout == t && s.queued[w].lastTimeout == s.timers[t].delay && t < s.nextTimer
  }

  /** A retry that fails while its workflow has been queued again: the stored timer is live and gets lost. */
  predicate LosesTimer(s: State, step: Step) {
    step.RetryFails? && step.w in s.queued && s.queued[step.w].timeout in s.timers
  }

  /** Stored timers belong to their workflow and are not of the future. */
  ghost predicate Wf(s: State) {
    && (forall t :: t in s.timers ==> t < s.nextTimer)
    && (forall w :: w in s.queued ==> s.queued[w].timeout < s.nextTimer)
    && (forall w :: w in s.queued && s.queued[w].timeout in s.timers ==> s.timers[s.queued[w].timeout].workflow == w)
  }

  lemma WfStep(s: State, step: Step)
    requires Wf(s) && Possible(s, step)
    ensures Wf(Apply(s, step))
  {}

  lemma OnlyStoredIff(s: State, step: Step)
    requires Wf(s) && OnlyStored(s) && Possible(s, step)
    ensures OnlyStored(Apply(s, step)) <==> !LosesTimer(s, step)
  {
    if step.RetryFails? {
      FailureStoresIff(s, step.w);
    }
  }

  lemma FailureStoresIff(s: State, w: WorkflowId)
    requires Wf(s) && OnlyStored(s) && Possible(s, RetryFails(w))
    ensures OnlyStored(Apply(s, RetryFails(w))) <==> !LosesTimer(s, RetryFails(w))
  {
    if LosesTimer(s, RetryFails(w)) {
      assert s.queued[w].timeout in Apply(s, RetryFails(w)).timers;
    }
  }

  /** A workflow is never queued again while its retry is in flight. */
  ghost predicate NoRequeueInFlight(s: State, step: Step) {
    Possible(s, step) && (step.Queue? ==> step.w !in s.retrying)
  }

  /** While a retry is in flight its workflow has no live timer, and no second retry. */
  ghost predicate Orderly(s: State) {
    && Wf(s) && OnlyStored(s)
    && (forall w :: w in s.retrying ==> s.retrying[w] == 1 && (w in s.queued ==> s.queued[w].timeout !in s.timers))
  }

  lemma OrderlyStep(s: State, step: Step)
    requires Orderly(s) && NoRequeueInFlight(s, step)
    ensures Orderly(Apply(s, step))
  {
    WfStep(s, step);
    OnlyStoredIff(s, step);
  }

  /** In such runs each workflow has at most one live timer, and it is the stored one. */
  lemma AtMostOneLiveTimer(steps: seq<Step>, t: nat, u: nat)
    requires Runs.Permitted(NoRequeueInFlight, Apply, INIT, steps)
    ensures var s := Runs.Final(Apply, INIT, steps);
            && Orderly(s)
            && (t in s.timers ==>
                  s.timers[t].workflow in s.queued && s.queued[s.timers[t].workflow].timeout == t)
            && (t in s.timers && u in s.timers && s.timers[t].workflow == s.timers[u].workflow ==> t == u)
  {
    forall s, step | Orderly(s) && NoRequeueInFlight(s, step) ensures Orderly(Apply(s, step)) {
      OrderlyStep(s, step);
    }
    Runs.InvariantOverRun(Orderly, NoRequeueInFlight, Apply, INIT, steps);
  }

  ghost predicate Silent(w: WorkflowId, s: State) {
    w !in s.queued && forall t :: t in s.timers ==> s.timers[t].workflow != w
  }

  lemma SilentStep(s: State, w: WorkflowId, step: Step)
    requires Silent(w, s) && Possible(s, step) && step != Queue(w)
    ensures Silent(w, Apply(s, step))
  {}

  /** After a removal no timer of the workflow is live until it is queued afresh, even if a retry was in flight. */
  lemma SilentAfterRemoval(s: State, w: WorkflowId, steps: seq<Step>)
    requires Orderly(s)
    requires Runs.Permitted((x, step) => Possible(x, step) && step != Queue(w), Apply, Apply(s, Dequeue(w)), steps)
    ensures Silent(w, Runs.Final(Apply, Apply(s, Dequeue(w)), steps))
  {
    var inv := (x: State) => Silent(w, x);
    var ok := (x, step) => Possible(x, step) && step != Queue(w);
    forall x, step | inv(x) && ok(x, step) ensures inv(Apply(x, step)) {
      SilentStep(x, w, step);
    }
    Runs.InvariantOverRun(inv, ok, Apply, Apply(s, Dequeue(w)), steps);
  }

  /** Emptying the queue leaves no live timer at all. */
  lemma NoTimerAfterDequeueAll(s: State)
    requires OnlyStored(s)
    ensures Apply(s, DequeueAll).timers == map[] && Apply(s, DequeueAll).queued == map[]
  {
    var stored := set w | w in s.queued :: s.queued[w].timeout;
    assert forall t :: t in s.timers ==> s.queued[s.timers[t].workflow].timeout in stored;
  }

  /** Queueing again during a retry that then fails leaves two live timers, one of which no removal will clear. */
  lemma RequeueInFlightLeaksTimer(s: State, w: WorkflowId)
    requires Wf(s) && w in s.retrying
    ensures var t := Apply(Apply(s, Queue(w)), RetryFails(w));
            && s.nextTimer in t.timers && s.nextTimer + 1 in t.timers
            && t.timers[s.nextTimer].workflow == w && t.timers[s.nextTimer + 1].workflow == w
            && t.queued[w].timeout == s.nextTimer + 1
            && s.nextTimer in Apply(t, Dequeue(w)).timers
  {}

  // ---------------------------------------------------------------- a queued workflow is retried

  /** Every queued workflow has its timer live or a retry in flight. */
  ghost predicate Awaited(s: State) {
    forall w :: w in s.queued ==> s.queued[w].timeout in s.timers || w in s.retrying
  }

  lemma AwaitedStep(s: State, step: Step)
    requires Orderly(s) && Awaited(s) && NoRequeueInFlight(s, step)
    ensures Awaited(Apply(s, step))
  {}

  /** So it is never forgotten: in every state of every such run it is due for a retry, or in one. */
  lemma QueuedIsRetried(steps: seq<Step>, w: WorkflowId)
    requires Runs.Permitted(NoRequeueInFlight, Apply, INIT, steps)
    ensures var s := Runs.Final(Apply, INIT, steps);
            w in s.queued ==> w in s.retrying || exists t :: t in s.timers && s.timers[t].workflow == w
  {
    var inv := (s: State) => Orderly(s) && Awaited(s);
    forall s, step | inv(s) && NoRequeueInFlight(s, step) ensures inv(Apply(s, step)) {
      OrderlyStep(s, step);
      AwaitedStep(s, step);
    }
    Runs.InvariantOverRun(inv, NoRequeueInFlight, Apply, INIT, steps);
  }

  /** Every other workflow keeps its entry and its timer. */
  ghost predicate OthersKept(s: State, t: State, w: WorkflowId) {
    && (forall v :: v != w ==> (v in t.queued <==> v in s.queued) && (v in t.queued ==> t.queued[v] == s.queued[v]))
    && (forall i :: i in s.timers && s.timers[i].workflow != w ==> i in t.timers && t.timers[i] == s.timers[i])
    && (forall i :: i in t.timers && t.timers[i].workflow != w ==> i in s.timers)
  }

  /** A removal takes only its own workflow out. */
  lemma DequeueSparesOthers(s: State, w: WorkflowId)
    requires Orderly(s)
    ensures Silent(w, Apply(s, Dequeue(w))) && OthersKept(s, Apply(s, Dequeue(w)), w)
    ensures Apply(s, Dequeue(w)).retrying == s.retrying
  {}

  /** Queueing arms one timer of a second. */
  lemma QueueArms(s: State, w: WorkflowId)
    requires Orderly(s) && w !in s.retrying
    ensures var t := Apply(s, Queue(w));
            && w in t.queued && t.queued[w].timeout in t.timers && t.timers[t.queued[w].timeout] == Timer(w, 1000)
            && t.retrying == s.retrying && OthersKept(s, t, w)
  {}

  /** A timer that fires is gone, and its workflow's retry is in flight. */
  lemma FireRetries(s: State, i: nat)
    requires Orderly(s) && i in s.timers
    ensures var t, w := Apply(s, Fire(i)), s.timers[i].workflow;
            && i !in t.timers && t.retrying == s.retrying + multiset{w} && t.queued == s.queued && OthersKept(s, t, w)
  {}

  /** A retry that fails leaves the workflow queued and arms a timer of twice the delay, up to a day. */
  lemma FailureRearms(s: State, w: WorkflowId)
    requires Orderly(s) && w in s.retrying && w in s.queued
    ensures var t, last := Apply(s, RetryFails(w)), s.queued[w].lastTimeout;
            && w in t.queued && t.queued[w].timeout in t.timers && t.retrying == s.retrying - multiset{w}
            && t.timers[t.queued[w].timeout] == Timer(w, if last >= 86400000 then last
                                                         else if last * 2 < 86400000 then last * 2 else 86400000)
            && OthersKept(s, t, w)
  {}

  /** One that fails for a workflow no longer queued arms nothing. */
  lemma UnqueuedFailureArmsNothing(s: State, w: WorkflowId)
    requires w !in s.queued
    ensures Apply(s, RetryFails(w)) == s.(retrying := s.retrying - multiset{w})
  {}

  /** One that succeeds ends the retries of the workflow. */
  lemma SuccessDequeues(s: State, w: WorkflowId)
    requires Orderly(s) && w in s.retrying
    ensures var t := Apply(s, RetrySucceeds(w));
            Silent(w, t) && t.retrying == s.retrying - multiset{w} && OthersKept(s, t, w)
  {}

  // ---------------------------------------------------------------- the delay

  function Pow2(k: nat): nat {
    if k == 0 then 1 else 2 * Pow2(k - 1)
  }

  /** The delay after `k` consecutive failed retries. */
  function Backoff(k: nat): int {
    Min(WORKFLOW_REACTIVATE_INITIAL_TIMEOUT * Pow2(k), WORKFLOW_REACTIVATE_MAX_TIMEOUT)
  }

  lemma {:induction false} Pow2Grows(j: nat, k: nat)
    requires j <= k
    ensures Pow2(j) <= Pow2(k)
  {
    if j < k {
      Pow2Grows(j, k - 1);
    }
  }

  lemma BackoffStep(k: nat)
    ensures NextTimeout(Backoff(k)) == Backoff(k + 1)
  {}

  lemma BackoffValue(k: nat)
    ensures Backoff(k) == if 1000 * Pow2(k) < 86400000 then 1000 * Pow2(k) else 86400000
  {}

  /** Delays never decrease, and the cap of one day is first reached at the seventeenth failure. */
  lemma BackoffShape(j: nat, k: nat)
    requires j <= k
    ensures Backoff(j) <= Backoff(k)
    ensures Backoff(k) == 86400000 <==> k >= 17
  {
    Pow2Grows(j, k);
    assert Pow2(4) == 16;
    assert Pow2(8) == 16 * Pow2(4);
    assert Pow2(12) == 16 * Pow2(8);
    assert Pow2(16) == 16 * Pow2(12) == 65536;
    assert Pow2(17) == 131072;
    if k >= 17 {
      Pow2Grows(17, k);
    } else {
      Pow2Grows(k, 16);
    }
  }

  function Failures(w: WorkflowId, steps: seq<Step>): nat {
    if steps == [] then 0 else (if steps[0] == RetryFails(w) then 1 else 0) + Failures(w, steps[1..])
  }

  ghost predicate StaysQueued(w: WorkflowId, s: State, step: Step) {
    NoRequeueInFlight(s, step) && step != Queue(w) && w in Apply(s, step).queued
  }

  ghost predicate BackedOff(s: State, w: WorkflowId, k: nat) {
    w in s.queued && s.queued[w].lastTimeout == Backoff(k)
  }

  lemma BackedOffStep(s: State, w: WorkflowId, k: nat, step: Step)
    requires BackedOff(s, w, k) && StaysQueued(w, s, step)
    ensures BackedOff(Apply(s, step), w, if step == RetryFails(w) then k + 1 else k)
  {
    BackoffStep(k);
  }

  lemma OrderlyStepWhileQueued(s: State, w: WorkflowId, step: Step)
    requires Orderly(s) && StaysQueued(w, s, step)
    ensures Orderly(Apply(s, step))
  {
    OrderlyStep(s, step);
  }

  lemma {:induction false} BackoffOverRun(s: State, w: WorkflowId, k: nat, steps: seq<Step>)
    requires Orderly(s) && BackedOff(s, w, k)
    requires Runs.Permitted((x, step) => StaysQueued(w, x, step), Apply, s, steps)
    ensures Orderly(Runs.Final(Apply, s, steps)) && BackedOff(Runs.Final(Apply, s, steps), w, k + Failures(w, steps))
    decreases |steps|
  {
    hide Orderly, BackedOff, Apply, StaysQueued;
    if steps != [] {
      assert StaysQueued(w, s, steps[0]);
      OrderlyStepWhileQueued(s, w, steps[0]);
      BackedOffStep(s, w, k, steps[0]);
      BackoffOverRun(Apply(s, steps[0]), w, if steps[0] == RetryFails(w) then k + 1 else k, steps[1..]);
    }
  }

  lemma QueueStartsBackoff(s: State, w: WorkflowId)
    requires Orderly(s) && NoRequeueInFlight(s, Queue(w))
    ensures Orderly(Apply(s, Queue(w))) && BackedOff(Apply(s, Queue(w)), w, 0)
  {
    OrderlyStep(s, Queue(w));
  }

  lemma TimersBackedOff(s: State, w: WorkflowId, k: nat)
    requires Orderly(s) && BackedOff(s, w, k)
    ensures forall i :: i in s.timers && s.timers[i].workflow == w ==> s.timers[i].delay == Backoff(k)
  {}

  /**
   * From the moment it is queued, and while it stays queued, a workflow's timer has the delay of its failures so far.
   */
  lemma DelayAfterFailures(before: seq<Step>, w: WorkflowId, steps: seq<Step>)
    requires Runs.Permitted(NoRequeueInFlight, Apply, INIT, before)
    requires NoRequeueInFlight(Runs.Final(Apply, INIT, before), Queue(w))
    requires Runs.Permitted((x, step) => StaysQueued(w, x, step), Apply,
                            Apply(Runs.Final(Apply, INIT, before), Queue(w)), steps)
    ensures var t := Runs.Final(Apply, Apply(Runs.Final(Apply, INIT, before), Queue(w)), steps);
            && BackedOff(t, w, Failures(w, steps))
            && forall i :: i in t.timers && t.timers[i].workflow == w ==>
                 t.timers[i].delay == if 1000 * Pow2(Failures(w, steps)) < 86400000 then 1000 * Pow2(Failures(w, steps))
                                      else 86400000
  {
    hide Orderly, BackedOff, Apply, StaysQueued, NoRequeueInFlight, Backoff;
    AtMostOneLiveTimer(before, 0, 0);
    var s := Runs.Final(Apply, INIT, before);
    QueueStartsBackoff(s, w);
    BackoffOverRun(Apply(s, Queue(w)), w, 0, steps);
    TimersBackedOff(Runs.Final(Apply, Apply(s, Queue(w)), steps), w, Failures(w, steps));
    BackoffValue(Failures(w, steps));
  }
}
