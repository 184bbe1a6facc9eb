/**
 * Activation of trigger- and poller-based workflows in a multi-main cluster
 * (packages/cli/src/active-workflow-manager.ts). Handling an `add` command starts an activation and ends later, so a
 * stepdown may fall in between.
 */
module ActivationProtocol {
  import Runs

  type MainId = string
  type WorkflowId = string

  /** The commands that change what is active: one copy per addressed main. */
  datatype Order = AddTriggers(workflow: WorkflowId) | RemoveTriggers(workflow: WorkflowId)

  /** The commands that only show a change in the UI. */
  datatype Display =
    | Activation(workflow: WorkflowId)
    | ActivationError(workflow: WorkflowId)
    | Deactivation(workflow: WorkflowId)

  datatype OrderCopy = OrderCopy(to: MainId, order: Order)

  datatype DisplayCopy = DisplayCopy(to: MainId, display: Display)

  /**
   * An activation that decided to add triggers and pollers and has not done it yet; one begun by a command announces
   * itself.
   */
  datatype Pending = Pending(main: MainId, workflow: WorkflowId, announce: bool)

  datatype State = State(
    mains: set<MainId>,
    leaders: set<MainId>, // the mains that count themselves leader
    memory: map<MainId, set<WorkflowId>>,
    pending: multiset<Pending>,
    orders: multiset<OrderCopy>,
    displays: multiset<DisplayCopy>)

  datatype Step =
    | Takeover(m: MainId)
    | Stepdown(m: MainId)
    | Request(m: MainId, order: Order)              // `add` and `remove` with several mains, and every queued retry
    | BeginStartup(m: MainId, workflow: WorkflowId) // one workflow of `addActiveWorkflows`
    | DeliverOrder(copy: OrderCopy)
    | Finish(activation: Pending, ok: bool, held: bool) // `held` if its triggers and pollers run afterwards
    | DeliverDisplay(shown: DisplayCopy)

  // ---------------------------------------------------------------- publishing

  ghost function ToAll(mains: set<MainId>, order: Order): set<OrderCopy> {
    set m | m in mains :: OrderCopy(m, order)
  }

  ghost function ToOthers(mains: set<MainId>, sender: MainId, display: Display): set<DisplayCopy> {
    set m | m in mains && m != sender :: DisplayCopy(m, display)
  }

  /** Orders are also delivered to their sender, displays are not. */
  ghost function PublishOrder(s: State, order: Order): (r: State)
    ensures r == s.(orders := r.orders)
  {
    s.(orders := s.orders + multiset(ToAll(s.mains, order)))
  }

  ghost function PublishDisplay(s: State, sender: MainId, display: Display): (r: State)
    ensures r == s.(displays := r.displays)
  {
    s.(displays := s.displays + multiset(ToOthers(s.mains, sender, display)))
  }

  // ---------------------------------------------------------------- steps

  function InMemory(s: State, m: MainId): set<WorkflowId> {
    if m in s.memory then s.memory[m] else {}
  }

  predicate Leads(s: State, m: MainId) {
    m in s.leaders
  }

  /** Handlers registered for the leader role ignore the command elsewhere. */
  ghost function Delivered(s: State, copy: OrderCopy): State {
    var t := s.(orders := s.orders - multiset{copy});
    if !Leads(s, copy.to) then t
    else
      match copy.order
      case AddTriggers(w) => t.(pending := t.pending + multiset{Pending(copy.to, w, true)})
      case RemoveTriggers(w) =>
        PublishDisplay(t.(memory := t.memory[copy.to := InMemory(t, copy.to) - {w}]), copy.to, Deactivation(w))
  }

  ghost function Finished(s: State, a: Pending, ok: bool, held: bool): State {
    var t := s.(pending := s.pending - multiset{a});
    var u := if held then t.(memory := t.memory[a.main := InMemory(t, a.main) + {a.workflow}]) else t;
    if !a.announce then u
    else PublishDisplay(u, a.main, if ok then Activation(a.workflow) else ActivationError(a.workflow))
  }

  /** Emitted on a main whether or not it counted itself leader. */
  function SteppedDown(s: State, m: MainId): State {
    s.(leaders := s.leaders - {m}, memory := s.memory[m := {}])
  }

  ghost function Apply(s: State, step: Step): State {
    match step
    case Takeover(m) => s.(leaders := s.leaders + {m})
    case Stepdown(m) => SteppedDown(s, m)
    case Request(_, order) => PublishOrder(s, order)
    case BeginStartup(m, w) => if Leads(s, m) then s.(pending := s.pending + multiset{Pending(m, w, false)}) else s
    case DeliverOrder(copy) => Delivered(s, copy)
    case Finish(a, ok, held) => Finished(s, a, ok, held)
    case DeliverDisplay(copy) => s.(displays := s.displays - multiset{copy})
  }

  /**
   * The leader key lapses by its time to live, so another main may take over before the former leader notices and steps
   * down (packages/cli/src/scaling/multi-main-setup.ee.ts).
   */
  ghost predicate Possible(s: State, step: Step) {
    match step
    case Takeover(m) => m in s.mains
    case Stepdown(m) => m in s.mains
    case Request(m, _) => m in s.mains
    case BeginStartup(m, _) => m in s.mains
    case DeliverOrder(copy) => copy in s.orders
    case Finish(a, _, _) => a in s.pending
    case DeliverDisplay(copy) => copy in s.displays
  }

  function Init(mains: set<MainId>): State {
    State(mains, {}, map[], multiset{}, multiset{}, multiset{})
  }

  // ---------------------------------------------------------------- one main of the cluster

  /** The manager of one main; `Shows` ties it to the cluster state it takes part in. */
  class ActiveWorkflowManager {
    const hostId: MainId
    const isMultiMain: bool
    var isLeader: bool
    var activeWorkflows: set<WorkflowId>
    var activating: multiset<Pending>
    var publishedOrders: seq<Order>
    var publishedDisplays: seq<Display>

    constructor (hostId: MainId, isMultiMain: bool)
      ensures this.hostId == hostId && this.isMultiMain == isMultiMain && !isLeader
      ensures activeWorkflows == {} && activating == multiset{} && publishedOrders == [] && publishedDisplays == []
    {
      this.hostId, this.isMultiMain, isLeader := hostId, isMultiMain, false;
      activeWorkflows, activating, publishedOrders, publishedDisplays := {}, multiset{}, [], [];
    }

    ghost predicate Shows(s: State)
      reads this
    {
      && isLeader == Leads(s, hostId)
      && activeWorkflows == InMemory(s, hostId)
      && (forall a: Pending :: a.main == hostId ==> activating[a] == s.pending[a])
    }

    /** `add` up to the decision whether triggers and pollers are added; with several mains it may only publish. */
    method Add(w: WorkflowId, shouldPublish: bool, announce: bool)
      modifies this
      ensures isLeader == old(isLeader) && activeWorkflows == old(activeWorkflows)
      ensures publishedDisplays == old(publishedDisplays)
      ensures publishedOrders == old(publishedOrders) + if isMultiMain && shouldPublish then [AddTriggers(w)] else []
      ensures activating == old(activating) + if !(isMultiMain && shouldPublish) && isLeader
                                              then multiset{Pending(hostId, w, announce)} else multiset{}
    {
      if isMultiMain && shouldPublish {
        publishedOrders := publishedOrders + [AddTriggers(w)];
        return;
      }
      var shouldAddTriggersAndPollers := isLeader;
      if shouldAddTriggersAndPollers {
        activating := activating + multiset{Pending(hostId, w, announce)};
      }
    }

    /** With several mains `remove` publishes; a single main removes at once. */
    method Remove(w: WorkflowId)
      modifies this
      ensures isLeader == old(isLeader) && activating == old(activating) && publishedDisplays == old(publishedDisplays)
      ensures publishedOrders == old(publishedOrders) + if isMultiMain then [RemoveTriggers(w)] else []
      ensures activeWorkflows == if isMultiMain then old(activeWorkflows) else old(activeWorkflows) - {w}
    {
      if isMultiMain {
        publishedOrders := publishedOrders + [RemoveTriggers(w)];
        return;
      }
      RemoveWorkflowTriggersAndPollers(w);
    }

    method RemoveWorkflowTriggersAndPollers(w: WorkflowId)
      modifies this`activeWorkflows
      ensures activeWorkflows == old(activeWorkflows) - {w}
    {
      if w !in activeWorkflows {
        return;
      }
      activeWorkflows := activeWorkflows - {w};
    }

    /** The role filter of the command, then the handler: the local part of delivering the order. */
    method HandleAddWebhooksTriggersAndPollers(w: WorkflowId, ghost s: State)
      requires Shows(s) && Possible(s, DeliverOrder(OrderCopy(hostId, AddTriggers(w))))
      modifies this
      ensures Shows(Apply(s, DeliverOrder(OrderCopy(hostId, AddTriggers(w)))))
      ensures publishedOrders == old(publishedOrders) && publishedDisplays == old(publishedDisplays)
    {
      if isLeader {
        Add(w, false, true);
      }
    }

    method HandleRemoveTriggersAndPollers(w: WorkflowId, ghost s: State)
      requires Shows(s) && Possible(s, DeliverOrder(OrderCopy(hostId, RemoveTriggers(w))))
      modifies this
      ensures Shows(Apply(s, DeliverOrder(OrderCopy(hostId, RemoveTriggers(w)))))
      ensures publishedOrders == old(publishedOrders)
      ensures publishedDisplays == old(publishedDisplays) + if isLeader then [Deactivation(w)] else []
    {
      if isLeader {
        RemoveWorkflowTriggersAndPollers(w);
        publishedDisplays := publishedDisplays + [Deactivation(w)];
      }
    }

    /** The rest of an activation, whatever has happened to the leadership in the meantime. */
    method FinishActivation(a: Pending, ok: bool, held: bool, ghost s: State)
      requires Shows(s) && Possible(s, Finish(a, ok, held)) && a.main == hostId
      modifies this
      ensures Shows(Apply(s, Finish(a, ok, held)))
      ensures publishedOrders == old(publishedOrders)
      ensures publishedDisplays == old(publishedDisplays)
              + if !a.announce then [] else if ok then [Activation(a.workflow)] else [ActivationError(a.workflow)]
    {
      FinishedParts(s, a, ok, held);
      hide Finished, InMemory;
      activating := activating - multiset{a};
      if held {
        activeWorkflows := activeWorkflows + {a.workflow};
      }
      if a.announce {
        publishedDisplays := publishedDisplays + [if ok then Activation(a.workflow) else ActivationError(a.workflow)];
      }
    }

    method ActivateOnStartup(w: WorkflowId, ghost s: State)
      requires Shows(s) && Possible(s, BeginStartup(hostId, w))
      modifies this
      ensures Shows(Apply(s, BeginStartup(hostId, w)))
      ensures publishedOrders == old(publishedOrders) && publishedDisplays == old(publishedDisplays)
    {
      Add(w, false, false);
    }

    method TakeOver(ghost s: State)
      requires Shows(s) && Possible(s, Takeover(hostId))
      modifies this
      ensures Shows(Apply(s, Takeover(hostId)))
      ensures publishedOrders == old(publishedOrders) && publishedDisplays == old(publishedDisplays)
    {
      isLeader := true;
    }

    method StepDown(ghost s: State)
      requires Shows(s) && Possible(s, Stepdown(hostId))
      modifies this
      ensures Shows(Apply(s, Stepdown(hostId)))
      ensures publishedOrders == old(publishedOrders) && publishedDisplays == old(publishedDisplays)
    {
      isLeader := false;
      activeWorkflows := {};
    }
  }

  // ---------------------------------------------------------------- only leaders hold triggers and pollers

  /** A main that holds triggers or pollers counts itself leader. */
  ghost predicate OnlyLeaderHolds(s: State) {
    forall m :: InMemory(s, m) != {} ==> Leads(s, m)
  }

  /** An activation that leaves triggers or pollers on a main that has stepped down since it began. */
  predicate FinishesAfterStepdown(s: State, step: Step) {
    step.Finish? && step.held && !Leads(s, step.activation.main)
  }

  lemma FinishedParts(s: State, a: Pending, ok: bool, held: bool)
    ensures var t := Finished(s, a, ok, held);
            && t.leaders == s.leaders && t.pending == s.pending - multiset{a}
            && InMemory(t, a.main) == InMemory(s, a.main) + (if held then {a.workflow} else {})
            && forall m :: m != a.main ==> InMemory(t, m) == InMemory(s, m)
  {
    hide PublishDisplay;
  }

  lemma FinishHolds(s: State, a: Pending, ok: bool, held: bool)
    requires OnlyLeaderHolds(s)
    ensures OnlyLeaderHolds(Finished(s, a, ok, held)) <==> !FinishesAfterStepdown(s, Finish(a, ok, held))
  {
    FinishedParts(s, a, ok, held);
    hide Finished, InMemory;
    var t := Finished(s, a, ok, held);
    if held {
      assert a.workflow in InMemory(t, a.main);
    }
  }

  lemma SameMemoryHolds(s: State, t: State)
    requires OnlyLeaderHolds(s) && t.memory == s.memory && forall m :: Leads(s, m) ==> Leads(t, m)
    ensures OnlyLeaderHolds(t)
  {
    assert forall m :: InMemory(t, m) == InMemory(s, m);
  }

  lemma DeliveryHolds(s: State, copy: OrderCopy)
    requires OnlyLeaderHolds(s)
    ensures OnlyLeaderHolds(Delivered(s, copy))
  {
    hide PublishDisplay;
    var t := Delivered(s, copy);
    assert t.leaders == s.leaders;
    assert t.memory == s.memory || (Leads(s, copy.to) && t.memory == s.memory[copy.to := InMemory(t, copy.to)]);
    assert forall m :: m != copy.to ==> InMemory(t, m) == InMemory(s, m);
  }

  /**
   * In every state where it holds, a step breaks it exactly when an activation outlives the leadership it began under.
   */
  lemma OnlyLeaderHoldsIff(s: State, step: Step)
    requires OnlyLeaderHolds(s) && Possible(s, step)
    ensures OnlyLeaderHolds(Apply(s, step)) <==> !FinishesAfterStepdown(s, step)
  {
    hide PublishDisplay, PublishOrder, Delivered, Finished, SteppedDown, OnlyLeaderHolds;
    match step
    case Finish(a, ok, held) => FinishHolds(s, a, ok, held);
    case DeliverOrder(copy) => DeliveryHolds(s, copy);
    case Stepdown(m) => StepdownHolds(s, m);
    case _ => SameMemoryHolds(s, Apply(s, step));
  }

  lemma StepdownHolds(s: State, m: MainId)
    requires OnlyLeaderHolds(s)
    ensures OnlyLeaderHolds(SteppedDown(s, m))
  {
    var t := SteppedDown(s, m);
    assert InMemory(t, m) == {};
    assert forall x :: x != m ==> InMemory(t, x) == InMemory(s, x) && (Leads(t, x) <==> Leads(s, x));
  }

  /**
   * Handlers are atomic with respect to leadership: a main steps down only when no activation of its own is under way.
   */
  ghost predicate DrainsBeforeStepdown(s: State, step: Step) {
    Possible(s, step) && (step.Stepdown? ==> forall a :: a in s.pending ==> a.main != step.m)
  }

  ghost predicate LeaderOnly(s: State) {
    OnlyLeaderHolds(s) && forall a :: a in s.pending ==> Leads(s, a.main)
  }

  lemma LeaderOnlyStep(s: State, step: Step)
    requires LeaderOnly(s) && DrainsBeforeStepdown(s, step)
    ensures LeaderOnly(Apply(s, step))
  {
    hide OnlyLeaderHolds, PublishDisplay, PublishOrder;
    OnlyLeaderHoldsIff(s, step);
    PendingGrows(s, step);
  }

  /** A new activation belongs to a leader. */
  lemma PendingGrows(s: State, step: Step)
    ensures forall a :: a in Apply(s, step).pending ==> a in s.pending || Leads(s, a.main)
  {
    hide PublishDisplay, PublishOrder;
    match step
    case Finish(a, ok, held) => assert Apply(s, step).pending == s.pending - multiset{a};
    case _ =>
  }

  /** Then, over every run, overlapping leaderships included, only mains that count themselves leader hold anything. */
  lemma HoldersLeadOverRuns(mains: set<MainId>, steps: seq<Step>)
    requires Runs.Permitted(DrainsBeforeStepdown, Apply, Init(mains), steps)
    ensures LeaderOnly(Runs.Final(Apply, Init(mains), steps))
  {
    forall s, step | LeaderOnly(s) && DrainsBeforeStepdown(s, step) ensures LeaderOnly(Apply(s, step)) {
      LeaderOnlyStep(s, step);
    }
    Runs.InvariantOverRun(LeaderOnly, DrainsBeforeStepdown, Apply, Init(mains), steps);
  }

  // ---------------------------------------------------------------- one leader at a time

  ghost predicate AtMostOneLeader(s: State) {
    forall m, n :: Leads(s, m) && Leads(s, n) ==> m == n
  }

  /** A takeover while another main still counts itself leader. */
  predicate TakesOverEarly(s: State, step: Step) {
    step.Takeover? && s.leaders - {step.m} != {}
  }

  /** Leaderships come to overlap exactly when a main takes over before another one has stepped down. */
  lemma AtMostOneLeaderIff(s: State, step: Step)
    requires AtMostOneLeader(s) && Possible(s, step)
    ensures AtMostOneLeader(Apply(s, step)) <==> !TakesOverEarly(s, step)
  {
    hide PublishDisplay, PublishOrder, InMemory;
    var t := Apply(s, step);
    if TakesOverEarly(s, step) {
      var m :| m in s.leaders - {step.m};
      assert Leads(t, m) && Leads(t, step.m);
    } else if step.Takeover? {
      assert forall m :: m in s.leaders && m != step.m ==> m in s.leaders - {step.m};
    } else {
      assert forall m :: Leads(t, m) ==> Leads(s, m);
    }
  }

  /** Stepdowns come first: before the next takeover, and only once no activation of the main is under way. */
  ghost predicate StepsDownFirst(s: State, step: Step) {
    DrainsBeforeStepdown(s, step) && !TakesOverEarly(s, step)
  }

  /**
   * Then, over every run, only the current leader holds triggers and pollers, so no workflow is active on two mains.
   */
  lemma OnlyLeaderHoldsOverRuns(mains: set<MainId>, steps: seq<Step>, m: MainId, n: MainId, w: WorkflowId)
    requires Runs.Permitted(StepsDownFirst, Apply, Init(mains), steps)
    ensures var s := Runs.Final(Apply, Init(mains), steps);
            && AtMostOneLeader(s)
            && (w in InMemory(s, m) ==> Leads(s, m))
            && (w in InMemory(s, m) && w in InMemory(s, n) ==> m == n)
  {
    var inv := (s: State) => LeaderOnly(s) && AtMostOneLeader(s);
    forall s, step | inv(s) && StepsDownFirst(s, step) ensures inv(Apply(s, step)) {
      hide LeaderOnly, AtMostOneLeader, Apply;
      LeaderOnlyStep(s, step);
      AtMostOneLeaderIff(s, step);
    }
    Runs.InvariantOverRun(inv, StepsDownFirst, Apply, Init(mains), steps);
  }

  /** Without the first condition two leaders can hold one workflow, with no activation that outlives a leadership. */
  lemma TakeoverBeforeStepdown(s: State, m: MainId, n: MainId, w: WorkflowId)
    requires Leads(s, m) && w in InMemory(s, m) && n in s.mains && m != n
    ensures var a := Pending(n, w, false);
            var s1 := Apply(s, Takeover(n));
            var s2 := Apply(s1, BeginStartup(n, w));
            var s3 := Apply(s2, Finish(a, true, true));
            && Possible(s, Takeover(n)) && Possible(s1, BeginStartup(n, w)) && Possible(s2, Finish(a, true, true))
            && !FinishesAfterStepdown(s2, Finish(a, true, true))
            && w in InMemory(s3, m) && w in InMemory(s3, n) && Leads(s3, m) && Leads(s3, n)
  {}

  /** Without the second a former leader can end up holding a workflow together with the new one. */
  lemma StepdownDuringActivation(s: State, m: MainId, n: MainId, w: WorkflowId)
    requires Leads(s, m) && {m, n} <= s.mains && m != n
    ensures var a, b := Pending(m, w, false), Pending(n, w, false);
            var s1 := Apply(s, BeginStartup(m, w));
            var s2 := Apply(s1, Stepdown(m));
            var s3 := Apply(s2, Takeover(n));
            var s4 := Apply(s3, Finish(a, true, true));
            var s5 := Apply(s4, BeginStartup(n, w));
            var s6 := Apply(s5, Finish(b, true, true));
            && Possible(s, BeginStartup(m, w)) && Possible(s1, Stepdown(m)) && Possible(s2, Takeover(n))
            && Possible(s3, Finish(a, true, true)) && Possible(s4, BeginStartup(n, w))
            && Possible(s5, Finish(b, true, true))
            && w in InMemory(s6, m) && w in InMemory(s6, n) && !Leads(s6, m)
  {}

  // ---------------------------------------------------------------- what commands bring about

  /** `t` differs from `s` only in what is displayed: one more copy of `display` for every main but the sender. */
  ghost predicate Displayed(s: State, t: State, sender: MainId, display: Display) {
    forall d :: t.displays[d] == s.displays[d]
                                 + if d.to in s.mains && d.to != sender && d.display == display then 1 else 0
  }

  /** The memory of `m` is `held` in `t`, that of every other main as in `s`. */
  ghost predicate MemoryOnly(s: State, t: State, m: MainId, held: set<WorkflowId>) {
    InMemory(t, m) == held && forall n :: n != m ==> InMemory(t, n) == InMemory(s, n)
  }

  lemma PublishedDisplay(s: State, sender: MainId, display: Display)
    ensures Displayed(s, PublishDisplay(s, sender, display), sender, display)
  {
    var copies := multiset(ToOthers(s.mains, sender, display));
    forall d: DisplayCopy
      ensures copies[d] == if d.to in s.mains && d.to != sender && d.display == display then 1 else 0
    {
      assert d in ToOthers(s.mains, sender, display) <==> d.to in s.mains && d.to != sender && d.display == display;
    }
  }

  /** A request reaches every main, the one that makes it included, and changes nothing else. */
  lemma RequestReachesAll(s: State, m: MainId, order: Order)
    ensures var t := Apply(s, Request(m, order));
            && t == s.(orders := t.orders)
            && forall copy :: t.orders[copy] == s.orders[copy]
                                                + if copy.to in s.mains && copy.order == order then 1 else 0
  {
    var copies := ToAll(s.mains, order);
    forall copy: OrderCopy
      ensures multiset(copies)[copy] == if copy.to in s.mains && copy.order == order then 1 else 0
    {
      assert copy in copies <==> copy.to in s.mains && copy.order == order;
    }
  }

  /** A takeover changes the role of the main only; a stepdown also clears what it holds, not what it is activating. */
  lemma LeadershipChanges(s: State, m: MainId)
    ensures var t := Apply(s, Takeover(m));
            t.leaders == s.leaders + {m} && t == s.(leaders := t.leaders)
    ensures var t := Apply(s, Stepdown(m));
            && t.leaders == s.leaders - {m} && MemoryOnly(s, t, m, {})
            && t.pending == s.pending && t.orders == s.orders && t.displays == s.displays && t.mains == s.mains
  {}

  /** A display command is shown once and has no other effect. */
  lemma DisplayShown(s: State, shown: DisplayCopy)
    requires shown in s.displays
    ensures var t := Apply(s, DeliverDisplay(shown));
            && t == s.(displays := t.displays)
            && forall d :: t.displays[d] == s.displays[d] - if d == shown then 1 else 0
  {}

  /** Whoever does not count itself leader ignores a command. */
  lemma FollowersIgnore(s: State, copy: OrderCopy)
    requires copy in s.orders && copy.to !in s.leaders
    ensures Apply(s, DeliverOrder(copy)) == s.(orders := s.orders - multiset{copy})
  {}

  /** On a leader an add command starts exactly one activation, which will announce itself. */
  lemma AddStartsActivation(s: State, m: MainId, w: WorkflowId)
    requires OrderCopy(m, AddTriggers(w)) in s.orders && m in s.leaders
    ensures var t := Apply(s, DeliverOrder(OrderCopy(m, AddTriggers(w))));
            && t.pending == s.pending + multiset{Pending(m, w, true)}
            && t.orders == s.orders - multiset{OrderCopy(m, AddTriggers(w))}
            && t.mains == s.mains && t.leaders == s.leaders && t.memory == s.memory && t.displays == s.displays
  {}

  /** On a leader a removal command takes the workflow out of its memory and shows that to every other main. */
  lemma RemoveTakesEffect(s: State, m: MainId, w: WorkflowId)
    requires OrderCopy(m, RemoveTriggers(w)) in s.orders && m in s.leaders
    ensures var t := Apply(s, DeliverOrder(OrderCopy(m, RemoveTriggers(w))));
            && MemoryOnly(s, t, m, InMemory(s, m) - {w}) && Displayed(s, t, m, Deactivation(w))
            && t.pending == s.pending && t.orders == s.orders - multiset{OrderCopy(m, RemoveTriggers(w))}
            && t.mains == s.mains && t.leaders == s.leaders
  {
    var before := s.(orders := s.orders - multiset{OrderCopy(m, RemoveTriggers(w))},
                     memory := s.memory[m := InMemory(s, m) - {w}]);
    PublishedDisplay(before, m, Deactivation(w));
    hide PublishDisplay;
  }

  /** The start-up of a workflow begins an activation on a leader only, and that one does not announce itself. */
  lemma StartupActivates(s: State, m: MainId, w: WorkflowId)
    ensures var t := Apply(s, BeginStartup(m, w));
            && t == s.(pending := t.pending)
            && t.pending == s.pending + if m in s.leaders then multiset{Pending(m, w, false)} else multiset{}
  {
    assert s.pending + multiset{} == s.pending;
  }

  /** The end of an activation: the memory tells whether triggers run, the display whether it succeeded. */
  lemma ActivationEnds(s: State, a: Pending, ok: bool, held: bool)
    requires a in s.pending
    ensures var t := Apply(s, Finish(a, ok, held));
            && MemoryOnly(s, t, a.main, InMemory(s, a.main) + if held then {a.workflow} else {})
            && (a.announce && ok ==> Displayed(s, t, a.main, Activation(a.workflow)))
            && (a.announce && !ok ==> Displayed(s, t, a.main, ActivationError(a.workflow)))
            && (!a.announce ==> t.displays == s.displays)
            && t.pending == s.pending - multiset{a} && t.orders == s.orders
            && t.mains == s.mains && t.leaders == s.leaders
  {
    FinishedParts(s, a, ok, held);
    var t := s.(pending := s.pending - multiset{a});
    var u := if held then t.(memory := t.memory[a.main := InMemory(t, a.main) + {a.workflow}]) else t;
    PublishedDisplay(u, a.main, if ok then Activation(a.workflow) else ActivationError(a.workflow));
    hide PublishDisplay;
  }

  /**
   * From any state with a leader: once a workflow has been requested anywhere, the leader's copy delivered and its
   * activation finished, the leader holds the workflow and every other main is shown its activation.
   */
  lemma RequestedWorkflowRuns(s: State, x: MainId, m: MainId, w: WorkflowId)
    requires {x, m} <= s.mains && m in s.leaders
    ensures var copy, a := OrderCopy(m, AddTriggers(w)), Pending(m, w, true);
            var s1 := Apply(s, Request(x, AddTriggers(w)));
            var s2 := Apply(s1, DeliverOrder(copy));
            var s3 := Apply(s2, Finish(a, true, true));
            && Possible(s, Request(x, AddTriggers(w))) && Possible(s1, DeliverOrder(copy))
            && Possible(s2, Finish(a, true, true))
            && MemoryOnly(s, s3, m, InMemory(s, m) + {w}) && Displayed(s, s3, m, Activation(w))
            && s3.pending == s.pending
  {
    hide Apply, MemoryOnly, InMemory;
    var copy, a := OrderCopy(m, AddTriggers(w)), Pending(m, w, true);
    var s1 := Apply(s, Request(x, AddTriggers(w)));
    RequestReachesAll(s, x, AddTriggers(w));
    assert copy in s1.orders;
    var s2 := Apply(s1, DeliverOrder(copy));
    AddStartsActivation(s1, m, w);
    ActivationEnds(s2, a, true, true);
    assert s.pending + multiset{a} - multiset{a} == s.pending;
    SameMemory(s, s2, Apply(s2, Finish(a, true, true)), m, InMemory(s, m) + {w});
  }

  lemma SameMemory(s: State, t: State, u: State, m: MainId, held: set<WorkflowId>)
    requires s.memory == t.memory
    ensures InMemory(s, m) == InMemory(t, m) && (MemoryOnly(t, u, m, held) <==> MemoryOnly(s, u, m, held))
  {}

  // ---------------------------------------------------------------- what a removal is worth

  /** No main holds the workflow, and none is activating it. */
  ghost predicate Inactive(w: WorkflowId, s: State) {
    && (forall m :: w !in InMemory(s, m))
    && (forall a :: a in s.pending ==> a.workflow != w)
  }

  /** A step that could start the workflow again. */
  predicate Starts(step: Step, w: WorkflowId) {
    (step.BeginStartup? && step.workflow == w) || (step.DeliverOrder? && step.copy.order == AddTriggers(w))
  }

  lemma InactiveIntro(w: WorkflowId, s: State, t: State, m: MainId)
    requires Inactive(w, s) && t.pending <= s.pending && w !in InMemory(t, m)
    requires forall n :: n != m ==> InMemory(t, n) == InMemory(s, n)
    ensures Inactive(w, t)
  {
    forall n ensures w !in InMemory(t, n) {
      assert w !in InMemory(s, n);
    }
  }

  lemma InactiveDelivery(w: WorkflowId, s: State, copy: OrderCopy)
    requires Inactive(w, s) && copy.order != AddTriggers(w)
    ensures Inactive(w, Delivered(s, copy))
  {
    hide PublishDisplay;
    var t := Delivered(s, copy);
    assert w !in InMemory(s, copy.to);
    if copy.order.RemoveTriggers? {
      InactiveIntro(w, s, t, copy.to);
    } else {
      InactiveSameMemory(w, s, t);
    }
  }

  lemma InactiveFinish(w: WorkflowId, s: State, a: Pending, ok: bool, held: bool)
    requires Inactive(w, s) && a in s.pending
    ensures Inactive(w, Finished(s, a, ok, held))
  {
    FinishedParts(s, a, ok, held);
    hide Finished, InMemory;
    var t := Finished(s, a, ok, held);
    assert w !in InMemory(s, a.main);
    InactiveIntro(w, s, t, a.main);
  }

  lemma InactiveStep(w: WorkflowId, s: State, step: Step)
    requires Inactive(w, s) && Possible(s, step) && !Starts(step, w)
    ensures Inactive(w, Apply(s, step))
  {
    hide PublishDisplay, PublishOrder, Delivered, Finished, SteppedDown, Inactive, InMemory;
    match step
    case DeliverOrder(copy) => InactiveDelivery(w, s, copy);
    case Finish(a, ok, held) => InactiveFinish(w, s, a, ok, held);
    case Stepdown(m) => InactiveStepdown(w, s, m);
    case _ => InactiveSameMemory(w, s, Apply(s, step));
  }

  lemma InactiveStepdown(w: WorkflowId, s: State, m: MainId)
    requires Inactive(w, s)
    ensures Inactive(w, SteppedDown(s, m))
  {
    InactiveIntro(w, s, SteppedDown(s, m), m);
  }

  lemma InactiveSameMemory(w: WorkflowId, s: State, t: State)
    requires Inactive(w, s) && t.memory == s.memory
    requires forall a :: a in t.pending ==> a in s.pending || a.workflow != w
    ensures Inactive(w, t)
  {
    forall m ensures w !in InMemory(t, m) {
      assert w !in InMemory(s, m);
    }
  }

  /** A run that starts `w` nowhere. */
  ghost predicate RunsWithout(w: WorkflowId, s: State, steps: seq<Step>) {
    Runs.Permitted((x, step) => Possible(x, step) && !Starts(step, w), Apply, s, steps)
  }

  ghost predicate HeldNowhere(w: WorkflowId, s: State) {
    forall m :: w !in InMemory(s, m)
  }

  ghost predicate BeingActivated(w: WorkflowId, s: State) {
    exists a :: a in s.pending && a.workflow == w
  }

  /** Only the main `m`, and as a leader, has the workflow in memory. */
  ghost predicate HeldOnlyBy(w: WorkflowId, m: MainId, s: State) {
    forall n :: w in InMemory(s, n) ==> n == m && Leads(s, m)
  }

  /**
   * In any state: once a main has handled a removal, the workflow is active nowhere until it is started again exactly
   * when that main was the only one to hold it, as a leader, and no activation of it was under way anywhere.
   */
  lemma RemovedStaysInactiveIff(s: State, m: MainId, w: WorkflowId)
    requires OrderCopy(m, RemoveTriggers(w)) in s.orders
    ensures var start := Apply(s, DeliverOrder(OrderCopy(m, RemoveTriggers(w))));
            !BeingActivated(w, s) && HeldOnlyBy(w, m, s) <==>
            forall steps :: RunsWithout(w, start, steps) ==> HeldNowhere(w, Runs.Final(Apply, start, steps))
  {
    hide Apply, Finished, InMemory;
    var start := Apply(s, DeliverOrder(OrderCopy(m, RemoveTriggers(w))));
    if a :| a in s.pending && a.workflow == w {
      ActivationOutlivesRemoval(s, m, w, a);
      assert RunsWithout(w, start, [Finish(a, true, true)]);
    } else if HeldOnlyBy(w, m, s) {
      forall steps | RunsWithout(w, start, steps) ensures HeldNowhere(w, Runs.Final(Apply, start, steps)) {
        StaysInactive(s, m, w, steps);
      }
    } else {
      StillHeld(s, m, w);
      assert RunsWithout(w, start, []);
      assert !HeldNowhere(w, Runs.Final(Apply, start, []));
    }
  }

  lemma StillHeld(s: State, m: MainId, w: WorkflowId)
    requires !HeldOnlyBy(w, m, s)
    ensures !HeldNowhere(w, Apply(s, DeliverOrder(OrderCopy(m, RemoveTriggers(w)))))
  {
    hide PublishDisplay;
    var n :| w in InMemory(s, n) && !(n == m && Leads(s, m));
    assert w in InMemory(Delivered(s, OrderCopy(m, RemoveTriggers(w))), n);
  }

  /** An activation under way at the removal still puts the workflow into memory. */
  lemma ActivationOutlivesRemoval(s: State, m: MainId, w: WorkflowId, a: Pending)
    requires a in s.pending && a.workflow == w
    ensures var start := Apply(s, DeliverOrder(OrderCopy(m, RemoveTriggers(w))));
            var steps := [Finish(a, true, true)];
            RunsWithout(w, start, steps) && w in InMemory(Runs.Final(Apply, start, steps), a.main)
  {
    hide PublishDisplay;
    var start := Apply(s, DeliverOrder(OrderCopy(m, RemoveTriggers(w))));
    var step := Finish(a, true, true);
    assert start.pending == s.pending;
    OneStep(w, start, step);
    assert w in InMemory(Finished(start, a, true, true), a.main);
    hide Delivered, Finished;
  }

  lemma OneStep(w: WorkflowId, s: State, step: Step)
    requires Possible(s, step) && !Starts(step, w)
    ensures RunsWithout(w, s, [step]) && Runs.Final(Apply, s, [step]) == Apply(s, step)
  {
    hide Apply, Possible;
    Runs.OneStep((x, step) => Possible(x, step) && !Starts(step, w), Apply, s, step);
  }

  lemma StaysInactive(s: State, m: MainId, w: WorkflowId, steps: seq<Step>)
    requires HeldOnlyBy(w, m, s) && !BeingActivated(w, s)
    requires RunsWithout(w, Apply(s, DeliverOrder(OrderCopy(m, RemoveTriggers(w)))), steps)
    ensures Inactive(w, Runs.Final(Apply, Apply(s, DeliverOrder(OrderCopy(m, RemoveTriggers(w)))), steps))
  {
    var start := Apply(s, DeliverOrder(OrderCopy(m, RemoveTriggers(w))));
    RemovalHandled(s, m, w);
    var inv := (x: State) => Inactive(w, x);
    var ok := (x, step) => Possible(x, step) && !Starts(step, w);
    forall x, step | inv(x) && ok(x, step) ensures inv(Apply(x, step)) {
      InactiveStep(w, x, step);
    }
    Runs.InvariantOverRun(inv, ok, Apply, start, steps);
  }

  lemma RemovalHandled(s: State, m: MainId, w: WorkflowId)
    requires HeldOnlyBy(w, m, s) && !BeingActivated(w, s)
    ensures Inactive(w, Delivered(s, OrderCopy(m, RemoveTriggers(w))))
  {
    hide PublishDisplay;
    var t := Delivered(s, OrderCopy(m, RemoveTriggers(w)));
    assert t.pending == s.pending;
    forall n ensures w !in InMemory(t, n) {
      if n != m || !Leads(s, m) {
        assert InMemory(t, n) == InMemory(s, n);
      }
      assert w in InMemory(s, n) ==> n == m && Leads(s, m);
    }
  }

  // ---------------------------------------------------------------- commands drain

  lemma {:induction false} CopiesFit(mains: set<MainId>, sender: MainId, display: Display)
    ensures |ToOthers(mains, sender, display)| <= |mains|
    decreases |mains|
  {
    if mains == {} {
      assert ToOthers(mains, sender, display) == {};
    } else {
      var m :| m in mains;
      CopiesFit(mains - {m}, sender, display);
      assert ToOthers(mains, sender, display)
          <= ToOthers(mains - {m}, sender, display) + {DisplayCopy(m, display)};
      SubsetFits(ToOthers(mains, sender, display), ToOthers(mains - {m}, sender, display) + {DisplayCopy(m, display)});
    }
  }

  lemma SubsetFits<T>(a: set<T>, b: set<T>)
    requires a <= b
    ensures |a| <= |b|
  {
    assert b == a + (b - a);
  }

  lemma SetSize<T>(a: set<T>)
    ensures |multiset(a)| == |a|
  {}

  /** Handling one copy of an order publishes at most one display and never an order. */
  lemma HandlingPublishes(s: State, step: Step)
    requires Possible(s, step) && (step.DeliverOrder? || step.Finish? || step.DeliverDisplay?)
    ensures Apply(s, step).orders <= s.orders
    ensures Apply(s, step).displays <= s.displays
         || exists sender, display ::
              Apply(s, step).displays == s.displays + multiset(ToOthers(s.mains, sender, display))
  {
    match step
    case DeliverOrder(copy) =>
      if Leads(s, copy.to) && copy.order.RemoveTriggers? {
        assert Apply(s, step).displays
            == s.displays + multiset(ToOthers(s.mains, copy.to, Deactivation(copy.order.workflow)));
      }
    case Finish(a, ok, held) =>
      if a.announce {
        var display := if ok then Activation(a.workflow) else ActivationError(a.workflow);
        assert Apply(s, step).displays == s.displays + multiset(ToOthers(s.mains, a.main, display));
      }
    case _ =>
  }

  /** What is still to be handled, weighted by what handling it may publish. */
  ghost function Work(s: State): nat {
    |s.orders| * (|s.mains| + 2) + |s.pending| * (|s.mains| + 1) + |s.displays|
  }

  /** Only handling: nothing new is requested and no leadership changes. */
  ghost predicate Handling(s: State, step: Step) {
    Possible(s, step) && (step.DeliverOrder? || step.Finish? || step.DeliverDisplay?)
  }

  lemma WorkArithmetic(o: nat, p: nat, n: nat)
    requires o > 0
    ensures (o - 1) * (n + 2) + (p + 1) * (n + 1) == o * (n + 2) + p * (n + 1) - 1
    ensures (o - 1) * (n + 2) == o * (n + 2) - n - 2
  {}

  lemma PendingArithmetic(p: nat, n: nat)
    requires p > 0
    ensures (p - 1) * (n + 1) == p * (n + 1) - n - 1
  {}

  lemma DisplaysGrow(s: State, sender: MainId, display: Display)
    ensures |PublishDisplay(s, sender, display).displays| <= |s.displays| + |s.mains|
  {
    CopiesFit(s.mains, sender, display);
    SetSize(ToOthers(s.mains, sender, display));
  }

  lemma DeliveryLowersWork(s: State, copy: OrderCopy)
    requires copy in s.orders
    ensures Work(Delivered(s, copy)) < Work(s)
  {
    WorkArithmetic(|s.orders|, |s.pending|, |s.mains|);
    var t := s.(orders := s.orders - multiset{copy});
    assert |t.orders| == |s.orders| - 1;
    if Leads(s, copy.to) && copy.order.RemoveTriggers? {
      var w := copy.order.workflow;
      DisplaysGrow(t.(memory := t.memory[copy.to := InMemory(t, copy.to) - {w}]), copy.to, Deactivation(w));
      hide PublishDisplay;
    }
  }

  lemma FinishLowersWork(s: State, a: Pending, ok: bool, held: bool)
    requires a in s.pending
    ensures Work(Finished(s, a, ok, held)) < Work(s)
  {
    PendingArithmetic(|s.pending|, |s.mains|);
    var t := s.(pending := s.pending - multiset{a});
    var u := if held then t.(memory := t.memory[a.main := InMemory(t, a.main) + {a.workflow}]) else t;
    assert |u.pending| == |s.pending| - 1;
    DisplaysGrow(u, a.main, if ok then Activation(a.workflow) else ActivationError(a.workflow));
    hide PublishDisplay;
  }

  lemma HandlingLowersWork(s: State, step: Step)
    requires Handling(s, step)
    ensures Work(Apply(s, step)) < Work(s) && Apply(s, step).mains == s.mains
  {
    hide PublishDisplay, Work;
    match step
    case DeliverOrder(copy) => DeliveryLowersWork(s, copy);
    case Finish(a, ok, held) => FinishLowersWork(s, a, ok, held);
    case DeliverDisplay(copy) => DisplayLowersWork(s, copy);
  }

  lemma DisplayLowersWork(s: State, copy: DisplayCopy)
    requires copy in s.displays
    ensures Work(s.(displays := s.displays - multiset{copy})) < Work(s)
  {
    assert |s.displays - multiset{copy}| == |s.displays| - 1;
  }

  /** Every batch of published commands drains: no run of handling steps is longer than the work there was. */
  lemma {:induction false} CommandsDrain(s: State, steps: seq<Step>)
    requires Runs.Permitted(Handling, Apply, s, steps)
    ensures |steps| + Work(Runs.Final(Apply, s, steps)) <= Work(s)
    decreases |steps|
  {
    if steps != [] {
      HandlingLowersWork(s, steps[0]);
      CommandsDrain(Apply(s, steps[0]), steps[1..]);
    }
  }

  /** And as long as there is work, a handling step is possible. */
  lemma WorkCanGoOn(s: State)
    ensures (exists step :: Handling(s, step)) <==> Work(s) > 0
  {
    if Work(s) > 0 {
      if |s.orders| > 0 {
        var copy :| copy in s.orders;
        assert Handling(s, DeliverOrder(copy));
      } else if |s.pending| > 0 {
        var a :| a in s.pending;
        assert Handling(s, Finish(a, true, true));
      } else {
        var copy :| copy in s.displays;
        assert Handling(s, DeliverDisplay(copy));
      }
    }
    if step :| Handling(s, step) {
      HandlingLowersWork(s, step);
    }
  }
}
