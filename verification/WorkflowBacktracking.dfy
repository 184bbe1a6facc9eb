/** The walk back over recorded tasks to the first paired item (packages/nodes-base/utils/workflow-backtracking.ts). */
module WorkflowBacktracking {
  import opened Wrappers

  datatype Source = Source(previousNode: string, previousNodeRun: Option<nat>)

  /** `pairedItem` of an item: absent, a number, an object, or a list of objects. */
  datatype Pairing =
    | Absent
    | Index(index: int)
    | Paired(item: Option<int>, input: Option<int>)
    | Several(items: seq<Pairing>)

  /** Of an item only its `pairedItem` matters; an input's data may be missing. */
  type Output = seq<Option<seq<Pairing>>>

  datatype Task = Task(source: Option<seq<Option<Source>>>, main: Option<Output>, executionIndex: nat)

  type RunData = map<string, seq<Task>>

  /** Where a task is recorded. */
  datatype Position = Position(node: string, run: nat)

  // ---------------------------------------------------------------- one step back

  /** The position that the first source of a task names, if a task is recorded there. */
  function PreviousPosition(runData: RunData, task: Task): Option<Position> {
    if task.source.None? || task.source.value == [] || task.source.value[0].None? then None
    else
      var source := task.source.value[0].value;
      if source.previousNode == "" || source.previousNode !in runData then None
      else
        var run := source.previousNodeRun.GetOr(0);
        if run < |runData[source.previousNode]| then Some(Position(source.previousNode, run)) else None
  }

  predicate Recorded(runData: RunData, p: Position) {
    p.node in runData && p.run < |runData[p.node]|
  }

  function At(runData: RunData, p: Position): Task
    requires Recorded(runData, p)
  {
    runData[p.node][p.run]
  }

  method PreviousTaskData(runData: RunData, currentRunData: Task) returns (r: Option<Task>)
    ensures var p := PreviousPosition(runData, currentRunData);
            r == if p.Some? then Some(At(runData, p.value)) else None
  {
    if currentRunData.source.None? || currentRunData.source.value == [] || currentRunData.source.value[0].None? {
      return None;
    }
    var source := currentRunData.source.value[0].value;
    if source.previousNode == "" {
      return None;
    }
    if source.previousNode !in runData || |runData[source.previousNode]| == 0 {
      return None;
    }
    var nextRunData := runData[source.previousNode];
    var nextRunIndex := source.previousNodeRun.GetOr(0);
    if nextRunIndex < |nextRunData| {
      return Some(nextRunData[nextRunIndex]);
    }
    return None;
  }

  /** The pairing found in a task's output under the current pairing. */
  function Follow(task: Task, pairing: Pairing, itemIndex: int): Pairing {
    var input := if pairing.Paired? then pairing.input.GetOr(0) else 0;
    var item := if pairing.Paired? then pairing.item.GetOr(itemIndex)
                else if pairing.Index? then pairing.index else itemIndex;
    if task.main.Some? && 0 <= input < |task.main.value| && task.main.value[input].Some?
       && 0 <= item < |task.main.value[input].value|
    then task.main.value[input].value[item]
    else Absent
  }

  // ---------------------------------------------------------------- what sources and pairings select

  /** A task whose first source names the run `run` of `node`, or names none. */
  ghost predicate Names(task: Task, node: string, run: Option<nat>) {
    task.source.Some? && |task.source.value| > 0 && task.source.value[0] == Some(Source(node, run))
  }

  /**
   * The first source selects the run it names, the first run when it names none, and nothing when that is not recorded.
   */
  lemma SourceSelects(runData: RunData, task: Task, node: string, run: Option<nat>)
    requires Names(task, node, run)
    ensures var k: nat := if run.Some? then run.value else 0;
            PreviousPosition(runData, task)
            == if node != "" && node in runData && k < |runData[node]| then Some(Position(node, k)) else None
  {}

  /** Without a first source there is no task before. */
  lemma NoSourceSelectsNothing(runData: RunData, task: Task)
    requires task.source.None? || task.source.value == [] || task.source.value[0].None?
    ensures PreviousPosition(runData, task).None?
  {}

  /** `r` is the pairing of item `item` of output `output` of the task; without such an item it is absent. */
  ghost predicate Selects(task: Task, output: int, item: int, r: Pairing) {
    if task.main.Some? && 0 <= output < |task.main.value| && task.main.value[output].Some?
       && 0 <= item < |task.main.value[output].value|
    then r == task.main.value[output].value[item]
    else r == Absent
  }

  /**
   * An object selects by its own item and output, each with its fallback; a number by itself; anything else by the
   * fallbacks.
   */
  lemma PairingSelects(task: Task, itemIndex: int, i: int, k: int, items: seq<Pairing>)
    ensures Selects(task, k, i, Follow(task, Paired(Some(i), Some(k)), itemIndex))
    ensures Selects(task, 0, i, Follow(task, Paired(Some(i), None), itemIndex))
    ensures Selects(task, k, itemIndex, Follow(task, Paired(None, Some(k)), itemIndex))
    ensures Selects(task, 0, itemIndex, Follow(task, Paired(None, None), itemIndex))
    ensures Selects(task, 0, i, Follow(task, Index(i), itemIndex))
    ensures Selects(task, 0, itemIndex, Follow(task, Absent, itemIndex))
    ensures Selects(task, 0, itemIndex, Follow(task, Several(items), itemIndex))
  {}

  // ---------------------------------------------------------------- the walk

  lemma PreviousIsRecorded(runData: RunData, task: Task)
    ensures var p := PreviousPosition(runData, task);
            p.Some? ==> Recorded(runData, p.value)
  {}

  /** Where `n` steps back lead, nowhere once a task without a recorded source is passed. */
  ghost function Back(runData: RunData, p: Option<Position>, n: nat): Option<Position>
    requires p.Some? ==> Recorded(runData, p.value)
    decreases n
  {
    if n == 0 || p.None? then p else Back(runData, PreviousPosition(runData, At(runData, p.value)), n - 1)
  }

  ghost function Positions(runData: RunData): set<Position> {
    set node, k | node in runData && 0 <= k < |runData[node]| :: Position(node, k)
  }

  /** The walk from `p` is over after as many steps as there are recorded tasks. */
  ghost predicate Ends(runData: RunData, p: Option<Position>) {
    (p.Some? ==> Recorded(runData, p.value)) && Back(runData, p, |Positions(runData)|).None?
  }

  /**
   * The positions visited from `p` on, back to the first task, given a number of steps after which the walk is over.
   */
  ghost function Trail(runData: RunData, p: Option<Position>, n: nat): (trail: seq<Position>)
    requires (p.Some? ==> Recorded(runData, p.value)) && Back(runData, p, n).None?
    decreases n
  {
    if p.None? then [] else [p.value] + Trail(runData, PreviousPosition(runData, At(runData, p.value)), n - 1)
  }

  /** The pairing that remains after following it through the tasks of a trail, nearest task first. */
  function FollowTrail(runData: RunData, trail: seq<Position>, pairing: Pairing, itemIndex: int): Pairing
    requires forall i :: 0 <= i < |trail| ==> Recorded(runData, trail[i])
    decreases |trail|
  {
    if trail == [] then pairing
    else FollowTrail(runData, trail[1..], Follow(At(runData, trail[0]), pairing, itemIndex), itemIndex)
  }

  lemma {:induction false} TrailWhateverBound(runData: RunData, p: Option<Position>, n: nat, k: nat)
    requires (p.Some? ==> Recorded(runData, p.value)) && Back(runData, p, n).None? && Back(runData, p, k).None?
    ensures Trail(runData, p, n) == Trail(runData, p, k)
    decreases n
  {
    if p.Some? {
      TrailWhateverBound(runData, PreviousPosition(runData, At(runData, p.value)), n - 1, k - 1);
    }
  }

  /** The walk goes on from every position of the trail as the trail does, and the trail is as long as the walk. */
  lemma {:induction false} TrailSuffix(runData: RunData, p: Option<Position>, n: nat, i: nat)
    requires (p.Some? ==> Recorded(runData, p.value)) && Back(runData, p, n).None?
    requires i < |Trail(runData, p, n)|
    ensures i < n && Recorded(runData, Trail(runData, p, n)[i])
    ensures Back(runData, Some(Trail(runData, p, n)[i]), n - i).None?
    ensures Trail(runData, Some(Trail(runData, p, n)[i]), n - i) == Trail(runData, p, n)[i..]
    decreases n
  {
    if i > 0 {
      TrailSuffix(runData, PreviousPosition(runData, At(runData, p.value)), n - 1, i - 1);
    }
  }

  lemma TrailDistinct(runData: RunData, p: Option<Position>, n: nat)
    requires (p.Some? ==> Recorded(runData, p.value)) && Back(runData, p, n).None?
    ensures var trail := Trail(runData, p, n); forall i, j :: 0 <= i < j < |trail| ==> trail[i] != trail[j]
  {
    var trail := Trail(runData, p, n);
    forall i, j | 0 <= i < j < |trail| ensures trail[i] != trail[j] {
      TrailSuffix(runData, p, n, i);
      TrailSuffix(runData, p, n, j);
      if trail[i] == trail[j] {
        TrailWhateverBound(runData, Some(trail[i]), n - i, n - j);
      }
    }
  }

  lemma {:induction false} OverAfterTrail(runData: RunData, p: Option<Position>, n: nat, k: nat)
    requires (p.Some? ==> Recorded(runData, p.value)) && Back(runData, p, n).None?
    ensures Back(runData, p, k).None? <==> |Trail(runData, p, n)| <= k
    decreases n
  {
    if k > 0 && p.Some? {
      OverAfterTrail(runData, PreviousPosition(runData, At(runData, p.value)), n - 1, k - 1);
    }
  }

  lemma {:induction false} DistinctFit<T>(trail: seq<T>, all: set<T>)
    requires forall i :: 0 <= i < |trail| ==> trail[i] in all
    requires forall i, j :: 0 <= i < j < |trail| ==> trail[i] != trail[j]
    ensures |trail| <= |all|
  {
    if trail != [] {
      var n := |trail| - 1;
      forall i | 0 <= i < n ensures trail[..n][i] in all - {trail[n]} {
        assert trail[i] != trail[n];
      }
      DistinctFit(trail[..n], all - {trail[n]});
    }
  }

  /** No walk that ends visits more tasks than are recorded. */
  lemma TrailBounded(runData: RunData, p: Option<Position>, n: nat)
    requires (p.Some? ==> Recorded(runData, p.value)) && Back(runData, p, n).None?
    ensures |Trail(runData, p, n)| <= |Positions(runData)|
  {
    TrailDistinct(runData, p, n);
    var trail := Trail(runData, p, n);
    forall i | 0 <= i < |trail| ensures trail[i] in Positions(runData) {
      TrailSuffix(runData, p, n, i);
      assert trail[i] == Position(trail[i].node, trail[i].run);
    }
    DistinctFit(trail, Positions(runData));
  }

  /** A walk that ends at all is over after as many steps as there are recorded tasks. */
  lemma EndsInTime(runData: RunData, p: Option<Position>)
    requires p.Some? ==> Recorded(runData, p.value)
    ensures Ends(runData, p) <==> exists n: nat :: Back(runData, p, n).None?
  {
    if n: nat :| Back(runData, p, n).None? {
      TrailBounded(runData, p, n);
      OverAfterTrail(runData, p, n, |Positions(runData)|);
    }
  }

  // ---------------------------------------------------------------- cycles

  lemma {:induction false} BackRecorded(runData: RunData, p: Option<Position>, n: nat)
    requires p.Some? ==> Recorded(runData, p.value)
    ensures var q := Back(runData, p, n); q.Some? ==> Recorded(runData, q.value)
    decreases n
  {
    if n > 0 && p.Some? {
      BackRecorded(runData, PreviousPosition(runData, At(runData, p.value)), n - 1);
    }
  }

  lemma {:induction false} BackAdds(runData: RunData, p: Option<Position>, i: nat, n: nat)
    requires p.Some? ==> Recorded(runData, p.value)
    ensures var q := Back(runData, p, i);
            && (q.Some? ==> Recorded(runData, q.value))
            && Back(runData, p, i + n) == Back(runData, q, n)
    decreases i
  {
    if i > 0 && p.Some? {
      BackAdds(runData, PreviousPosition(runData, At(runData, p.value)), i - 1, n);
    }
  }

  /** A task whose sources lead back to it after `n` steps. */
  ghost predicate OnCycle(runData: RunData, q: Position, n: nat) {
    n > 0 && Recorded(runData, q) && Back(runData, Some(q), n) == Some(q)
  }

  /** The walk from `p` comes to a task on a cycle. */
  ghost predicate MeetsCycle(runData: RunData, p: Option<Position>)
    requires p.Some? ==> Recorded(runData, p.value)
  {
    exists i: nat, q, n :: Back(runData, p, i) == Some(q) && OnCycle(runData, q, n)
  }

  /** From a cycle there is no way out. */
  lemma {:induction false} CycleForever(runData: RunData, q: Position, n: nat, k: nat)
    requires OnCycle(runData, q, n)
    ensures Back(runData, Some(q), k).Some?
    decreases k
  {
    if k >= n {
      BackAdds(runData, Some(q), n, k - n);
      CycleForever(runData, q, n, k - n);
    } else if Back(runData, Some(q), k).None? {
      BackAdds(runData, Some(q), k, n - k);
    }
  }

  /** The positions visited in the first `n` steps. */
  ghost function Visits(runData: RunData, p: Option<Position>, n: nat): (visits: seq<Position>)
    requires (p.Some? ==> Recorded(runData, p.value)) && forall k: nat :: k < n ==> Back(runData, p, k).Some?
    ensures |visits| == n && forall k: nat :: k < n ==> Some(visits[k]) == Back(runData, p, k)
  {
    seq(n, (k: nat) requires k < n => Back(runData, p, k).value)
  }

  /** More steps than there are recorded tasks visit one of them twice. */
  lemma RepeatVisits(runData: RunData, p: Option<Position>) returns (i: nat, j: nat)
    requires (p.Some? ==> Recorded(runData, p.value)) && forall k: nat :: Back(runData, p, k).Some?
    ensures i < j && Back(runData, p, i) == Back(runData, p, j)
  {
    var visits := Visits(runData, p, |Positions(runData)| + 1);
    if forall x, y :: 0 <= x < y < |visits| ==> visits[x] != visits[y] {
      forall k | 0 <= k < |visits| ensures visits[k] in Positions(runData) {
        BackRecorded(runData, p, k);
        assert visits[k] == Position(visits[k].node, visits[k].run);
      }
      DistinctFit(visits, Positions(runData));
      assert false;
    }
    var x, y :| 0 <= x < y < |visits| && visits[x] == visits[y];
    i, j := x, y;
  }

  /** The loop ends exactly when the sources do not lead into a cycle. */
  lemma EndsIff(runData: RunData, p: Option<Position>)
    requires p.Some? ==> Recorded(runData, p.value)
    ensures Ends(runData, p) <==> !MeetsCycle(runData, p)
  {
    EndsInTime(runData, p);
    if MeetsCycle(runData, p) {
      var i: nat, q, n :| Back(runData, p, i) == Some(q) && OnCycle(runData, q, n);
      forall k: nat ensures Back(runData, p, k).Some? {
        CycleForever(runData, q, n, k);
        BackAdds(runData, p, i, k);
        if Back(runData, p, k).None? {
          OverAfterTrail(runData, p, k, i + k);
          OverAfterTrail(runData, p, k, k);
        }
      }
    }
    if !Ends(runData, p) {
      var i, j := RepeatVisits(runData, p);
      BackAdds(runData, p, i, j - i);
      var q := Back(runData, p, i).value;
      assert Back(runData, p, i) == Some(q) && OnCycle(runData, q, j - i);
    }
  }

  /** The least cycle: a task whose source names the task itself. */
  lemma SelfSourceNeverEnds(node: string, main: Option<Output>, executionIndex: nat)
    requires node != ""
    ensures var task := Task(Some([Some(Source(node, None))]), main, executionIndex);
            !Ends(map[node := [task]], Some(Position(node, 0)))
  {
    var task := Task(Some([Some(Source(node, None))]), main, executionIndex);
    var runData, p := map[node := [task]], Position(node, 0);
    assert PreviousPosition(runData, At(runData, p)) == Some(p);
    assert Back(runData, Some(p), 1) == Back(runData, Some(p), 0) == Some(p);
    assert OnCycle(runData, p, 1);
    EndsIff(runData, Some(p));
  }

  // ---------------------------------------------------------------- ranks

  /** Every recorded task ranks above the task its source names. */
  ghost predicate RankedSources(runData: RunData, rank: Position -> nat) {
    forall p {:trigger Recorded(runData, p)} :: Recorded(runData, p) ==>
      var q := PreviousPosition(runData, At(runData, p));
      q.Some? ==> rank(q.value) < rank(p)
  }

  lemma {:induction false} RanksRunOut(runData: RunData, rank: Position -> nat, p: Position)
    requires RankedSources(runData, rank) && Recorded(runData, p)
    ensures Back(runData, Some(p), rank(p) + 1).None?
    decreases rank(p)
  {
    PreviousIsRecorded(runData, At(runData, p));
    var q := PreviousPosition(runData, At(runData, p));
    if q.Some? {
      RanksRunOut(runData, rank, q.value);
      var m := rank(q.value) + 1;
      OverAfterTrail(runData, q, m, m);
      OverAfterTrail(runData, q, m, rank(p));
    }
  }

  ghost function TrailLength(runData: RunData, p: Position): nat {
    if Ends(runData, Some(p)) then |Trail(runData, Some(p), |Positions(runData)|)| else 0
  }

  /** The task a source names has the shorter trail. */
  lemma TrailShortens(runData: RunData, p: Position)
    requires Recorded(runData, p) && Ends(runData, Some(p))
    ensures var q := PreviousPosition(runData, At(runData, p));
            q.Some? && Ends(runData, q) ==> TrailLength(runData, q.value) < TrailLength(runData, p)
  {
    var q, m := PreviousPosition(runData, At(runData, p)), |Positions(runData)|;
    PreviousIsRecorded(runData, At(runData, p));
    if q.Some? && Ends(runData, q) {
      TrailWhateverBound(runData, q, m, m - 1);
    }
  }

  ghost predicate AllWalksEnd(runData: RunData) {
    forall p :: Recorded(runData, p) ==> Ends(runData, Some(p))
  }

  lemma TrailsRank(runData: RunData)
    requires AllWalksEnd(runData)
    ensures RankedSources(runData, p => TrailLength(runData, p))
  {
    hide TrailLength, Ends;
    forall p | Recorded(runData, p)
      ensures var q := PreviousPosition(runData, At(runData, p));
              q.Some? ==> TrailLength(runData, q.value) < TrailLength(runData, p)
    {
      PreviousIsRecorded(runData, At(runData, p));
      assert Ends(runData, Some(p));
      TrailShortens(runData, p);
    }
  }

  lemma RankedWalksEnd(runData: RunData, rank: Position -> nat)
    requires RankedSources(runData, rank)
    ensures AllWalksEnd(runData)
  {
    hide Ends, RankedSources;
    forall p | Recorded(runData, p) ensures Ends(runData, Some(p)) {
      RanksRunOut(runData, rank, p);
      EndsInTime(runData, Some(p));
    }
  }

  /** Every walk ends exactly when some rank falls along every source. */
  lemma AllWalksEndIff(runData: RunData)
    ensures AllWalksEnd(runData) <==> exists rank :: RankedSources(runData, rank)
  {
    hide AllWalksEnd, RankedSources;
    if rank :| RankedSources(runData, rank) {
      RankedWalksEnd(runData, rank);
    }
    if AllWalksEnd(runData) {
      TrailsRank(runData);
    }
  }

  /** The source of every recorded task was executed before it. */
  ghost predicate SourcesEarlier(runData: RunData) {
    forall p {:trigger Recorded(runData, p)} :: Recorded(runData, p) ==>
      var q := PreviousPosition(runData, At(runData, p));
      q.Some? ==> At(runData, q.value).executionIndex < At(runData, p).executionIndex
  }

  /** With every source executed before its task, the execution index is such a rank. */
  lemma EarlierSourcesEnd(runData: RunData, p: Option<Position>)
    requires SourcesEarlier(runData) && (p.Some? ==> Recorded(runData, p.value))
    ensures Ends(runData, p)
  {
    var rank: Position -> nat := p => if Recorded(runData, p) then At(runData, p).executionIndex else 0;
    assert RankedSources(runData, rank) by {
      forall p | Recorded(runData, p)
        ensures var q := PreviousPosition(runData, At(runData, p)); q.Some? ==> rank(q.value) < rank(p)
      {
        PreviousIsRecorded(runData, At(runData, p));
      }
    }
    RankedWalksEnd(runData, rank);
  }

  /** The trail links each task to the one its source names, up to a task without a recorded source. */
  lemma {:induction false} TrailEndsAtFirst(runData: RunData, p: Position, n: nat)
    requires Recorded(runData, p) && Back(runData, Some(p), n).None?
    ensures var trail := Trail(runData, Some(p), n);
            && trail != [] && trail[0] == p && Recorded(runData, trail[|trail| - 1])
            && PreviousPosition(runData, At(runData, trail[|trail| - 1])).None?
            && (forall i :: 0 <= i < |trail| - 1 ==>
                  Recorded(runData, trail[i]) && PreviousPosition(runData, At(runData, trail[i])) == Some(trail[i + 1]))
    decreases n
  {
    PreviousIsRecorded(runData, At(runData, p));
    var q := PreviousPosition(runData, At(runData, p));
    if q.Some? {
      TrailEndsAtFirst(runData, q.value, n - 1);
    }
  }

  // ---------------------------------------------------------------- the loop

  /** Whether there is a last task to start from at all. */
  predicate HasLastTask(runData: RunData, lastNode: Option<string>) {
    lastNode.Some? && lastNode.value != "" && lastNode.value in runData && runData[lastNode.value] != []
  }

  /** The position of the task before the last run of the node executed last. */
  function StartPosition(runData: RunData, lastNode: Option<string>): Option<Position> {
    if !HasLastTask(runData, lastNode) then None
    else PreviousPosition(runData, runData[lastNode.value][|runData[lastNode.value]| - 1])
  }

  /** The walk starts from the task that the last run of the node executed last names as its source. */
  lemma StartsBeforeLastRun(runData: RunData, lastNode: string, runs: seq<Task>, node: string, run: Option<nat>)
    requires lastNode != "" && lastNode in runData && runData[lastNode] == runs && runs != []
    requires Names(runs[|runs| - 1], node, run)
    ensures HasLastTask(runData, Some(lastNode))
    ensures var k: nat := if run.Some? then run.value else 0;
            StartPosition(runData, Some(lastNode))
            == if node != "" && node in runData && k < |runData[node]| then Some(Position(node, k)) else None
  {
    SourceSelects(runData, runs[|runs| - 1], node, run);
  }

  /** Without such a run there is nowhere to start. */
  lemma NoRunNoStart(runData: RunData, lastNode: Option<string>)
    requires lastNode.None? || lastNode.value == "" || lastNode.value !in runData || runData[lastNode.value] == []
    ensures !HasLastTask(runData, lastNode) && StartPosition(runData, lastNode).None?
  {}

  /** Returns at all only when the walk ends: `EndsIff` and `AllWalksEndIff` say when it does. */
  method FindPairedItemThroughWorkflowData(runData: RunData, lastNode: Option<string>, itemPairing: Pairing,
                                           itemIndex: int)
    returns (pairing: Pairing, ghost visited: nat)
    requires Ends(runData, StartPosition(runData, lastNode))
    ensures !HasLastTask(runData, lastNode) ==> pairing == Absent
    ensures var trail := Trail(runData, StartPosition(runData, lastNode), |Positions(runData)|);
            && (forall i :: 0 <= i < |trail| ==> Recorded(runData, trail[i]))
            && (HasLastTask(runData, lastNode) ==> pairing == FollowTrail(runData, trail, itemPairing, itemIndex))
    ensures visited == |Trail(runData, StartPosition(runData, lastNode), |Positions(runData)|)| <= |Positions(runData)|
  {
    hide Back, Trail, FollowTrail, Recorded, PreviousPosition;
    NoTrail(runData, |Positions(runData)|, itemPairing, itemIndex);
    visited := 0;
    if lastNode.None? || lastNode.value == "" {
      return Absent, 0;
    }
    if lastNode.value !in runData {
      return Absent, 0;
    }
    var lastRuns := runData[lastNode.value];
    if |lastRuns| == 0 {
      return Absent, 0;
    }
    var taskData := lastRuns[|lastRuns| - 1];
    PreviousIsRecorded(runData, taskData);
    ghost var p := PreviousPosition(runData, taskData);
    ghost var n: nat := |Positions(runData)|;
    ghost var trail := Trail(runData, p, n);
    TrailBounded(runData, p, n);
    TrailRecorded(runData, p, n);
    var runDataItem := PreviousTaskData(runData, taskData);
    pairing := itemPairing;
    while runDataItem.Some?
      invariant (p.Some? ==> Recorded(runData, p.value)) && Back(runData, p, n).None?
      invariant runDataItem == if p.Some? then Some(At(runData, p.value)) else None
      invariant visited <= |trail| && trail[visited..] == Trail(runData, p, n)
      invariant FollowTrail(runData, trail[visited..], pairing, itemIndex)
                == FollowTrail(runData, trail, itemPairing, itemIndex)
      decreases n
    {
      ghost var was := pairing;
      var nodeInformationArray := runDataItem.value.main;
      var inputIndex, nodeIndex := 0, itemIndex;
      if pairing.Paired? {
        inputIndex := pairing.input.GetOr(0);
        nodeIndex := pairing.item.GetOr(itemIndex);
      } else if pairing.Index? {
        nodeIndex := pairing.index;
      }
      if nodeInformationArray.Some? && 0 <= inputIndex < |nodeInformationArray.value|
         && nodeInformationArray.value[inputIndex].Some?
         && 0 <= nodeIndex < |nodeInformationArray.value[inputIndex].value| {
        pairing := nodeInformationArray.value[inputIndex].value[nodeIndex];
      } else {
        pairing := Absent;
      }
      StepBack(runData, p, n, trail, visited, was, itemIndex);
      runDataItem := PreviousTaskData(runData, runDataItem.value);
      p, n, visited := PreviousPosition(runData, At(runData, p.value)), n - 1, visited + 1;
    }
    NoTrail(runData, n, pairing, itemIndex);
  }

  lemma NoTrail(runData: RunData, n: nat, pairing: Pairing, itemIndex: int)
    ensures Back(runData, None, n).None? && Trail(runData, None, n) == []
    ensures FollowTrail(runData, [], pairing, itemIndex) == pairing
  {}

  /**
   * One turn of the loop: the trail from `visited` on loses its head, and the pairing is followed through that task.
   */
  lemma StepBack(runData: RunData, p: Option<Position>, n: nat, trail: seq<Position>, visited: nat,
                 pairing: Pairing, itemIndex: int)
    requires p.Some? && Recorded(runData, p.value) && Back(runData, p, n).None?
    requires visited <= |trail| && trail[visited..] == Trail(runData, p, n)
    requires forall i :: 0 <= i < |trail| ==> Recorded(runData, trail[i])
    ensures var q := PreviousPosition(runData, At(runData, p.value));
            && n > 0 && (q.Some? ==> Recorded(runData, q.value)) && Back(runData, q, n - 1).None?
            && visited < |trail| && trail[visited + 1..] == Trail(runData, q, n - 1)
    ensures FollowTrail(runData, trail[visited..], pairing, itemIndex)
         == FollowTrail(runData, trail[visited + 1..], Follow(At(runData, p.value), pairing, itemIndex), itemIndex)
  {
    PreviousIsRecorded(runData, At(runData, p.value));
    hide Follow, Positions;
    assert trail[visited..][1..] == trail[visited + 1..];
  }

  lemma TrailRecorded(runData: RunData, p: Option<Position>, n: nat)
    requires (p.Some? ==> Recorded(runData, p.value)) && Back(runData, p, n).None?
    ensures forall i :: 0 <= i < |Trail(runData, p, n)| ==> Recorded(runData, Trail(runData, p, n)[i])
  {
    forall i | 0 <= i < |Trail(runData, p, n)| ensures Recorded(runData, Trail(runData, p, n)[i]) {
      TrailSuffix(runData, p, n, i);
    }
  }

  // ---------------------------------------------------------------- linear runs

  /**
   * Along a linear run every visited task pairs item `i` of its first input with item `maps[k][i]` of the task before.
   */
  ghost predicate Linear(runData: RunData, trail: seq<Position>, maps: seq<seq<nat>>) {
    && |maps| == |trail|
    && (forall k :: 0 <= k < |trail| ==>
          Recorded(runData, trail[k]) && PairsLike(At(runData, trail[k]), maps[k]))
    && (forall k, i :: 0 <= k < |maps| - 1 && 0 <= i < |maps[k]| ==> maps[k][i] < |maps[k + 1]|)
  }

  ghost predicate PairsLike(task: Task, pairs: seq<nat>) {
    && task.main.Some? && task.main.value != [] && task.main.value[0].Some?
    && |task.main.value[0].value| == |pairs|
    && forall i :: 0 <= i < |pairs| ==> task.main.value[0].value[i] == Index(pairs[i])
  }

  /** `i` sent through the maps one after the other. */
  function Composed(maps: seq<seq<nat>>, i: nat): nat {
    if maps == [] then i
    else if i < |maps[0]| then Composed(maps[1..], maps[0][i])
    else i
  }

  /** On a linear run with in-range pairings, the walk is the composition of the pairing maps. */
  lemma {:induction false} LinearRunComposes(runData: RunData, trail: seq<Position>, maps: seq<seq<nat>>, i: nat,
                                             itemIndex: int)
    requires Linear(runData, trail, maps) && (maps != [] ==> i < |maps[0]|)
    ensures FollowTrail(runData, trail, Index(i), itemIndex) == Index(Composed(maps, i))
    decreases |trail|
  {
    if trail != [] {
      assert PairsLike(At(runData, trail[0]), maps[0]);
      assert forall k :: 0 <= k < |trail| - 1 ==> trail[1..][k] == trail[k + 1] && maps[1..][k] == maps[k + 1];
      assert Linear(runData, trail[1..], maps[1..]) by {
        forall k, j | 0 <= k < |maps[1..]| - 1 && 0 <= j < |maps[1..][k]| ensures maps[1..][k][j] < |maps[1..][k + 1]| {
          assert maps[k + 1][j] < |maps[k + 2]|;
        }
      }
      LinearRunComposes(runData, trail[1..], maps[1..], maps[0][i], itemIndex);
    }
  }

  // ---------------------------------------------------------------- runs paired by objects

  /** Item `i` of output `output` is paired with item `pairs[i]` of the output that `input` names in the task before. */
  ghost predicate PairsByObject(task: Task, output: nat, pairs: seq<nat>, input: Option<int>) {
    && task.main.Some? && output < |task.main.value| && task.main.value[output].Some?
    && |task.main.value[output].value| == |pairs|
    && forall i :: 0 <= i < |pairs| ==> task.main.value[output].value[i] == Paired(Some(pairs[i]), input)
  }

  /** The output that the input of a pairing object names, the first if it names none. */
  function OutputOf(input: Option<int>): int {
    if input.Some? then input.value else 0
  }

  /** Along the trail, task `k` is entered through `inputs[k]`, and its items point on through `inputs[k + 1]`. */
  ghost predicate LinearByObject(runData: RunData, trail: seq<Position>, maps: seq<seq<nat>>,
                                 inputs: seq<Option<int>>) {
    && |maps| == |trail| && |inputs| == |trail| + 1
    && (forall k :: 0 <= k < |trail| ==>
          && Recorded(runData, trail[k]) && OutputOf(inputs[k]) >= 0
          && PairsByObject(At(runData, trail[k]), OutputOf(inputs[k]), maps[k], inputs[k + 1]))
    && (forall k, i :: 0 <= k < |maps| - 1 && 0 <= i < |maps[k]| ==> maps[k][i] < |maps[k + 1]|)
  }

  /** With pairing objects, over any choice of outputs, the walk is the composition of the pairing maps as well. */
  lemma {:induction false} ObjectRunComposes(runData: RunData, trail: seq<Position>, maps: seq<seq<nat>>,
                                             inputs: seq<Option<int>>, i: nat, itemIndex: int)
    requires LinearByObject(runData, trail, maps, inputs) && (maps != [] ==> i < |maps[0]|)
    ensures FollowTrail(runData, trail, Paired(Some(i), inputs[0]), itemIndex)
         == Paired(Some(Composed(maps, i)), inputs[|trail|])
    decreases |trail|
  {
    if trail != [] {
      var task := At(runData, trail[0]);
      assert PairsByObject(task, OutputOf(inputs[0]), maps[0], inputs[1]);
      assert Follow(task, Paired(Some(i), inputs[0]), itemIndex) == Paired(Some(maps[0][i]), inputs[1]);
      TailLinearByObject(runData, trail, maps, inputs);
      ObjectRunComposes(runData, trail[1..], maps[1..], inputs[1..], maps[0][i], itemIndex);
    }
  }

  lemma TailLinearByObject(runData: RunData, trail: seq<Position>, maps: seq<seq<nat>>, inputs: seq<Option<int>>)
    requires LinearByObject(runData, trail, maps, inputs) && trail != []
    ensures LinearByObject(runData, trail[1..], maps[1..], inputs[1..])
  {
    hide PairsByObject;
    assert forall k :: 0 <= k < |trail| - 1 ==>
             trail[1..][k] == trail[k + 1] && maps[1..][k] == maps[k + 1] && inputs[1..][k] == inputs[k + 1];
    assert inputs[1..][|trail| - 1] == inputs[|trail|];
    forall k, j | 0 <= k < |maps[1..]| - 1 && 0 <= j < |maps[1..][k]| ensures maps[1..][k][j] < |maps[1..][k + 1]| {
      assert maps[k + 1][j] < |maps[k + 2]|;
    }
  }
}
