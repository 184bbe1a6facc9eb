# Verified model of n8n's stateful services

This project models nine small services of n8n whose behaviour depends on order, caches, timers or interleaving, and
proves what they keep. Each TypeScript class that updates its own fields is a Dafny class whose methods are proved equal to
a step of a specification function; each loop over local state is a method with a loop; the main results are lemmas about
those functions, over every input or every run.

| module | models |
|---|---|
| `CredentialTypes` | the `extends` relation and the parent list built by a loop over an array that grows while it is walked |
| `CredentialsOverwrites` | the eager and the lazy resolution of credential overwrites, saving, reloading and applying them |
| `ConcurrencyControl`, `ActiveExecutions` | one execution queue, and the registry of active executions with late settle handlers |
| `ExecutionSlots`, `ExecutionLifecycle`, `ExecutionShutdown`, `ExecutionSteps` | capacity accounting, late handlers and resumption, and shutdown, over whole runs, and what single steps bring about |
| `ActivationProtocol`, `ActivationQueue` | the multi-main activation protocol, and the retry queue of a single main |
| `ConnectionPoolManager` | the pool cache with re-entrant abort, overlapping creations and idle expiry |
| `CredentialRepair` | `replaceInvalidCredentials` with its two caches |
| `WaitTracker` | the timers of waiting executions |
| `WorkflowBacktracking` | the walk back to the first paired item |
| `Shuffle`, `Flatten` | the array shuffle and the two object flatteners |
| `Runs`, `Counting`, `Wrappers` | induction over runs, counting in sequences, optional values |

`dafny verify dfyconfig.toml` checks the whole project.

## How the model reads the code

- Asynchronous code is a state machine whose steps are the stretches between two `await`s. A run is any list of permitted
  steps; what a run may contain is a predicate (`Possible`, and stronger ones where a result needs them), so every
  assumption about callers is visible in the statement that uses it.
- A registration, a pool with its abort controller, and a timer are identified by the number of their creation. That keeps
  the aliasing of the source: a settle handler holds the number of its own registration and deletes by execution id; an
  abort listener holds a key and deletes whatever is registered under it by then.
- Where a property holds only under a condition, the condition is proved exact: an if-and-only-if over all states, or a
  lemma that shows what goes wrong without it.
- `order` parameters enumerate the keys of an object or map in the order in which the loop visits them.
- Recursion along `extends` is measured by the number of proper ancestors, which is finite and falls at every parent
  because the relation is acyclic; the source recurses without end on a cyclic relation.

Findings about the code itself:

- Removing one queued execution while others wait lets one of those proceed although no slot came free, so one more than
  the limit runs (`ExecutionSlots.RemovalExceedsLimit`).
- The resolved-types cache marks the ancestors of a resolved type without storing what was computed for them, so the stored
  data depend on the key order, while `get` does not (`EntriesCompleteIff`, `SecondSiblingMissesInheritance`,
  `EffectiveOverwrites`).
- The two resolvers rank several parents in opposite order, so the eager pass can change effective overwrites as soon as a
  type has two parents (`EffectiveOverwritesIff`).
- Two overlapping pool creations for one key leave the first pool open and outside every sweep, and closing it later closes
  its successor (`OverlapOrphans`, `OrphanNeverCleanedUp`, `OrphanTakesSuccessorDown`).
- Executions tracked at a stepdown never get a timer again on that instance (`StepdownAbandons`).
- A workflow queued again while its retry is in flight ends up with a live timer that nothing clears
  (`RequeueInFlightLeaksTimer`).
- A stepdown between the start and the end of an activation leaves triggers on a former leader
  (`StepdownDuringActivation`).
- A leader notices only at its next check that the leader key has lapsed and another main has taken over; until then both
  count themselves leader and can hold the same workflow (`AtMostOneLeaderIff`, `TakeoverBeforeStepdown`).
- A removal does not last when it is handled while an activation of the workflow is under way, or while another main still
  holds the workflow (`RemovedStaysInactiveIff`).
- A repaired credential takes over the name of an earlier one with the same unknown id; `AgreeingNames` is the exact
  condition under which this does not show (`RepairIsUncached`).
- The walk back to the first paired item loops forever exactly when its sources lead into a cycle (`EndsIff`).
- `flattenKeys` and `flattenObject` differ, on objects without a `length` key, only where a Date or an `undefined` is
  (`FlatteningsAgreeIff`, `ScalarsAgree`).

## Model

| member | source | states |
|---|---|---|
| CredentialTypes.GetParentTypes | packages/cli/src/credential-types.ts:26-38 | the loop over the growing array ends on every acyclic relation, several parents included, and returns the list whose elements and order the next lemmas give |
| CredentialTypes.ParentListIsAncestors | packages/cli/src/credential-types.ts:23-38 | a type is in the parent list if and only if it is a proper ancestor |
| CredentialTypes.NearestAncestorsFirst | packages/cli/src/credential-types.ts:33-37 | on single-parent relations the first occurrences are parent, grandparent and so on, nearest first |
| CredentialsOverwrites.CredentialsOverwrites.GetOverwrites | packages/cli/src/credentials-overwrites.ts:171-201 | the eager resolver and its cache, for every acyclic relation: result and new cache are those of `Resolve` |
| CredentialsOverwrites.CredentialsOverwrites.SetPlainData | packages/cli/src/credentials-overwrites.ts:115-128 | the cache is reset and the caller's own object is rewritten entry by entry, in key order |
| CredentialsOverwrites.CredentialsOverwrites.SetData | packages/cli/src/credentials-overwrites.ts:130-143 | what is stored is the object as the eager pass left it, and only with persistence |
| CredentialsOverwrites.CredentialsOverwrites.LoadOverwriteDataFromDB | packages/cli/src/credentials-overwrites.ts:56-76 | after a reload every type has the effective overwrites of the stored data; a load during a load and a missing row change nothing |
| CredentialsOverwrites.CredentialsOverwrites.GetMerged | packages/cli/src/credentials-overwrites.ts:203-210 | the lazy resolver returns the merge `Get`, which `GetIsLookup` characterises |
| CredentialsOverwrites.CredentialsOverwrites.ApplyOverwrite | packages/cli/src/credentials-overwrites.ts:152-169 | exactly the empty fields are filled with effective overwrites, on a copy |
| CredentialsOverwrites.GetIsLookup | packages/cli/src/credentials-overwrites.ts:203-210 | on any data and single-parent relation, `get` gives every key the value of the nearest ancestor that sets it |
| CredentialsOverwrites.ResolveHoldsAndInherits | packages/cli/src/credentials-overwrites.ts:171-201 | whatever the cache, the eager result holds the type's own fields and otherwise only fields it inherits |
| CredentialsOverwrites.EffectiveOverwrites | packages/cli/src/credentials-overwrites.ts:115-128 | whatever the key order and whatever the cache skipped, after `setPlainData` `get` is nearest-ancestor-first in the original data |
| CredentialsOverwrites.EffectiveOverwritesIff | packages/cli/src/credentials-overwrites.ts:115-210 | when `extends` lists name recognised types without repetition, the eager pass keeps every effective overwrite, on all data in every key order, if and only if no type has two parents |
| CredentialsOverwrites.SeveralParentsChangeOverwrites | packages/cli/src/credentials-overwrites.ts:189-210 | for every type whose first and last parent differ, the last being recognised, data and a key order under which `get` yields the first parent's value before the pass and the last parent's after it |
| CredentialsOverwrites.ReloadKeepsEffective | packages/cli/src/credentials-overwrites.ts:56-76 | saving what the eager pass left and loading it, in any key order, changes the effective overwrites of no type |
| CredentialsOverwrites.TwoParentsRankedOppositely | packages/cli/src/credentials-overwrites.ts:189-210 | the same per key for two root parents: in any key order the effective value changes exactly when both set the key, differently |
| CredentialsOverwrites.ResolveReaches | packages/cli/src/credentials-overwrites.ts:171-201 | on single-parent relations and for any cache, a field is in the eager result if and only if a type on the chain up to and including the first cached one sets it, the nearest deciding; that chain is what the cache gains |
| CredentialsOverwrites.CacheAfter | packages/cli/src/credentials-overwrites.ts:171-201 | at every point of the pass the cache holds exactly the recognised types among the keys so far and their ancestors |
| CredentialsOverwrites.StoredEntry | packages/cli/src/credentials-overwrites.ts:115-128 | the stored entry of every recognised type is what that chain gives when its turn comes, and no later key changes it |
| CredentialsOverwrites.EntriesCompleteIff | packages/cli/src/credentials-overwrites.ts:115-201 | for single-parent relations whose `extends` lists name recognised types, and a key order: all stored entries hold all they inherit, on all data with these keys, if and only if no turn meets on its chain a type that an earlier key put into the cache before its own turn and that inherits from a key |
| CredentialsOverwrites.AncestorsFirstComplete | packages/cli/src/credentials-overwrites.ts:115-128 | in particular when every ancestor of a key comes before it |
| CredentialsOverwrites.SecondSiblingMissesInheritance | packages/cli/src/credentials-overwrites.ts:172-200 | of two siblings before their parent, whether or not it has an entry, the first receives what the root sets and the second never does, whatever follows |
| CredentialsOverwrites.FillingIsIdempotent | packages/cli/src/credentials-overwrites.ts:159-168 | applying overwrites twice is applying them once, and a field that is set is never changed |
| CredentialsOverwrites.FilledValues | packages/cli/src/credentials-overwrites.ts:159-168 | a missing, null, undefined or empty field takes the overwrite, and every other field, and what has no overwrite, stays |
| CredentialsOverwrites.FilledFromNearest | packages/cli/src/credentials-overwrites.ts:152-210 | with at most one parent per type, such a field takes the value of the nearest type that sets it |
| ConcurrencyControl.ConcurrencyControlService.Throttle | packages/cli/src/concurrency/concurrency-queue.ts:22-33 | taking a slot, or joining the end of the queue when none is free; no effect when disabled or unlimited |
| ConcurrencyControl.ConcurrencyControlService.Release | packages/cli/src/concurrency/concurrency-queue.ts:39-43 | returning a slot and letting the first queued execution proceed |
| ConcurrencyControl.ConcurrencyControlService.Remove | packages/cli/src/concurrency/concurrency-queue.ts:45-55 | taking the first queued item of an id out, returning its slot and resolving the next item |
| ConcurrencyControl.ConcurrencyControlService.ResolveNext | packages/cli/src/concurrency/concurrency-queue.ts:65-75 | the head of the queue is taken out, if there is one |
| ConcurrencyControl.ConcurrencyControlService.Disable | packages/cli/src/concurrency/concurrency-control.service.ts:165-167 | the switch goes off, capacity and queue stay |
| ActiveExecutions.ActiveExecutions.AddUntilThrottled | packages/cli/src/active-executions.ts:79-87 | the first stretch of `add`, up to the slot |
| ActiveExecutions.ActiveExecutions.AddRegister | packages/cli/src/active-executions.ts:100-128 | the new registration replaces the id's entry and takes over start time and response promise |
| ActiveExecutions.ActiveExecutions.SetStatus | packages/cli/src/active-executions.ts:252-254 | the current registration changes status; an unknown id is an error |
| ActiveExecutions.ActiveExecutions.AttachResponsePromise | packages/cli/src/active-executions.ts:143-148 | the current registration gets a response promise; an unknown id is an error |
| ActiveExecutions.ActiveExecutions.StopExecution | packages/cli/src/active-executions.ts:165-182 | a waiting entry is deleted at once, any other has its promise settled |
| ActiveExecutions.ActiveExecutions.FinalizeExecution | packages/cli/src/active-executions.ts:185-204 | the promise of the current registration is settled, an unknown id is ignored |
| ActiveExecutions.ActiveExecutions.OnSettled | packages/cli/src/active-executions.ts:117-128 | the handler releases its slot, then keeps a waiting entry or deletes its id |
| ActiveExecutions.ActiveExecutions.CancelActive | packages/cli/src/active-executions.ts:261-283 | the synchronous part of `shutdown`, for both values of `cancelAll` |
| ExecutionSteps.StatusStored | packages/cli/src/active-executions.ts:252-254 | the status is stored in the registration that the map holds, and nothing else changes |
| ExecutionSteps.ResponseStored | packages/cli/src/active-executions.ts:143-148 | the response promise is stored in the registration that the map holds, and nothing else changes |
| ExecutionSteps.PromiseSettled | packages/cli/src/active-executions.ts:165-204 | a finalization, and a stop unless the execution waits, settle the promise of that registration alone |
| ExecutionSteps.WaitingStopped | packages/cli/src/active-executions.ts:173-176 | stopping a waiting execution takes its id, and nothing else, out of the map |
| ExecutionSteps.Begun | packages/cli/src/concurrency/concurrency-queue.ts:22-33 | with a free slot, or none needed, an add goes on at once; otherwise it waits at the end of the queue |
| ExecutionSteps.Registered | packages/cli/src/active-executions.ts:100-111 | a new registration runs, unsettled, from now on; a resumed one keeps start and response promise; every other entry stays |
| ExecutionSteps.HandlerRun | packages/cli/src/active-executions.ts:119-128 | a handler that is due deletes its id unless its own registration waits, and leaves every other entry alone |
| ExecutionSteps.HandlerReleases | packages/cli/src/concurrency/concurrency-queue.ts:39-43 | it gives the slot of its registration back, and the head of the queue, if there is one, goes on with it |
| ExecutionSteps.StatusDecidesRemoval | packages/cli/src/active-executions.ts:119-128 | after a status is set and the execution finalized, the handler removes it exactly when that status is not `waiting` |
| ExecutionSteps.WaitingResumes | packages/cli/src/active-executions.ts:100-111 | an execution that was finalized waiting is resumed with the start and the response promise it had |
| ExecutionSteps.WholeLife | packages/cli/src/active-executions.ts:54-204 | an execution that meets a free slot comes and goes without a trace in map, capacity or queue |
| ExecutionSteps.QueuedRemoved | packages/cli/src/concurrency/concurrency-queue.ts:45-55 | the first queued item of the id, and no other, is taken out, and the next item proceeds |
| ExecutionSteps.QueuedRemovalAdmits | packages/cli/src/concurrency/concurrency-queue.ts:45-55 | the item that proceeds goes on with its add; an id that is not queued changes nothing |
| ExecutionSlots.SlotConservation | packages/cli/src/active-executions.ts:79-128 | over every interleaving, slots taken and not given back are those of adds before registering, of registrations whose handler has not run, and of queued executions; so none is given back twice (`NoSecondRelease`) |
| ExecutionSlots.BalancedIff | packages/cli/src/concurrency/concurrency-queue.ts:22-75 | a step unbalances capacity and queue exactly when it removes a queued execution while others wait |
| ExecutionSlots.LimitRespected | packages/cli/src/concurrency/concurrency-queue.ts:22-43 | in runs without such a removal the slots in use never exceed the limit, and executions wait only while all slots are in use |
| ExecutionSlots.RemovalExceedsLimit | packages/cli/src/concurrency/concurrency-queue.ts:45-55 | such a removal takes the slots in use to one above the limit |
| ExecutionSlots.LimitExceededFromStart | packages/cli/src/concurrency/concurrency-queue.ts:22-55 | two executions more than the limit, whatever it is, lead from the start to a state in which one removal exceeds it |
| ExecutionSlots.FirstQueuedFirstAdmitted | packages/cli/src/concurrency/concurrency-queue.ts:31-43 | over every run without removals, executions are admitted in the order in which they were queued |
| ExecutionLifecycle.StaleHandlerIff | packages/cli/src/active-executions.ts:100-128 | a step leaves a deleting handler behind for a registration the map no longer holds exactly when it replaces, or drops at shutdown, an entry whose handler is due |
| ExecutionLifecycle.LateHandlersHarmlessOverRuns | packages/cli/src/active-executions.ts:100-128 | over runs in which ids are registered again only when absent or waiting and no status is set back to `new`, whatever else `setStatus` does, no late handler of an older registration removes a newer one |
| ExecutionLifecycle.LateHandlerHarmless | packages/cli/src/active-executions.ts:119-128 | in any state without a stale handler, a handler removes no registration but its own |
| ExecutionLifecycle.StaleHandlerDeletes | packages/cli/src/active-executions.ts:119-128 | a stale handler that runs removes the newer registration of its id |
| ExecutionLifecycle.UndisciplinedRunLosesRegistration | packages/cli/src/active-executions.ts:100-128 | a run that registers a finished execution again before its handler loses the running registration |
| ExecutionLifecycle.StartTimeKept | packages/cli/src/active-executions.ts:106-113 | while an id stays in the map it keeps its first start time and its response promise, however often it is resumed |
| ExecutionSteps.CancelPassExact | packages/cli/src/active-executions.ts:269-281 | for either value of `cancelAll`: which entries the pass drops, which promises it settles, and that the rest is left running |
| ExecutionSteps.NobodyAdmittedAfterShutdown | packages/cli/src/active-executions.ts:264-266 | from a shutdown on no handler admits an execution from the queue |
| ExecutionShutdown.CancelPassLeavesDraining | packages/cli/src/active-executions.ts:269-281 | when every entry whose handler has run is waiting, each entry left by the pass with `cancelAll` has a settled promise whose handler is still to run, and delete; when other handlers that are due delete the rest, every entry left has a handler due that deletes it |
| ExecutionShutdown.ShutdownEmpties | packages/cli/src/active-executions.ts:261-295 | after any run that registers ids again only when absent or waiting, never sets `new` and leaves waiting in no other way, the handlers due are a measure for the wait: each handler lowers it, nothing raises it, one can run while an entry remains, and at zero the map is empty |
| ExecutionShutdown.ShutdownEndsIff | packages/cli/src/active-executions.ts:261-295 | from any well-formed state `shutdown(true)` can end if and only if every entry whose own handler has run is waiting or has another handler due that deletes it |
| ExecutionShutdown.StuckForever | packages/cli/src/active-executions.ts:287-294 | an entry that is handled, not waiting and deleted by no handler that is due survives the pass and every continuation |
| ExecutionShutdown.ShutdownAll | packages/cli/src/active-executions.ts:261-295 | under that condition the pass and the sleeping loop end with nothing active |
| ActivationProtocol.ActiveWorkflowManager.Add | packages/cli/src/active-workflow-manager.ts:559-579 | with several mains `add` publishes and returns; otherwise only a leader goes on to triggers and pollers |
| ActivationProtocol.ActiveWorkflowManager.Remove | packages/cli/src/active-workflow-manager.ts:884-921 | with several mains `remove` publishes; a single main removes at once |
| ActivationProtocol.ActiveWorkflowManager.HandleAddWebhooksTriggersAndPollers | packages/cli/src/active-workflow-manager.ts:696-703 | one main's part of delivering an add command, without publishing it again |
| ActivationProtocol.ActiveWorkflowManager.HandleRemoveTriggersAndPollers | packages/cli/src/active-workflow-manager.ts:923-935 | one main's part of delivering a remove command, with one display command |
| ActivationProtocol.ActiveWorkflowManager.FinishActivation | packages/cli/src/active-workflow-manager.ts:643-728 | the end of an activation, successful or not, with or without triggers left running: memory and one display command, whoever leads by then |
| ActivationProtocol.ActiveWorkflowManager.ActivateOnStartup | packages/cli/src/active-workflow-manager.ts:480-482 | one workflow of the start-up loop decides by the role at that moment and publishes nothing |
| ActivationProtocol.ActiveWorkflowManager.TakeOver | packages/cli/src/active-workflow-manager.ts:527-530 | the main counts itself leader, in any state of the others; its memory and its activations under way stay |
| ActivationProtocol.ActiveWorkflowManager.StepDown | packages/cli/src/active-workflow-manager.ts:532-536 | all triggers and pollers of the main go, whether or not it counted itself leader |
| ActivationProtocol.RequestReachesAll | packages/cli/src/active-workflow-manager.ts:567-571 | a request puts exactly one copy in the way of every main, its own included |
| ActivationProtocol.AddStartsActivation | packages/cli/src/active-workflow-manager.ts:696-703 | on a leader an add command starts exactly one activation, which will announce itself |
| ActivationProtocol.FollowersIgnore | packages/cli/src/active-workflow-manager.ts:696-699 | on a main that does not lead, a command is used up and has no other effect |
| ActivationProtocol.ActivationEnds | packages/cli/src/active-workflow-manager.ts:643-728 | the end of an activation: its workflow in the memory of that main alone, and the right display command for every other main |
| ActivationProtocol.RemoveTakesEffect | packages/cli/src/active-workflow-manager.ts:923-935 | on a leader a removal takes the workflow out of its memory alone and shows that to every other main |
| ActivationProtocol.StartupActivates | packages/cli/src/active-workflow-manager.ts:480-482 | the start-up of a workflow begins a silent activation on a leader and nothing elsewhere |
| ActivationProtocol.LeadershipChanges | packages/cli/src/active-workflow-manager.ts:527-536 | a takeover changes the role alone; a stepdown also clears what the main holds |
| ActivationProtocol.DisplayShown | packages/cli/src/active-workflow-manager.ts:672-694 | a display command is used up and has no other effect |
| ActivationProtocol.RequestedWorkflowRuns | packages/cli/src/active-workflow-manager.ts:559-728 | from any state with a leader: a workflow requested on any main, delivered to the leader and finished there is held by it, and shown to every other main |
| ActivationProtocol.OnlyLeaderHoldsIff | packages/cli/src/active-workflow-manager.ts:559-728 | that every main with triggers in memory counts itself leader is broken exactly by an activation that ends after its main stepped down |
| ActivationProtocol.HoldersLeadOverRuns | packages/cli/src/active-workflow-manager.ts:527-536 | when mains finish their activations before stepping down, it holds over every run, overlapping leaderships included |
| ActivationProtocol.AtMostOneLeaderIff | packages/cli/src/scaling/multi-main-setup.ee.ts:70-129 | leaderships come to overlap exactly when a main takes over, the leader key having lapsed, before another one has stepped down |
| ActivationProtocol.OnlyLeaderHoldsOverRuns | packages/cli/src/active-workflow-manager.ts:527-536 | when a main also steps down before the next one takes over, only the current leader ever holds triggers, and no workflow is active on two mains |
| ActivationProtocol.TakeoverBeforeStepdown | packages/cli/src/scaling/multi-main-setup.ee.ts:83-129 | otherwise two mains, both counting themselves leader, can hold one workflow, from any state in which one leads and holds it |
| ActivationProtocol.RemovedStaysInactiveIff | packages/cli/src/active-workflow-manager.ts:923-935 | in any state: once a main has handled a removal, every continuation that does not start the workflow again keeps it out of all memories if and only if no activation of it was under way and no main but this one, as a leader, held it |
| ActivationProtocol.ActivationOutlivesRemoval | packages/cli/src/active-workflow-manager.ts:643-649 | the failing half: an activation under way at the removal puts the workflow back when it ends |
| ActivationProtocol.StepdownDuringActivation | packages/cli/src/active-workflow-manager.ts:578-649 | a stepdown during an activation can leave the workflow on a former leader and on the new one, from any state with a leader and another main |
| ActivationProtocol.CommandsDrain | packages/cli/src/active-workflow-manager.ts:672-728 | no run of handling steps is longer than the work pending at its start, since handling publishes at most one display command and never an add or remove (`HandlingPublishes`) |
| ActivationProtocol.WorkCanGoOn | packages/cli/src/active-workflow-manager.ts:696-728 | a handling step is possible if and only if work is left |
| ActivationQueue.ActivationQueue.AddQueuedWorkflowActivation | packages/cli/src/active-workflow-manager.ts:804-856 | a queued workflow loses its old timer and gets one of one second |
| ActivationQueue.ActivationQueue.RemoveQueuedWorkflowActivation | packages/cli/src/active-workflow-manager.ts:861-866 | the stored timer is cleared and the entry goes |
| ActivationQueue.ActivationQueue.RemoveAllQueuedWorkflowActivations | packages/cli/src/active-workflow-manager.ts:871-875 | every entry and every stored timer goes |
| ActivationQueue.ActivationQueue.StartRetry | packages/cli/src/active-workflow-manager.ts:811-817 | a firing timer is no longer live and its retry is in flight |
| ActivationQueue.ActivationQueue.FinishRetry | packages/cli/src/active-workflow-manager.ts:811-844 | success dequeues; failure doubles the delay up to a day and arms it, or fails itself when the workflow is no longer queued |
| ActivationQueue.QueueArms | packages/cli/src/active-workflow-manager.ts:804-856 | queueing arms one timer of a second and spares every other workflow |
| ActivationQueue.FireRetries | packages/cli/src/active-workflow-manager.ts:811-817 | a firing timer puts the retry of its workflow in flight |
| ActivationQueue.FailureRearms | packages/cli/src/active-workflow-manager.ts:816-855 | a failed retry leaves the workflow queued and arms a timer of twice the delay, up to a day |
| ActivationQueue.UnqueuedFailureArmsNothing | packages/cli/src/active-workflow-manager.ts:816-855 | a failed retry of a workflow that is no longer queued arms nothing |
| ActivationQueue.SuccessDequeues | packages/cli/src/active-workflow-manager.ts:652 | a successful retry ends the retries of its workflow and spares every other |
| ActivationQueue.DequeueSparesOthers | packages/cli/src/active-workflow-manager.ts:861-866 | a removal ends the retries of its workflow and spares every other |
| ActivationQueue.QueuedIsRetried | packages/cli/src/active-workflow-manager.ts:804-856 | in every state of runs that never queue a workflow during its retry, a queued workflow has a live timer or a retry in flight |
| ActivationQueue.OnlyStoredIff | packages/cli/src/active-workflow-manager.ts:811-866 | a live timer stops being the stored one exactly when a retry fails after its workflow was queued again |
| ActivationQueue.AtMostOneLiveTimer | packages/cli/src/active-workflow-manager.ts:811-866 | in runs that never queue a workflow during its retry, each workflow has at most one live timer, the stored one |
| ActivationQueue.SilentAfterRemoval | packages/cli/src/active-workflow-manager.ts:858-866 | after a removal no timer of the workflow is live until it is queued afresh, even with a retry in flight |
| ActivationQueue.NoTimerAfterDequeueAll | packages/cli/src/active-workflow-manager.ts:871-875 | emptying the queue leaves no live timer |
| ActivationQueue.RequeueInFlightLeaksTimer | packages/cli/src/active-workflow-manager.ts:836-855 | otherwise a second live timer remains that no removal clears |
| ActivationQueue.BackoffShape | packages/cli/src/constants.ts:70-71 | delays never decrease and reach the cap of a day first after seventeen failures |
| ActivationQueue.DelayAfterFailures | packages/cli/src/active-workflow-manager.ts:816-855 | while a workflow stays queued its timer has the delay min(1000·2^k, 86400000) after k failed retries |
| ConnectionPoolManager.ConnectionPoolManager.GetConnection | packages/nodes-base/utils/connection-pool-manager.ts:91-107 | a hit refreshes the entry, calls `wasUsed` and returns its pool, a miss starts a creation |
| ConnectionPoolManager.ConnectionPoolManager.FinishConnection | packages/nodes-base/utils/connection-pool-manager.ts:109-124 | a creation whose controller is aborted fails, any other registers its pool and listener |
| ConnectionPoolManager.ConnectionPoolManager.Abort | packages/nodes-base/utils/connection-pool-manager.ts:118-133 | the re-entrant chain abort, listener, cleanup, abort ends in every state, overlapping creations included |
| ConnectionPoolManager.ConnectionPoolManager.CleanupConnection | packages/nodes-base/utils/connection-pool-manager.ts:126-133 | the entry goes before its controller is aborted, which is the measure of the chain |
| ConnectionPoolManager.ConnectionPoolManager.CleanupStaleConnections | packages/nodes-base/utils/connection-pool-manager.ts:139-147 | a sweep over the entries in map order |
| ConnectionPoolManager.ConnectionPoolManager.PurgeConnections | packages/nodes-base/utils/connection-pool-manager.ts:153-157 | cleanup of every entry in map order |
| ConnectionPoolManager.MissStartsCreation | packages/nodes-base/utils/connection-pool-manager.ts:102-107 | a miss starts one creation for its key under a fresh number and registers nothing yet |
| ConnectionPoolManager.CreationRegisters | packages/nodes-base/utils/connection-pool-manager.ts:109-124 | a creation registers its pool under its key, used just now, and no other entry changes; an aborted one registers nothing |
| ConnectionPoolManager.RejectedLeavesNothing | packages/nodes-base/utils/connection-pool-manager.ts:103-107 | a creation that fails leaves no trace |
| ConnectionPoolManager.HitRefreshes | packages/nodes-base/utils/connection-pool-manager.ts:96-99 | a hit keeps the pool and marks it as used just now |
| ConnectionPoolManager.MissThenHit | packages/nodes-base/utils/connection-pool-manager.ts:91-124 | a key that is missed and created is hit afterwards, with the pool of that creation |
| ConnectionPoolManager.NoAbortedPoolRegistered | packages/nodes-base/utils/connection-pool-manager.ts:91-133 | in every state of every run no registered pool has an aborted controller |
| ConnectionPoolManager.AbortOne | packages/nodes-base/utils/connection-pool-manager.ts:118-133 | aborting a controller takes down exactly itself and whatever its key holds by then |
| ConnectionPoolManager.SweepExact | packages/nodes-base/utils/connection-pool-manager.ts:139-147 | a sweep removes and aborts exactly the entries idle for more than 300000 ms |
| ConnectionPoolManager.PurgeExact | packages/nodes-base/utils/connection-pool-manager.ts:153-157 | a purge removes and aborts exactly the enumerated entries |
| ConnectionPoolManager.AccountedIff | packages/nodes-base/utils/connection-pool-manager.ts:102-124 | a pool ends up neither registered nor aborted exactly when a creation completes over an entry made meanwhile |
| ConnectionPoolManager.RegisteredXorAborted | packages/nodes-base/utils/connection-pool-manager.ts:91-133 | when creations for one key never overlap, every pool made, those that came too late to be registered included, is at all times exactly one of registered or aborted |
| ConnectionPoolManager.OverlapOrphans | packages/nodes-base/utils/connection-pool-manager.ts:102-124 | two overlapping creations leave the first pool an orphan |
| ConnectionPoolManager.OrphanNeverCleanedUp | packages/nodes-base/utils/connection-pool-manager.ts:126-157 | no hit, sweep or purge ever closes an orphan |
| ConnectionPoolManager.OrphanTakesSuccessorDown | packages/nodes-base/utils/connection-pool-manager.ts:118-133 | aborting an orphan closes the pool registered under its key since |
| ConnectionPoolManager.UseDecidesSweep | packages/nodes-base/utils/connection-pool-manager.ts:96-99 | a pool used within five minutes survives a sweep, one unused for longer is closed by it |
| ConnectionPoolManager.CreationDecidesSweep | packages/nodes-base/utils/connection-pool-manager.ts:117-147 | a pool made within five minutes survives a sweep, one made earlier and unused is closed by it |
| ConnectionPoolManager.IdleAtMostSixMinutes | packages/nodes-base/utils/connection-pool-manager.ts:6-10 | with a sweep every minute no registered pool is ever idle over 360000 ms |
| CredentialRepair.ReplaceInvalidCredentials | packages/cli/src/workflow-helpers.ts:70-174 | the nodes are repaired in place as the rows of the table say (`NodeRepairedTo`), and when names agree as uncached lookups say |
| CredentialRepair.ReplaceEntry | packages/cli/src/workflow-helpers.ts:88-169 | one credential with both caches, every branch |
| CredentialRepair.RepairIsUncached | packages/cli/src/workflow-helpers.ts:70-174 | every enabled node gets what uncached lookups give, and disabled nodes are untouched, if and only if no unresolvable credential is followed by one with the same id under another name |
| CredentialRepair.UniqueNamedIff | packages/cli/src/workflow-helpers.ts:96-101 | the lookup by name finds a row if and only if it is the only one of that name and type |
| CredentialRepair.FoundByIdIff | packages/cli/src/workflow-helpers.ts:132-136 | the lookup by id succeeds if and only if the row with that id has the type |
| CredentialRepair.RepairFollowsRows | packages/cli/src/workflow-helpers.ts:70-174 | whatever the names, over the rows alone: a bare name or null id becomes the one row of its name and type, or keeps its name; a known id takes its row's name; an unknown id becomes what the first unresolvable credential with it said, else the one row of its name, else stays |
| CredentialRepair.OthersUntouched | packages/cli/src/workflow-helpers.ts:82-84 | disabled nodes and nodes without credentials are never changed |
| WaitTracker.WaitTracker.GetWaitingExecutions | packages/cli/src/wait-tracker.ts:55-83 | a poll's answers are tracked in order, tracked ids are skipped |
| WaitTracker.WaitTracker.Stop | packages/cli/src/wait-tracker.ts:85-91 | the timer is cleared and the entry goes |
| WaitTracker.WaitTracker.OnTimer | packages/cli/src/wait-tracker.ts:77-95 | a firing timer enters `startExecution`, which drops the entry |
| WaitTracker.WaitTracker.StopTrackingAll | packages/cli/src/wait-tracker.ts:138-148 | a stepdown clears the timers and keeps the entries |
| WaitTracker.PollArms | packages/cli/src/wait-tracker.ts:71-82 | an untracked id gets one timer, due at the time of its first answer; a tracked id keeps its timer |
| WaitTracker.TrackedIff | packages/cli/src/wait-tracker.ts:71-148 | tracked ids and live timers stop corresponding exactly at a direct start of a tracked id or a stepdown with tracked ids |
| WaitTracker.OneTimerPerTrackedExecution | packages/cli/src/wait-tracker.ts:55-95 | within one term the tracked ids are exactly those with a live timer, one each |
| WaitTracker.StopUntracks | packages/cli/src/wait-tracker.ts:77-95 | a stop, and a timer that fires, leave the id untracked and without a live timer, and touch no other id |
| WaitTracker.StoppedIsArmedAgain | packages/cli/src/wait-tracker.ts:71-91 | a poll that finds a stopped id arms it afresh |
| WaitTracker.ResumeForgets | packages/cli/src/wait-tracker.ts:93-95 | a direct start forgets the id and leaves every timer alone |
| WaitTracker.StepdownAbandons | packages/cli/src/wait-tracker.ts:138-148 | what was tracked at a stepdown never gets a timer again until it is stopped or started |
| WorkflowBacktracking.PreviousTaskData | packages/nodes-base/utils/workflow-backtracking.ts:24-42 | the task its first source names, if one is recorded there |
| WorkflowBacktracking.SourceSelects | packages/nodes-base/utils/workflow-backtracking.ts:28-41 | the first source selects the run it names, run 0 when it names none, and nothing when that is not recorded |
| WorkflowBacktracking.StartsBeforeLastRun | packages/nodes-base/utils/workflow-backtracking.ts:52-79 | the walk starts from the task that the last run of the node executed last names |
| WorkflowBacktracking.PairingSelects | packages/nodes-base/utils/workflow-backtracking.ts:91-107 | what each kind of pairing selects in a task: its own item and output, each with its fallback, and nothing where there is no such item |
| WorkflowBacktracking.FindPairedItemThroughWorkflowData | packages/nodes-base/utils/workflow-backtracking.ts:44-114 | whenever the walk ends, the loop turns once per task of the trail, at most as often as tasks are recorded, and returns the pairing followed along the trail |
| WorkflowBacktracking.TrailEndsAtFirst | packages/nodes-base/utils/workflow-backtracking.ts:82-110 | the trail links each task to its source and ends at a task without one |
| WorkflowBacktracking.EndsIff | packages/nodes-base/utils/workflow-backtracking.ts:86-110 | the loop ends if and only if the sources do not lead into a cycle |
| WorkflowBacktracking.SelfSourceNeverEnds | packages/nodes-base/utils/workflow-backtracking.ts:24-42 | the least cycle: a task whose source names the task itself |
| WorkflowBacktracking.CycleForever | packages/nodes-base/utils/workflow-backtracking.ts:86-110 | from a task on a cycle every number of steps back leads to another task |
| WorkflowBacktracking.EndsInTime | packages/nodes-base/utils/workflow-backtracking.ts:86-110 | a walk that ends at all is over after as many steps as there are recorded tasks |
| WorkflowBacktracking.AllWalksEndIff | packages/nodes-base/utils/workflow-backtracking.ts:24-42 | every walk ends if and only if some rank of the tasks falls along every source |
| WorkflowBacktracking.EarlierSourcesEnd | packages/nodes-base/utils/workflow-backtracking.ts:24-42 | the execution index is such a rank when every source was executed before its task |
| WorkflowBacktracking.TrailBounded | packages/nodes-base/utils/workflow-backtracking.ts:86-110 | no walk that ends visits more tasks than are recorded |
| WorkflowBacktracking.TrailDistinct | packages/nodes-base/utils/workflow-backtracking.ts:86-110 | no walk that ends visits a task twice |
| WorkflowBacktracking.LinearRunComposes | packages/nodes-base/utils/workflow-backtracking.ts:86-113 | on a linear run with in-range numeric pairings the walk is the composition of the per-node pairing maps |
| WorkflowBacktracking.ObjectRunComposes | packages/nodes-base/utils/workflow-backtracking.ts:86-113 | with pairing objects, over any choice of outputs, the walk is the composition of the pairing maps as well |
| Shuffle.ShuffleArray | packages/nodes-base/utils/utilities.ts:59-64 | the in-place loop yields a permutation, the one its draws determine |
| Shuffle.ArrangementTellsDraws | packages/nodes-base/utils/utilities.ts:59-64 | on distinct elements equal arrangements come from equal draws |
| Shuffle.EachArrangementOnce | packages/nodes-base/utils/utilities.ts:55-64 | on distinct elements every arrangement comes from exactly one sequence of in-range draws |
| Flatten.FlattenObject | packages/nodes-base/utils/utilities.ts:346-366 | the two nested loops leave the map `FlattenedObject`, which `ObjectEntry` characterises |
| Flatten.KeysHoldLeaves | packages/nodes-base/utils/utilities.ts:71-79 | below any prefix, `flattenKeys` holds each leaf that is no Date under its dotted path and nothing else |
| Flatten.ObjectHoldsKept | packages/nodes-base/utils/utilities.ts:346-366 | `flattenObject` holds each leaf it keeps under its dotted path and nothing else |
| Flatten.KeysEntry | packages/nodes-base/utils/utilities.ts:71-79 | the entry of a leaf in `flattenKeys`, with its value, and none for a Date |
| Flatten.ObjectEntry | packages/nodes-base/utils/utilities.ts:346-366 | the entry of a leaf in `flattenObject`: a Date in print, `undefined` only at the top level |
| Flatten.JoinInjective | packages/nodes-base/utils/utilities.ts:71-79 | without dots in keys, different paths have different dotted names |
| Flatten.KeysByPosition | packages/nodes-base/utils/utilities.ts:71-79 | for any keys other than `length`, dotted and repeated names included, `flattenKeys` holds under a name its last scalar, and `undefined` if it has none but an `undefined` |
| Flatten.ObjectByPosition | packages/nodes-base/utils/utilities.ts:346-366 | for any keys, `flattenObject` holds under a name the last leaf that no later `undefined` of that name in the same object erases, and a top-level `undefined` if there is none |
| Flatten.FlatteningsAgreeIff | packages/nodes-base/utils/utilities.ts:71-79 | for any keys other than `length`, the two are one map if and only if, for every name, the last scalar prints as the last leaf not erased, either both are there or neither, and in the latter case an `undefined` is on the top level if it is anywhere |
| Flatten.ScalarsAgree | packages/nodes-base/utils/utilities.ts:71-79 | so they differ at most under names that a Date or an `undefined` has |
| Flatten.AllScalarsAgree | packages/nodes-base/utils/utilities.ts:71-79 | and on scalars alone they agree, dots or not |
| Flatten.PlainFlatteningsAgreeIff | packages/nodes-base/utils/utilities.ts:71-79 | without dots in keys, they are one map if and only if no leaf is a Date and none below the top level is `undefined` |
| Flatten.UndefinedErases | packages/nodes-base/utils/utilities.ts:346-366 | the least example with a dotted key: a top-level `undefined` erases the scalar of its name in `flattenObject` only |

## Left out

- Databases, pubsub transport, push messages, HTTP responses, logging and telemetry: state that steps update, or nothing.
- Encryption and serialisation of stored overwrites: identity.
- The two sources of `extends` (`getByName` and the known credentials) are one registry, so a type known to only one of them is not modelled.
- What the eager pass stores for types with several parents: the exact condition for the stored entries is for at most one parent per type.
- The `evaluation` queue, which behaves like the modelled `production` queue, and queue mode, in which `add` releases without throttling.
- Failing database calls inside `add` of an execution, which would keep the slot, and streaming of responses.
- ExecutionShutdown.ShutdownAll: without `cancelAll` the wait depends on executions that end by themselves; only the cancel pass is modelled for it.
- Webhook registration, activation errors, trigger counts and static data around an activation.
- ActivationProtocol.ActiveWorkflowManager.Remove: the retry queue that a single main also clears of the workflow is modelled apart, in `ActivationQueue`.
- The leader key with its time to live, and the interval of the leader check: takeovers and stepdowns are steps that may come in any order.
- The hash that makes the key of a connection pool: keys are taken as given.
- Timers fire on time in the idle bound of the pool cache, as an interval of one minute.
- Caches keyed by names that objects inherit, such as `constructor`: plain maps.
- Parent resumption in `WaitTracker` beyond the direct start that it makes.
- Objects with a `length` key in `flattenKeys`, which lodash treats as arrays.
- Precedence of variables, credential declarations, tables of constants, server wiring and one-step helpers: they would add easy members only.
