/**
 * Capacity of one execution queue (packages/cli/src/concurrency/concurrency-queue.ts) behind the enabling switch of
 * packages/cli/src/concurrency/concurrency-control.service.ts. Modes without a limit pass through.
 */
module ConcurrencyControl {
  import opened Wrappers

  type ExecutionId = string

  datatype Control = Control(enabled: bool, capacity: int, queue: seq<ExecutionId>)

  /** Takes a slot; the result tells whether the execution may proceed at once. */
  function Throttled(c: Control, limited: bool, id: ExecutionId): (Control, bool) {
    if !c.enabled || !limited then (c, true)
    else if c.capacity - 1 < 0 then (c.(capacity := c.capacity - 1, queue := c.queue + [id]), false)
    else (c.(capacity := c.capacity - 1), true)
  }

  function NextResolved(c: Control): (Control, Option<ExecutionId>) {
    if c.queue == [] then (c, None) else (c.(queue := c.queue[1..]), Some(c.queue[0]))
  }

  /** Returns a slot; the result is the queued execution that may now proceed. */
  function Released(c: Control, limited: bool): (Control, Option<ExecutionId>) {
    if !c.enabled || !limited then (c, None) else NextResolved(c.(capacity := c.capacity + 1))
  }

  /** The first position of `id`, or the length of the queue. */
  function FindIndex(queue: seq<ExecutionId>, id: ExecutionId): (i: nat)
    ensures i <= |queue| && id !in queue[..i] && (i < |queue| ==> queue[i] == id)
  {
    if queue == [] || queue[0] == id then 0 else 1 + FindIndex(queue[1..], id)
  }

  /** Takes a queued execution out of the queue. */
  function Removed(c: Control, id: ExecutionId): (Control, Option<ExecutionId>) {
    var i := FindIndex(c.queue, id);
    if !c.enabled || i == |c.queue| then (c, None)
    else NextResolved(c.(capacity := c.capacity + 1, queue := c.queue[..i] + c.queue[i + 1..]))
  }

  lemma FindIndexFinds(queue: seq<ExecutionId>, id: ExecutionId)
    ensures id in queue <==> FindIndex(queue, id) < |queue|
  {
    assert queue[..|queue|] == queue;
  }

  lemma RemovedCounts(c: Control, id: ExecutionId)
    requires c.enabled && id in c.queue && |c.queue| > 1
    ensures var after := Removed(c, id).0;
            after.enabled && after.capacity == c.capacity + 1 && |after.queue| == |c.queue| - 2
  {
    FindIndexFinds(c.queue, id);
  }

  class ConcurrencyControlService {
    var isEnabled: bool
    var capacity: int
    var queue: seq<ExecutionId>

    ghost function Value(): Control
      reads this
    {
      Control(isEnabled, capacity, queue)
    }

    constructor (limit: nat)
      ensures Value() == Control(true, limit, [])
    {
      isEnabled, capacity, queue := true, limit, [];
    }

    method Throttle(limited: bool, id: ExecutionId) returns (admitted: bool)
      modifies this
      ensures (Value(), admitted) == Throttled(old(Value()), limited, id)
    {
      if !isEnabled || !limited {
        return true;
      }
      capacity := capacity - 1;
      if capacity < 0 {
        queue := queue + [id];
        return false;
      }
      return true;
    }

    method Release(limited: bool) returns (resolved: Option<ExecutionId>)
      modifies this
      ensures (Value(), resolved) == Released(old(Value()), limited)
    {
      if !isEnabled || !limited {
        return None;
      }
      capacity := capacity + 1;
      resolved := ResolveNext();
    }

    method Remove(id: ExecutionId) returns (resolved: Option<ExecutionId>)
      modifies this
      ensures (Value(), resolved) == Removed(old(Value()), id)
    {
      if !isEnabled {
        return None;
      }
      var index := FindIndex(queue, id);
      if index == |queue| {
        return None;
      }
      queue := queue[..index] + queue[index + 1..];
      capacity := capacity + 1;
      resolved := ResolveNext();
    }

    method ResolveNext() returns (resolved: Option<ExecutionId>)
      modifies this
      ensures (Value(), resolved) == NextResolved(old(Value()))
    {
      if queue == [] {
        return None;
      }
      resolved := Some(queue[0]);
      queue := queue[1..];
    }

    method Disable()
      modifies this
      ensures Value() == old(Value()).(enabled := false)
    {
      isEnabled := false;
    }
  }
}
