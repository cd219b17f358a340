/** Operations (fibers), the scheduler that creates and posts them, and the condition variable
    that suspends and re-posts one of them (include/ctx/impl/operation.h,
    include/ctx/impl/scheduler.h, include/ctx/scheduler.h,
    include/ctx/impl/condition_variable.h). The three refer to one another, so they share one
    module. Each locked section is one method; the context switch into and out of a fiber is
    an abstract step between `Operation.Resume` and `Operation.ResumeAfterSwitch`. */
module Fibers {
  import opened Wrappers
  import opened OpIds
  import opened StackManagement

  /** The kinds of lifecycle event reported to the payload's `transition` hook. */
  datatype Transition = Activate | Deactivate | Enqueue | Resume | Suspend | Fin

  /** One call `data.transition(kind, self_id, related_id)`. */
  datatype HookCall = HookCall(kind: Transition, self: OpId, related: OpId)

  /** The operation's `Data`: a pointer (possibly null) to an object with a `transition`
      member, or such an object held by value. */
  datatype Payload = Pointer(address: Address) | ByValue

  /** `is_null`: a pointer is null when it is `nullptr`; data held by value never is. */
  predicate IsNull(d: Payload): (r: bool)
    ensures d == ByValue ==> !r
    ensures d.Pointer? ==> (r <==> d.address == Null)
  {
    d.Pointer? && d.address == Null
  }

  /** `op_type_t`: the two dispatch lanes, the reactor (`IO`) and the work stack (`WORK`). */
  datatype Lane = Io | Work

  /** The `std::function<void()>` an operation runs. A user callable is an opaque token; the
      wrappers that the schedulers build around one are spelled out. */
  datatype Body =
    | UserFn(fn: nat)
    | ReadGuarded(inner: Body)   // runs `inner` inside a `read` guard
    | WriteGuarded(inner: Body)  // runs `inner` inside a `write` guard
    | SetsFuture(fn: nat)        // the wrapper `post`/`post_void` build: sets a future

  /** A task handed to a lane: when run, it resumes `op`. */
  datatype Posted = Posted(lane: Lane, op: Operation)

  /** The ids a scheduler whose counter stands at `n` hands out in its next `k` requests. */
  function IdsFrom(n: nat, k: nat): seq<nat>
    requires n < UintModulus
    decreases k
  {
    if k == 0 then [] else [Successor(n)] + IdsFrom(Successor(n), k - 1)
  }

  /** Until the counter wraps, the ids handed out are `n + 1, n + 2, ...`; from a fresh
      scheduler (`n == 0`) they are 1, 2, 3, ... and so strictly increasing. */
  lemma {:induction false} IdsFromCount(n: nat, k: nat)
    requires n + k < UintModulus
    ensures |IdsFrom(n, k)| == k
    ensures forall i :: 0 <= i < k ==> IdsFrom(n, k)[i] == n + 1 + i
    decreases k
  {
    if k > 0 {
      IdsFromCount(n + 1, k - 1);
    }
  }

  class Scheduler {
    /** `next_id_`: the last sequence index handed out. */
    var nextId: nat
    /** Every task posted to the lanes, oldest first (the reactor queue and the work stack
        themselves belong to the runner). */
    var posted: seq<Posted>
    /** `stack_manager_`. */
    const stacks: StackManager

    ghost predicate Valid()
      reads this, stacks, stacks.list
    {
      nextId < UintModulus && stacks.Valid()
    }

    /** `scheduler()`: the counter starts at 0 and nothing is posted. The scheduler is not
        copyable, so one counter is never shared between two schedulers. */
    constructor ()
      ensures Valid() && nextId == 0 && posted == []
      ensures fresh(stacks) && fresh(stacks.list) && stacks.list.Blocks == []
    {
      nextId := 0;
      posted := [];
      stacks := new StackManager();
    }

    /** `next_op_id`: advances the counter and returns its new value. */
    method NextOpId() returns (r: nat)
      requires Valid()
      modifies this
      ensures Valid() && posted == old(posted)
      ensures r == Successor(old(nextId)) && nextId == r
    {
      nextId := Successor(nextId);
      r := nextId;
    }

    /** `enqueue_io(op)` / `enqueue_work(op)`: posts a task whose only effect is
        `op->resume()` on the given lane. */
    method EnqueueOn(lane: Lane, op: Operation)
      modifies this
      ensures posted == old(posted) + [Posted(lane, op)] && nextId == old(nextId)
    {
      posted := posted + [Posted(lane, op)];
    }

    /** `enqueue(op)` (impl/scheduler.h): `ios_.post([op]() { op->resume(); })`, the reactor
        lane. */
    method Enqueue(op: Operation)
      modifies this
      ensures posted == old(posted) + [Posted(Io, op)] && nextId == old(nextId)
    {
      EnqueueOn(Io, op);
    }

    /** `enqueue(data, fn, id)`: stamps the id with the next sequence index, creates the
        operation and posts it. The reactor lane is what impl/scheduler.h uses; the lane
        parameter also covers the declared `enqueue_io`/`enqueue_work` overloads. */
    method EnqueueNew(data: Payload, body: Body, id: OpId, lane: Lane) returns (op: Operation)
      requires Valid()
      modifies this
      ensures Valid() && fresh(op)
      ensures nextId == Successor(old(nextId))
      ensures op.id == id.(index := nextId) && op.data == data && op.body == body && op.sched == this
      ensures op.Valid() && op.Unstarted()
      ensures posted == old(posted) + [Posted(lane, op)]
    {
      var index := NextOpId();
      op := new Operation(data, body, this, id.(index := index));
      EnqueueOn(lane, op);
    }
  }

  class Operation {
    const data: Payload
    const body: Body
    const sched: Scheduler
    const id: OpId
    var running: bool
    var reschedule: bool
    var finished: bool
    /** `stack_`: null until the first resume allocates it. */
    var stack: StackHandle
    /** Every call made so far to the payload's `transition` hook. */
    var hookCalls: seq<HookCall>
    /** Whether the last `suspend` kept a strong reference to the operation. */
    var holdsSelf: bool
    /** Whether `fn_` has run (in `start`). */
    var bodyRan: bool
    /** Whether the last owner has released the operation (its destructor has run). */
    var destroyed: bool

    ghost predicate Valid()
      reads this, sched, sched.stacks, sched.stacks.list
    {
      WellFormed(stack) && sched.Valid() && (finished ==> !running)
    }

    /** The state of an operation nobody has resumed yet. */
    ghost predicate Unstarted()
      reads this
    {
      !running && !reschedule && !finished && stack == NullHandle() && hookCalls == []
      && !holdsSelf && !bodyRan && !destroyed
    }

    /** `operation(data, fn, sched, id)`: all three flags false, no stack yet. */
    constructor (data: Payload, body: Body, sched: Scheduler, id: OpId)
      requires sched.Valid()
      ensures this.data == data && this.body == body && this.sched == sched && this.id == id
      ensures Valid() && Unstarted()
    {
      this.data := data;
      this.body := body;
      this.sched := sched;
      this.id := id;
      running, reschedule, finished := false, false, false;
      stack := NullHandle();
      hookCalls := [];
      holdsSelf, bodyRan, destroyed := false, false, false;
    }

    /** What `on_transition(t, callee)` tells the hook: nothing when the payload is a null
        pointer, otherwise one call naming this operation. A call with the kind alone passes a
        default `op_id` as the callee. */
    function Hook(t: Transition, callee: OpId): (calls: seq<HookCall>)
      ensures |calls| <= 1
      ensures calls == [] <==> IsNull(data)
      ensures calls != [] ==> calls[0].kind == t && calls[0].self == id && calls[0].related == callee
    {
      if IsNull(data) then [] else [HookCall(t, id, callee)]
    }

    /** `on_transition`. */
    method OnTransition(t: Transition, callee: OpId)
      modifies this
      ensures hookCalls == old(hookCalls) + Hook(t, callee)
      ensures running == old(running) && reschedule == old(reschedule) && finished == old(finished)
      ensures stack == old(stack) && holdsSelf == old(holdsSelf) && bodyRan == old(bodyRan)
      ensures destroyed == old(destroyed)
    {
      hookCalls := hookCalls + Hook(t, callee);
    }

    /** `resume` up to the switch into the fiber (impl/operation.h:103-124). A finished
        operation is left alone; one that is running on another worker only gets `reschedule_`
        set, so the fiber is never entered twice; otherwise the operation is marked running,
        gets its stack on the first resume only (`init`, whose `bad_alloc` escapes with
        `running_` still set) and reports ACTIVATE. `Ok(true)` means control now passes into
        the fiber. */
    method Resume(mallocResult: Address) returns (r: Result<bool, AllocError>)
      requires Valid() && mallocResult !in sched.stacks.list.Blocks
      modifies this, sched.stacks.list
      ensures Valid()
      ensures old(finished) ==> r == Ok(false) && unchanged(this) && unchanged(sched.stacks.list)
      ensures !old(finished) && old(running) ==>
        r == Ok(false) && reschedule && running && finished == old(finished)
        && stack == old(stack) && hookCalls == old(hookCalls) && unchanged(sched.stacks.list)
      ensures !old(finished) && !old(running) ==>
        running && reschedule == old(reschedule) && !finished
      ensures !old(finished) && !old(running) && GetStack(old(stack)) != Null ==>
        r == Ok(true) && stack == old(stack) && unchanged(sched.stacks.list)
        && hookCalls == old(hookCalls) + Hook(Activate, Default())
      ensures !old(finished) && !old(running) && GetStack(old(stack)) == Null ==>
        (if old(sched.stacks.list.Blocks) != [] || mallocResult != Null
         then r == Ok(true) && GetStack(stack) != Null
              && hookCalls == old(hookCalls) + Hook(Activate, Default())
         else r == Err(BadAlloc) && stack == old(stack) && hookCalls == old(hookCalls))
      ensures !old(finished) && !old(running) && GetStack(old(stack)) == Null
              && old(sched.stacks.list.Blocks) != [] ==>
        stack == FromAllocatedMem(old(sched.stacks.list.Blocks)[0])
        && sched.stacks.list.Blocks == old(sched.stacks.list.Blocks)[1..]
      ensures !old(finished) && !old(running) && GetStack(old(stack)) == Null
              && old(sched.stacks.list.Blocks) == [] ==>
        unchanged(sched.stacks.list) && (mallocResult != Null ==> stack == FromAllocatedMem(mallocResult))
      ensures holdsSelf == old(holdsSelf) && bodyRan == old(bodyRan) && destroyed == old(destroyed)
    {
      if finished {
        return Ok(false);
      }
      if running {
        reschedule := true;
        return Ok(false);
      }
      running := true;
      if GetStack(stack) == Null {
        var s := Init(mallocResult);
        if s.Err? {
          return Err(s.error);
        }
      }
      OnTransition(Activate, Default());
      r := Ok(true);
    }

    /** `init`: takes a stack from the manager (building the fiber context on it is outside
        the model). */
    method Init(mallocResult: Address) returns (r: Result<StackHandle, AllocError>)
      requires Valid() && mallocResult !in sched.stacks.list.Blocks
      modifies this`stack, sched.stacks.list
      ensures Valid()
      ensures old(sched.stacks.list.Blocks) != [] ==>
        r == Ok(FromAllocatedMem(old(sched.stacks.list.Blocks)[0]))
        && sched.stacks.list.Blocks == old(sched.stacks.list.Blocks)[1..]
      ensures old(sched.stacks.list.Blocks) == [] ==> unchanged(sched.stacks.list)
      ensures old(sched.stacks.list.Blocks) == [] && mallocResult != Null ==>
        r == Ok(FromAllocatedMem(mallocResult))
      ensures old(sched.stacks.list.Blocks) == [] && mallocResult == Null ==> r == Err(BadAlloc)
      ensures r.Ok? ==> stack == r.value && GetStack(stack) != Null
      ensures r.Err? ==> stack == old(stack)
    {
      r := sched.stacks.Alloc(mallocResult);
      if r.Ok? {
        stack := r.value;
      }
    }

    /** `resume` after the fiber switched back (impl/operation.h:125-136); `switchResult` is
        what the fiber passed to the switch (true when its body has finished). A reschedule
        requested meanwhile re-posts the operation exactly once and is cleared. */
    method ResumeAfterSwitch(switchResult: bool)
      requires Valid() && running
      modifies this, sched
      ensures Valid()
      ensures finished == switchResult && !running && !reschedule
      ensures sched.posted == old(sched.posted) + (if old(reschedule) then [Posted(Io, this)] else [])
      ensures sched.nextId == old(sched.nextId)
      ensures stack == old(stack) && hookCalls == old(hookCalls) && holdsSelf == old(holdsSelf)
      ensures bodyRan == old(bodyRan) && destroyed == old(destroyed)
    {
      if reschedule {
        sched.Enqueue(this);
        reschedule := false;
      }
      finished := switchResult;
      running := false;
    }

    /** `suspend(finished)`, from inside the fiber: reports FIN or DEACTIVATE and keeps a
        strong self-reference across the switch only when the fiber will be resumed again. */
    method Suspend(finishing: bool)
      modifies this
      ensures hookCalls == old(hookCalls) + Hook(if finishing then Fin else Deactivate, Default())
      ensures holdsSelf == !finishing
      ensures running == old(running) && reschedule == old(reschedule) && finished == old(finished)
      ensures stack == old(stack) && bodyRan == old(bodyRan) && destroyed == old(destroyed)
    {
      OnTransition(if finishing then Fin else Deactivate, Default());
      holdsSelf := !finishing;
    }

    /** `start`, the fiber's entry point: runs `fn_`, then `suspend(true)`. */
    method Start()
      modifies this
      ensures bodyRan && !holdsSelf
      ensures hookCalls == old(hookCalls) + Hook(Fin, Default())
      ensures running == old(running) && reschedule == old(reschedule) && finished == old(finished)
      ensures stack == old(stack) && destroyed == old(destroyed)
    {
      bodyRan := true;
      Suspend(true);
    }

    /** `~operation`, corrected: the stack goes back to the manager when there is one. As
        written the destructor also hands a null block to `node::push`; see
        `DestructorAsWritten`. */
    method Destroy()
      requires Valid() && !destroyed
      requires GetAllocatedMem(stack) != Null ==> GetAllocatedMem(stack) !in sched.stacks.list.Blocks
      modifies this, sched.stacks.list
      ensures Valid() && destroyed
      ensures GetAllocatedMem(old(stack)) != Null ==>
        sched.stacks.list.Blocks == [GetAllocatedMem(old(stack))] + old(sched.stacks.list.Blocks)
      ensures GetAllocatedMem(old(stack)) == Null ==> unchanged(sched.stacks.list)
      ensures running == old(running) && finished == old(finished) && hookCalls == old(hookCalls)
    {
      if GetAllocatedMem(stack) != Null {
        sched.stacks.Dealloc(stack);
      }
      destroyed := true;
    }
  }

  /** An access through a null pointer, which the source commits in the case below. */
  datatype Fault = NullDereference

  /** `~operation` as written: it always calls `dealloc(stack_)`, which pushes
      `get_allocated_mem()` on the free list; `node::push` stores the old head in the first
      word of that block, so a null block is a write through `nullptr`. */
  function DestructorAsWritten(stack: StackHandle, blocks: seq<Address>): (r: Result<seq<Address>, Fault>)
    requires WellFormed(stack)
    ensures r.Err? <==> GetStack(stack) == Null
    ensures r.Ok? ==> r.value == [GetAllocatedMem(stack)] + blocks
  {
    var p := GetAllocatedMem(stack);
    if p == Null then Err(NullDereference) else Ok([p] + blocks)
  }

  /** The discrepancy: an operation that is destroyed before its first resume (for example a
      task still queued when the reactor is torn down) holds the null stack handle its
      constructor gave it, and the destructor as written then dereferences null. */
  method UnresumedOperationDestructorFaults(data: Payload, body: Body, sched: Scheduler, id: OpId,
                                            blocks: seq<Address>)
    returns (outcome: Result<seq<Address>, Fault>)
    requires sched.Valid()
    ensures outcome == Err(NullDereference)
  {
    var op := new Operation(data, body, sched, id);
    outcome := DestructorAsWritten(op.stack, blocks);
  }

  /** The number of steps until `pred()` first holds, given its successive values. */
  function FirstTrue(evaluations: seq<bool>): (k: nat)
    requires true in evaluations
    ensures k < |evaluations| && evaluations[k]
    ensures forall j :: 0 <= j < k ==> !evaluations[j]
  {
    if evaluations[0] then 0 else 1 + FirstTrue(evaluations[1..])
  }

  /** `n` copies of `calls`, one after another. */
  function Repeat(calls: seq<HookCall>, n: nat): seq<HookCall> {
    if n == 0 then [] else Repeat(calls, n - 1) + calls
  }

  /** `condition_variable`: a non-owning reference to one operation. */
  class ConditionVariable {
    /** `caller_`, a weak pointer: null when no operation was running at construction. */
    const caller: Operation?

    /** `condition_variable()` with `get_caller`: binds to the operation running now (the
        thread-local `this_op`, passed explicitly), or to nothing. */
    constructor (current: Operation?)
      ensures caller == current
    {
      caller := current;
    }

    /** `caller_.lock()` fails: no operation was bound, or it has been destroyed. */
    predicate Expired()
      reads caller
    {
      caller == null || caller.destroyed
    }

    /** `wait()`: the bound operation must still be alive (the source asserts it) and is
        suspended with `finished == false`. */
    method Wait()
      requires !Expired()
      modifies caller
      ensures caller.hookCalls == old(caller.hookCalls) + caller.Hook(Deactivate, Default())
      ensures caller.holdsSelf && caller.destroyed == old(caller.destroyed)
      ensures caller.running == old(caller.running) && caller.finished == old(caller.finished)
    {
      caller.Suspend(false);
    }

    /** `wait(pred)`: `evaluations` are the successive values of `pred()`, one per wake-up,
        and the predicate eventually holds. The operation is suspended once for each false
        value before the first true one, and never when the first value is already true. */
    method WaitUntil(evaluations: seq<bool>) returns (suspensions: nat)
      requires true in evaluations
      requires !evaluations[0] ==> !Expired()
      modifies caller
      ensures suspensions == FirstTrue(evaluations)
      ensures evaluations[0] ==> suspensions == 0 && (caller != null ==> unchanged(caller))
      ensures caller != null ==>
        caller.hookCalls == old(caller.hookCalls) + Repeat(caller.Hook(Deactivate, Default()), suspensions)
    {
      suspensions := 0;
      while !evaluations[suspensions]
        invariant suspensions <= FirstTrue(evaluations)
        invariant FirstTrue(evaluations) > 0 ==> !Expired()
        invariant caller != null ==>
          caller.hookCalls == old(caller.hookCalls) + Repeat(caller.Hook(Deactivate, Default()), suspensions)
        invariant suspensions == 0 && caller != null ==> unchanged(caller)
        decreases FirstTrue(evaluations) - suspensions
      {
        Wait();
        suspensions := suspensions + 1;
      }
    }

    /** `notify`: re-posts the bound operation on the work lane when it is still alive, and
        does nothing once it has expired. */
    method Notify()
      modifies if caller == null then {} else {caller.sched}
      ensures !Expired() ==> caller.sched.posted == old(caller.sched.posted) + [Posted(Work, caller)]
      ensures caller != null ==> caller.sched.nextId == old(caller.sched.nextId)
      ensures Expired() && caller != null ==> unchanged(caller.sched)
    {
      if caller != null && !caller.destroyed {
        caller.sched.EnqueueOn(Work, caller);
      }
    }
  }
}
