/** `access_scheduler` (include/ctx/access_scheduler.h): a scheduler that also guards one
    shared resource with a reader count, a writer flag and two FIFO wait queues. Each method
    is one critical section. A start that is refused queues the calling operation and
    suspends it; once woken it calls the same start again, which is the source's `goto`. */
module AccessScheduling {
  import opened Wrappers
  import opened OpIds
  import opened Admission
  import opened Fibers

  /** `access_t`. */
  datatype Access = NoAccess | ReadAccess | WriteAccess

  /** `queue_entry`: a suspended operation and the lane it is to be resumed on. */
  datatype QueueEntry = QueueEntry(lane: Lane, op: Operation)

  /** What `unqueue` posts for a woken entry: a resume on the lane it recorded. */
  function Wake(e: QueueEntry): (p: Posted)
    ensures p.op == e.op && p.lane == e.lane
  {
    Posted(e.lane, e.op)
  }

  /** The guard `enqueue` wraps around a task, as written: a READ task gets a `write` guard
      and a WRITE task a `read` guard. */
  function GuardAsWritten(access: Access): (g: Option<Guard>)
    ensures g.None? <==> access == NoAccess
  {
    match access
    case NoAccess => None
    case ReadAccess => Some(WriteGuard)
    case WriteAccess => Some(ReadGuard)
  }

  /** The evidently intended mapping, which `enqueue_read_*`/`enqueue_write_*` here and the
      controller of example/locking.cc use: READ under a `read` guard, WRITE under a `write`
      guard. */
  function IntendedGuard(access: Access): (g: Option<Guard>)
    ensures g.None? <==> access == NoAccess
  {
    match access
    case NoAccess => None
    case ReadAccess => Some(ReadGuard)
    case WriteAccess => Some(WriteGuard)
  }

  /** The body of a task run under an optional guard. */
  function Guarded(guard: Option<Guard>, fn: Body): (b: Body)
    ensures guard == None ==> b == fn
    ensures guard == Some(ReadGuard) ==> b == ReadGuarded(fn)
    ensures guard == Some(WriteGuard) ==> b == WriteGuarded(fn)
  {
    match guard
    case None => fn
    case Some(ReadGuard) => ReadGuarded(fn)
    case Some(WriteGuard) => WriteGuarded(fn)
  }

  /** As written, two WRITE tasks on a free resource are both admitted: each enters through a
      `read` guard, so they modify the resource at the same time. */
  lemma WriteTasksShareTheResourceAsWritten()
    ensures var guard := GuardAsWritten(WriteAccess).value;
      Run(Free, multiset{}, [Start(guard), Start(guard)])
        == Some((Gate(2, false), multiset{guard, guard}))
  {
    var guard := GuardAsWritten(WriteAccess).value;
    assert guard == ReadGuard;
    assert Enter(Free, guard) == Some(Gate(1, false));
    assert Enter(Gate(1, false), guard) == Some(Gate(2, false));
    assert multiset{} + multiset{guard} == multiset{guard};
    assert multiset{guard} + multiset{guard} == multiset{guard, guard};
    assert Step(Free, multiset{}, Start(guard)) == Some((Gate(1, false), multiset{guard}));
    assert Step(Gate(1, false), multiset{guard}, Start(guard))
      == Some((Gate(2, false), multiset{guard, guard}));
    assert [Start(guard), Start(guard)][1..] == [Start(guard)];
    assert [Start(guard)][1..] == [];
    assert Run(Gate(2, false), multiset{guard, guard}, []) == Some((Gate(2, false), multiset{guard, guard}));
  }

  /** With the intended mapping, while a WRITE task is inside no other READ or WRITE task is
      admitted, whatever has happened before. */
  lemma IntendedWriteTaskIsAlone(g: Gate, held: multiset<Guard>, other: Access)
    requires Accounts(g, held) && IntendedGuard(WriteAccess).value in held
    requires other != NoAccess
    ensures Enter(g, IntendedGuard(other).value) == None
  {
  }

  class AccessScheduler {
    /** The scheduler that `access_scheduler` derives from. */
    const sched: Scheduler
    var writeQueue: seq<QueueEntry>
    var readQueue: seq<QueueEntry>
    var readCount: nat
    var writeActive: bool

    function State(): Gate
      reads this
    {
      Gate(readCount, writeActive)
    }

    ghost predicate Valid()
      reads this, sched, sched.stacks, sched.stacks.list
    {
      sched.Valid() && Exclusive(State())
    }

    /** Count 0, no writer, both queues empty. */
    constructor ()
      ensures Valid() && State() == Free && writeQueue == [] && readQueue == []
      ensures fresh(sched) && sched.nextId == 0 && sched.posted == []
    {
      sched := new Scheduler();
      writeQueue, readQueue := [], [];
      readCount, writeActive := 0, false;
    }

    /** One pass of `start_read` for `current`, wanting to be resumed on `lane`: admitted
        when no writer is active; otherwise queued on `read_queue_` and suspended. */
    method StartRead(lane: Lane, current: Operation) returns (admitted: bool)
      requires Valid()
      modifies this, current
      ensures Valid() && writeQueue == old(writeQueue)
      ensures admitted <==> Admits(old(State()), ReadGuard)
      ensures admitted ==>
        Some(State()) == Enter(old(State()), ReadGuard) && readQueue == old(readQueue)
        && unchanged(current)
      ensures !admitted ==>
        State() == old(State()) && readQueue == old(readQueue) + [QueueEntry(lane, current)]
        && current.hookCalls == old(current.hookCalls) + current.Hook(Deactivate, Default())
        && current.holdsSelf
    {
      if !Admits(State(), ReadGuard) {
        readQueue := readQueue + [QueueEntry(lane, current)];
        current.Suspend(false);
        return false;
      }
      readCount := readCount + 1;
      admitted := true;
    }

    /** One pass of `start_write`: admitted when there is neither a writer nor a reader;
        otherwise queued and suspended. The blocked writer goes onto `read_queue_`, like a
        reader, so nothing is ever added to `write_queue_`. */
    method StartWrite(lane: Lane, current: Operation) returns (admitted: bool)
      requires Valid()
      modifies this, current
      ensures Valid() && writeQueue == old(writeQueue)
      ensures admitted <==> Admits(old(State()), WriteGuard)
      ensures admitted ==>
        Some(State()) == Enter(old(State()), WriteGuard) && readQueue == old(readQueue)
        && unchanged(current)
      ensures !admitted ==>
        State() == old(State()) && readQueue == old(readQueue) + [QueueEntry(lane, current)]
        && current.hookCalls == old(current.hookCalls) + current.Hook(Deactivate, Default())
        && current.holdsSelf
    {
      if !Admits(State(), WriteGuard) {
        readQueue := readQueue + [QueueEntry(lane, current)];
        current.Suspend(false);
        return false;
      }
      writeActive := true;
      admitted := true;
    }

    /** `end_read`: one reader fewer; the head of `write_queue_` is woken if that was the last
        reader, otherwise the head of `read_queue_` if there is one. */
    method EndRead()
      requires Valid() && readCount > 0
      modifies this, sched
      ensures Valid() && State() == Leave(old(State()), ReadGuard)
      ensures sched.nextId == old(sched.nextId)
      ensures readCount == 0 && old(writeQueue) != [] ==>
        writeQueue == old(writeQueue)[1..] && readQueue == old(readQueue)
        && sched.posted == old(sched.posted) + [Wake(old(writeQueue)[0])]
      ensures !(readCount == 0 && old(writeQueue) != []) && old(readQueue) != [] ==>
        readQueue == old(readQueue)[1..] && writeQueue == old(writeQueue)
        && sched.posted == old(sched.posted) + [Wake(old(readQueue)[0])]
      ensures !(readCount == 0 && old(writeQueue) != []) && old(readQueue) == [] ==>
        readQueue == [] && writeQueue == old(writeQueue) && sched.posted == old(sched.posted)
    {
      readCount := readCount - 1;
      if readCount == 0 && writeQueue != [] {
        Unqueue(true);
      } else if readQueue != [] {
        Unqueue(false);
      }
    }

    /** `end_write`: clears the flag and wakes one entry, `write_queue_` first. */
    method EndWrite()
      requires Valid()
      modifies this, sched
      ensures Valid() && State() == Leave(old(State()), WriteGuard)
      ensures sched.nextId == old(sched.nextId)
      ensures old(writeQueue) != [] ==>
        writeQueue == old(writeQueue)[1..] && readQueue == old(readQueue)
        && sched.posted == old(sched.posted) + [Wake(old(writeQueue)[0])]
      ensures old(writeQueue) == [] && old(readQueue) != [] ==>
        readQueue == old(readQueue)[1..] && writeQueue == []
        && sched.posted == old(sched.posted) + [Wake(old(readQueue)[0])]
      ensures old(writeQueue) == [] && old(readQueue) == [] ==>
        readQueue == [] && writeQueue == [] && sched.posted == old(sched.posted)
    {
      writeActive := false;
      if writeQueue != [] {
        Unqueue(true);
      } else if readQueue != [] {
        Unqueue(false);
      }
    }

    /** `unqueue(queue)`, with `fromWriters` choosing `write_queue_`: re-posts the front entry
        on its recorded lane and erases exactly that entry, keeping the rest in order. */
    method Unqueue(fromWriters: bool)
      requires Valid()
      requires if fromWriters then writeQueue != [] else readQueue != []
      modifies this, sched
      ensures Valid() && State() == old(State()) && sched.nextId == old(sched.nextId)
      ensures fromWriters ==>
        writeQueue == old(writeQueue)[1..] && readQueue == old(readQueue)
        && sched.posted == old(sched.posted) + [Wake(old(writeQueue)[0])]
      ensures !fromWriters ==>
        readQueue == old(readQueue)[1..] && writeQueue == old(writeQueue)
        && sched.posted == old(sched.posted) + [Wake(old(readQueue)[0])]
    {
      var entry := if fromWriters then writeQueue[0] else readQueue[0];
      sched.EnqueueOn(entry.lane, entry.op);
      if fromWriters {
        writeQueue := writeQueue[1..];
      } else {
        readQueue := readQueue[1..];
      }
    }

    /** `enqueue(d, fn, id, op_type, access)`: posts a new operation on the chosen lane, its
        task being `fn` under the guard `GuardAsWritten(access)` (unguarded for NONE). */
    method Enqueue(data: Payload, fn: nat, id: OpId, lane: Lane, access: Access) returns (op: Operation)
      requires Valid()
      modifies sched
      ensures Valid() && fresh(op) && op.Valid() && op.Unstarted()
      ensures op.body == Guarded(GuardAsWritten(access), UserFn(fn)) && op.data == data
      ensures access != NoAccess ==> op.body != Guarded(IntendedGuard(access), UserFn(fn))
      ensures op.id == id.(index := sched.nextId) && sched.nextId == Successor(old(sched.nextId))
      ensures sched.posted == old(sched.posted) + [Posted(lane, op)]
    {
      op := sched.EnqueueNew(data, Guarded(GuardAsWritten(access), UserFn(fn)), id, lane);
    }

    /** `enqueue_read_io`, `enqueue_write_io`, `enqueue_read_work` and `enqueue_write_work`:
        `fn` under a `read` or `write` guard, on the IO or WORK lane. */
    method EnqueueGuarded(data: Payload, fn: nat, id: OpId, lane: Lane, guard: Guard) returns (op: Operation)
      requires Valid()
      modifies sched
      ensures Valid() && fresh(op) && op.Valid() && op.Unstarted()
      ensures op.body == Guarded(Some(guard), UserFn(fn)) && op.data == data
      ensures op.id == id.(index := sched.nextId) && sched.nextId == Successor(old(sched.nextId))
      ensures sched.posted == old(sched.posted) + [Posted(lane, op)]
    {
      op := sched.EnqueueNew(data, Guarded(Some(guard), UserFn(fn)), id, lane);
    }
  }
}
