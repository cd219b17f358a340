/** The `controller` of example/locking.cc, a stand-alone copy of the reader/writer rule of
    `access_scheduler` whose queues hold bare operations that are always re-posted on the IO
    lane, and the shared vector that the example's write tasks extend. */
module Locking {
  import opened Wrappers
  import opened OpIds
  import opened Admission
  import opened StackManagement
  import opened Fibers
  import opened FibonacciExample

  class Controller {
    const sched: Scheduler
    /** The controller's own address, passed as every operation's `Data`. */
    const address: Address
    var writeQueue: seq<Operation>
    var readQueue: seq<Operation>
    var readCount: nat
    var writeActive: bool

    function State(): Gate
      reads this
    {
      Gate(readCount, writeActive)
    }

    ghost predicate Valid()
      reads this, sched, sched.stacks, sched.stacks.list
    {
      sched.Valid() && Exclusive(State()) && address != Null
    }

    /** `controller(ios)`: a fresh scheduler, count 0, no writer, empty queues. */
    constructor (address: Address)
      requires address != Null
      ensures Valid() && State() == Free && writeQueue == [] && readQueue == []
      ensures this.address == address && fresh(sched) && sched.nextId == 0 && sched.posted == []
    {
      this.address := address;
      sched := new Scheduler();
      writeQueue, readQueue := [], [];
      readCount, writeActive := 0, false;
    }

    /** One pass of `start_read`: admitted when no writer is active, otherwise queued on
        `read_queue_` and suspended. */
    method StartRead(current: Operation) returns (admitted: bool)
      requires Valid()
      modifies this, current
      ensures Valid() && writeQueue == old(writeQueue)
      ensures admitted <==> Admits(old(State()), ReadGuard)
      ensures admitted ==>
        Some(State()) == Enter(old(State()), ReadGuard) && readQueue == old(readQueue)
        && unchanged(current)
      ensures !admitted ==>
        State() == old(State()) && readQueue == old(readQueue) + [current]
        && current.hookCalls == old(current.hookCalls) + current.Hook(Deactivate, Default())
        && current.holdsSelf
    {
      if !Admits(State(), ReadGuard) {
        readQueue := readQueue + [current];
        current.Suspend(false);
        return false;
      }
      readCount := readCount + 1;
      admitted := true;
    }

    /** One pass of `start_write`: admitted when there is neither a writer nor a reader;
        otherwise queued, on `read_queue_` as well, and suspended. */
    method StartWrite(current: Operation) returns (admitted: bool)
      requires Valid()
      modifies this, current
      ensures Valid() && writeQueue == old(writeQueue)
      ensures admitted <==> Admits(old(State()), WriteGuard)
      ensures admitted ==>
        Some(State()) == Enter(old(State()), WriteGuard) && readQueue == old(readQueue)
        && unchanged(current)
      ensures !admitted ==>
        State() == old(State()) && readQueue == old(readQueue) + [current]
        && current.hookCalls == old(current.hookCalls) + current.Hook(Deactivate, Default())
        && current.holdsSelf
    {
      if !Admits(State(), WriteGuard) {
        readQueue := readQueue + [current];
        current.Suspend(false);
        return false;
      }
      writeActive := true;
      admitted := true;
    }

    /** `end_read`: one reader fewer; wakes the writer-queue head when that was the last
        reader, otherwise the reader-queue head if any. */
    method EndRead()
      requires Valid() && readCount > 0
      modifies this, sched
      ensures Valid() && State() == Leave(old(State()), ReadGuard)
      ensures sched.nextId == old(sched.nextId)
      ensures readCount == 0 && old(writeQueue) != [] ==>
        writeQueue == old(writeQueue)[1..] && readQueue == old(readQueue)
        && sched.posted == old(sched.posted) + [Posted(Io, old(writeQueue)[0])]
      ensures !(readCount == 0 && old(writeQueue) != []) && old(readQueue) != [] ==>
        readQueue == old(readQueue)[1..] && writeQueue == old(writeQueue)
        && sched.posted == old(sched.posted) + [Posted(Io, old(readQueue)[0])]
      ensures !(readCount == 0 && old(writeQueue) != []) && old(readQueue) == [] ==>
        readQueue == [] && writeQueue == old(writeQueue) && sched.posted == old(sched.posted)
    {
      readCount := readCount - 1;
      if readCount == 0 && writeQueue != [] {
        Unqueue(true);
      } else if readQueue != [] {
        Unqueue(false);
      }
    }

    /** `end_write`: clears the flag and wakes at most one operation, the writer queue
        first. */
    method EndWrite()
      requires Valid()
      modifies this, sched
      ensures Valid() && State() == Leave(old(State()), WriteGuard)
      ensures sched.nextId == old(sched.nextId)
      ensures old(writeQueue) != [] ==>
        writeQueue == old(writeQueue)[1..] && readQueue == old(readQueue)
        && sched.posted == old(sched.posted) + [Posted(Io, old(writeQueue)[0])]
      ensures old(writeQueue) == [] && old(readQueue) != [] ==>
        readQueue == old(readQueue)[1..] && writeQueue == []
        && sched.posted == old(sched.posted) + [Posted(Io, old(readQueue)[0])]
      ensures old(writeQueue) == [] && old(readQueue) == [] ==>
        readQueue == [] && writeQueue == [] && sched.posted == old(sched.posted)
    {
      writeActive := false;
      if writeQueue != [] {
        Unqueue(true);
      } else if readQueue != [] {
        Unqueue(false);
      }
    }

    /** `unqueue(queue)`: re-posts exactly the front operation (`scheduler_.enqueue`, the IO
        lane) and erases only it. */
    method Unqueue(fromWriters: bool)
      requires Valid()
      requires if fromWriters then writeQueue != [] else readQueue != []
      modifies this, sched
      ensures Valid() && State() == old(State()) && sched.nextId == old(sched.nextId)
      ensures fromWriters ==>
        writeQueue == old(writeQueue)[1..] && readQueue == old(readQueue)
        && sched.posted == old(sched.posted) + [Posted(Io, old(writeQueue)[0])]
      ensures !fromWriters ==>
        readQueue == old(readQueue)[1..] && writeQueue == old(writeQueue)
        && sched.posted == old(sched.posted) + [Posted(Io, old(readQueue)[0])]
    {
      var op := if fromWriters then writeQueue[0] else readQueue[0];
      sched.Enqueue(op);
      if fromWriters {
        writeQueue := writeQueue[1..];
      } else {
        readQueue := readQueue[1..];
      }
    }

    /** `enqueue_read(fn, id)`: posts a new operation whose task runs `fn` inside a `read`
        guard, with the controller as its data. */
    method EnqueueRead(fn: nat, id: OpId) returns (op: Operation)
      requires Valid()
      modifies sched
      ensures Valid() && fresh(op) && op.Valid() && op.Unstarted()
      ensures op.body == ReadGuarded(UserFn(fn)) && op.data == Pointer(address) && !IsNull(op.data)
      ensures op.id == id.(index := sched.nextId) && sched.nextId == Successor(old(sched.nextId))
      ensures sched.posted == old(sched.posted) + [Posted(Io, op)]
    {
      op := sched.EnqueueNew(Pointer(address), ReadGuarded(UserFn(fn)), id, Io);
    }

    /** `enqueue_write(fn, id)`: the same with a `write` guard. */
    method EnqueueWrite(fn: nat, id: OpId) returns (op: Operation)
      requires Valid()
      modifies sched
      ensures Valid() && fresh(op) && op.Valid() && op.Unstarted()
      ensures op.body == WriteGuarded(UserFn(fn)) && op.data == Pointer(address) && !IsNull(op.data)
      ensures op.id == id.(index := sched.nextId) && sched.nextId == Successor(old(sched.nextId))
      ensures sched.posted == old(sched.posted) + [Posted(Io, op)]
    {
      op := sched.EnqueueNew(Pointer(address), WriteGuarded(UserFn(fn)), id, Io);
    }
  }

  /** `uint64_t` arithmetic wraps modulo 2^64. */
  const Word: int := 0x1_0000_0000_0000_0000

  lemma ModSum(a: nat, b: nat)
    ensures (a % Word + b % Word) % Word == (a + b) % Word
  {
    var qa, qb := a / Word, b / Word;
    assert a == qa * Word + a % Word;
    assert b == qb * Word + b % Word;
    assert a + b == (qa + qb) * Word + (a % Word + b % Word);
  }

  /** The wrapped sum of the wrapped fib(n) and fib(n - 1) is the wrapped fib(n + 1). */
  lemma NextEntry(n: nat)
    requires n >= 1
    ensures (RecFibSync(n) % Word + RecFibSync(n - 1) % Word) % Word == RecFibSync(n + 1) % Word
  {
    ModSum(RecFibSync(n), RecFibSync(n - 1));
  }

  /** The example's `std::vector<uint64_t> data`, shared by its read and write tasks. */
  class Series {
    var data: seq<nat>

    /** The entries are fib(1), fib(2), ... in `uint64_t` arithmetic. */
    predicate Fibonacci()
      reads this
    {
      forall k :: 0 <= k < |data| ==> data[k] == RecFibSync(k + 1) % Word
    }

    /** `data({1, 1})`. */
    constructor ()
      ensures data == [1, 1] && Fibonacci()
    {
      data := [1, 1];
    }

    /** `write_op`: appends the wrapped sum of the last two entries, so a Fibonacci vector
        stays one, one entry longer. */
    method WriteOp()
      requires |data| >= 2
      modifies this
      ensures data == old(data) + [(old(data)[|old(data)| - 1] + old(data)[|old(data)| - 2]) % Word]
      ensures old(Fibonacci()) ==> Fibonacci()
    {
      var n := |data|;
      var next := (data[n - 1] + data[n - 2]) % Word;
      if Fibonacci() {
        NextEntry(n);
        assert next == RecFibSync(n + 1) % Word;
      }
      data := data + [next];
    }
  }
}
