/** The runner's work lane (include/ctx/runner.h): a locked stack of tasks that worker
    threads drain between reactor events, and a stop flag. A task is an opaque token; what
    running it does to the runner is given by an `Effect`. */
module Runners {
  import opened Wrappers
  import opened Lifo

  type Task = nat

  /** What running a task does to the runner: the work tasks it posts, in order, and whether
      it calls `stop()`. */
  datatype Effect = Effect(posts: seq<Task>, stops: bool)

  /** `runner::concurrent_stack`, top at the end. */
  class WorkStack {
    var items: seq<Task>

    constructor ()
      ensures items == []
    {
      items := [];
    }

    /** `pop`: nothing on an empty stack, which stays empty; otherwise the most recently
        pushed task, which is removed. */
    method Pop() returns (r: Option<Task>)
      modifies this
      ensures old(items) == [] ==> r == None && items == []
      ensures old(items) != [] ==> r == Some(old(items)[|old(items)| - 1]) && items == old(items)[..|old(items)| - 1]
      ensures r.Some? ==> old(items) == items + [r.value]
    {
      if items == [] {
        return None;
      }
      r := Some(items[|items| - 1]);
      items := items[..|items| - 1];
    }

    /** `push`: the task becomes the top. */
    method Push(t: Task)
      modifies this
      ensures items == old(items) + [t]
    {
      items := items + [t];
    }

    /** `clear`. */
    method Clear()
      modifies this
      ensures items == []
    {
      items := [];
    }
  }

  /** The outcome of draining: the tasks run, in order, and the stack and flag afterwards. */
  datatype Drained = Drained(ran: seq<Task>, stack: seq<Task>, stopped: bool)

  /** `execute_work_tasks` as a function of the stack and the flag: while not stopped, pop the
      top task and run it. `budget` bounds the number of tasks run, since tasks may post
      work without end. */
  function Drain(stack: seq<Task>, stopped: bool, effect: Task -> Effect, budget: nat): (d: Drained)
    ensures d.stopped || d.stack == [] || |d.ran| == budget
    ensures |d.ran| <= budget
    ensures stopped ==> d == Drained([], stack, stopped)
    ensures stack == [] ==> d == Drained([], stack, stopped)
    ensures !stopped && stack != [] && budget > 0 ==> |d.ran| > 0 && d.ran[0] == stack[|stack| - 1]
    decreases budget
  {
    if stopped || stack == [] || budget == 0 then Drained([], stack, stopped)
    else
      var t := stack[|stack| - 1];
      var e := effect(t);
      var rest := Drain(stack[..|stack| - 1] + e.posts, stopped || e.stops, effect, budget - 1);
      Drained([t] + rest.ran, rest.stack, rest.stopped)
  }

  /** The tasks `ran` so far followed by a further drain. */
  function After(ran: seq<Task>, d: Drained): Drained {
    Drained(ran + d.ran, d.stack, d.stopped)
  }

  lemma AfterAppend(r1: seq<Task>, r2: seq<Task>, d: Drained)
    ensures After(r1, After(r2, d)) == After(r1 + r2, d)
  {
    assert r1 + (r2 + d.ran) == (r1 + r2) + d.ran;
  }

  /** Popping and running the top task is the first step of a drain. */
  lemma DrainStep(ran: seq<Task>, stack: seq<Task>, effect: Task -> Effect, budget: nat)
    requires stack != [] && budget > 0
    ensures var t := stack[|stack| - 1];
      After(ran, Drain(stack, false, effect, budget))
      == After(ran + [t], Drain(stack[..|stack| - 1] + effect(t).posts, effect(t).stops, effect, budget - 1))
  {
    var t := stack[|stack| - 1];
    AfterAppend(ran, [t], Drain(stack[..|stack| - 1] + effect(t).posts, effect(t).stops, effect, budget - 1));
  }

  /** A drain that cannot start runs nothing. */
  lemma DrainDone(ran: seq<Task>, stack: seq<Task>, stopped: bool, effect: Task -> Effect, budget: nat)
    requires stopped || stack == [] || budget == 0
    ensures After(ran, Drain(stack, stopped, effect, budget)) == Drained(ran, stack, stopped)
  {
    assert ran + [] == ran;
  }

  /** Tasks that neither post work nor stop are run in LIFO order until the stack is empty. */
  lemma {:induction false} QuietTasksRunInPopOrder(stack: seq<Task>, effect: Task -> Effect, budget: nat)
    requires forall i :: 0 <= i < |stack| ==> effect(stack[i]) == Effect([], false)
    requires |stack| <= budget
    ensures Drain(stack, false, effect, budget) == Drained(PopOrder(stack), [], false)
    decreases |stack|
  {
    if stack != [] {
      var init := stack[..|stack| - 1];
      assert forall i :: 0 <= i < |init| ==> init[i] == stack[i];
      assert init + [] == init;
      QuietTasksRunInPopOrder(init, effect, budget - 1);
    }
  }

  /** A task that calls `stop()` is the last one run. */
  lemma StoppingTaskRunsLast(stack: seq<Task>, effect: Task -> Effect, budget: nat)
    requires stack != [] && budget > 0
    requires effect(stack[|stack| - 1]).stops
    ensures Drain(stack, false, effect, budget).ran == [stack[|stack| - 1]]
    ensures Drain(stack, false, effect, budget).stopped
  {
  }

  class Runner {
    const workStack: WorkStack
    /** `stop_`. */
    var stop: bool

    /** `runner(ios)`: an empty work stack, not stopped. */
    constructor ()
      ensures fresh(workStack) && workStack.items == [] && !stop
    {
      workStack := new WorkStack();
      stop := false;
    }

    /** `reset`: empties the work stack and clears `stop_`. */
    method Reset()
      modifies this, workStack
      ensures workStack.items == [] && !stop
    {
      workStack.Clear();
      stop := false;
    }

    /** `stop`: sets `stop_`; `execute_work_tasks` then runs nothing. */
    method Stop()
      modifies this
      ensures stop && workStack.items == old(workStack.items)
    {
      stop := true;
    }

    /** `post_work_task`: pushes onto the work stack. */
    method PostWorkTask(t: Task)
      modifies workStack
      ensures workStack.items == old(workStack.items) + [t]
    {
      workStack.Push(t);
    }

    /** Running one task `(*f)()`: it posts its work tasks, then possibly stops the runner. */
    method RunTask(e: Effect)
      requires !stop
      modifies this, workStack
      ensures workStack.items == old(workStack.items) + e.posts && stop == e.stops
    {
      ghost var base := workStack.items;
      for k := 0 to |e.posts|
        invariant workStack.items == base + e.posts[..k]
        invariant !stop
      {
        PostWorkTask(e.posts[k]);
      }
      assert e.posts[..|e.posts|] == e.posts;
      if e.stops {
        Stop();
      }
    }

    /** `execute_work_tasks`: pops and runs tasks, most recent first, until the stack is empty
        or `stop_` is set (or `budget` tasks have run). */
    method ExecuteWorkTasks(effect: Task -> Effect, budget: nat) returns (ran: seq<Task>)
      modifies this, workStack
      ensures Drained(ran, workStack.items, stop) == Drain(old(workStack.items), old(stop), effect, budget)
    {
      ghost var target := Drain(workStack.items, stop, effect, budget);
      ran := [];
      var remaining := budget;
      while !stop && remaining > 0
        invariant After(ran, Drain(workStack.items, stop, effect, remaining)) == target
        decreases remaining
      {
        ghost var stack := workStack.items;
        var f := workStack.Pop();
        if f.None? {
          break;
        }
        var e := effect(f.value);
        DrainStep(ran, stack, effect, remaining);
        RunTask(e);
        ran := ran + [f.value];
        remaining := remaining - 1;
      }
      DrainDone(ran, workStack.items, stop, effect, remaining);
    }
  }
}
