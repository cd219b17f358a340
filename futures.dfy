/** Futures: a write-once result slot with the condition variable of the operation that
    awaits it (include/ctx/future.h), and the wrappers `post`/`post_void` build around a user
    function so that it fills a future (include/ctx/impl/scheduler.h). The `void`
    specialisation is `Future<()>`: `set()` is `Set(())` and a normal return of `val()` is
    `Returned(())`. */
module Futures {
  import opened Wrappers
  import opened OpIds
  import opened Fibers

  /** A non-null `std::exception_ptr`, as an opaque token. */
  type Exception = nat

  /** The result of one `val()` call: the stored value, the stored exception rethrown, or the
      calling operation suspended until the result is set. */
  datatype Awaited<T> = Returned(value: T) | Rethrown(error: Exception) | Waiting

  class Future<T(0)> {
    var result: T
    const callee: OpId
    /** `exception_`: `None` is the null `exception_ptr`. */
    var exception: Option<Exception>
    const cv: ConditionVariable
    /** `result_available_`. */
    var available: bool
    /** How many times `set` has been called. */
    ghost var sets: nat

    /** `future(op_id callee)`: no result yet; `cv_` binds to the operation running now. */
    constructor (callee: OpId, current: Operation?)
      ensures this.callee == callee && !available && exception == None && sets == 0
      ensures fresh(cv) && cv.caller == current
    {
      this.callee := callee;
      exception := None;
      available := false;
      sets := 0;
      cv := new ConditionVariable(current);
    }

    /** What `val()` hands back once the result is available. */
    function Stored(): (r: Awaited<T>)
      reads this
      ensures r != Waiting
      ensures r.Rethrown? <==> exception.Some?
    {
      if exception.Some? then Rethrown(exception.value) else Returned(result)
    }

    /** The objects that `notify` may re-post through. */
    function NotifyFrame(): set<object> {
      if cv.caller == null then {} else {cv.caller.sched}
    }

    /** `val()`. On an available future it does not wait and changes nothing: it returns the
        stored value or rethrows the stored exception, so calling it again gives the same
        answer. Otherwise it reports SUSPEND naming the callee and enters the wait loop, whose
        first test fails, so the bound operation is suspended. */
    method Val(current: Operation) returns (r: Awaited<T>)
      requires !available ==> !cv.Expired()
      modifies if available then {} else {current, cv.caller}
      ensures available == old(available) && exception == old(exception) && result == old(result)
      ensures old(available) ==> r == Stored()
      ensures !old(available) ==> r == Waiting
      ensures !old(available) && current == cv.caller ==>
        current.hookCalls == old(current.hookCalls) + current.Hook(Fibers.Suspend, callee)
                             + current.Hook(Deactivate, Default())
      ensures !old(available) && current != cv.caller ==>
        current.hookCalls == old(current.hookCalls) + current.Hook(Fibers.Suspend, callee)
        && cv.caller.hookCalls == old(cv.caller.hookCalls) + cv.caller.Hook(Deactivate, Default())
    {
      if available {
        return Stored();
      }
      current.OnTransition(Fibers.Suspend, callee);
      r := ContinueVal(current);
    }

    /** The rest of `val()` after each wake-up: the wait loop tests `result_available_` again;
        while it is false the bound operation is suspended once more, and once it is true
        RESUME is reported and the stored result is handed back. */
    method ContinueVal(current: Operation) returns (r: Awaited<T>)
      requires !available ==> !cv.Expired()
      modifies current, cv.caller
      ensures available == old(available) && exception == old(exception) && result == old(result)
      ensures available ==>
        r == Stored() && current.hookCalls == old(current.hookCalls) + current.Hook(Fibers.Resume, Default())
      ensures !available ==>
        r == Waiting && cv.caller.hookCalls == old(cv.caller.hookCalls) + cv.caller.Hook(Deactivate, Default())
      ensures !available && current != cv.caller ==> current.hookCalls == old(current.hookCalls)
    {
      if !available {
        cv.Wait();
        return Waiting;
      }
      current.OnTransition(Fibers.Resume, Default());
      r := Stored();
    }

    /** `set(T&& result)`: stores the value, then marks the result available, then notifies. */
    method Set(value: T)
      modifies this, NotifyFrame()
      ensures result == value && available && exception == old(exception) && sets == old(sets) + 1
      ensures !cv.Expired() ==> cv.caller.sched.posted == old(cv.caller.sched.posted) + [Posted(Work, cv.caller)]
      ensures cv.Expired() && cv.caller != null ==> unchanged(cv.caller.sched)
    {
      result := value;
      available := true;
      sets := sets + 1;
      cv.Notify();
    }

    /** `set(std::exception_ptr e)`: stores the exception, marks the result available,
        notifies. */
    method SetException(e: Exception)
      modifies this, NotifyFrame()
      ensures exception == Some(e) && available && result == old(result) && sets == old(sets) + 1
      ensures !cv.Expired() ==> cv.caller.sched.posted == old(cv.caller.sched.posted) + [Posted(Work, cv.caller)]
      ensures cv.Expired() && cv.caller != null ==> unchanged(cv.caller.sched)
    {
      exception := Some(e);
      available := true;
      sets := sets + 1;
      cv.Notify();
    }
  }

  /** The exception slots of `futures`, in order. */
  function ExceptionsOf<T(0)>(futures: seq<Future<T>>): (es: seq<Option<Exception>>)
    reads set f | f in futures
    ensures |es| == |futures|
    ensures forall i :: 0 <= i < |futures| ==> es[i] == futures[i].exception
  {
    if futures == [] then []
    else ExceptionsOf(futures[..|futures| - 1]) + [futures[|futures| - 1].exception]
  }

  /** The first exception in order, if any. */
  function FirstRaised(es: seq<Option<Exception>>): (r: Option<Exception>)
    ensures r.None? <==> forall i :: 0 <= i < |es| ==> es[i].None?
    ensures r.Some? ==> exists k :: 0 <= k < |es| && es[k] == r && forall j :: 0 <= j < k ==> es[j].None?
  {
    if es == [] then None
    else
      var init := es[..|es| - 1];
      var earlier := FirstRaised(init);
      assert forall j :: 0 <= j < |init| ==> init[j] == es[j];
      if earlier.Some? then earlier else es[|es| - 1]
  }

  /** Awaiting one more future: the first exception so far stays first; without one, the
      new future's exception, if any, becomes the first. */
  lemma FirstRaisedStep(es: seq<Option<Exception>>, i: int)
    requires 0 <= i < |es|
    ensures var before := FirstRaised(es[..i]);
      FirstRaised(es[..i + 1]) == if before.Some? then before else es[i]
  {
    assert es[..i + 1][..i] == es[..i];
  }

  /** `await_all`: awaits every future, also after one has failed, and then rethrows the first
      exception in vector order (`Some`), or returns normally (`None`). Each future is taken as
      already complete: the wait of one `val()` is modelled by `Val` and `ContinueVal`. */
  method AwaitAll<T(0)>(futures: seq<Future<T>>, current: Operation) returns (raised: Option<Exception>)
    requires forall i :: 0 <= i < |futures| ==> futures[i].available
    ensures raised == FirstRaised(ExceptionsOf(futures))
  {
    ghost var es := ExceptionsOf(futures);
    raised := None;
    for i := 0 to |futures|
      invariant raised == FirstRaised(es[..i])
    {
      FirstRaisedStep(es, i);
      var r := futures[i].Val(current);
      if r.Rethrown? && raised.None? {
        raised := Some(r.error);
      }
    }
    assert es[..|futures|] == es;
  }

  /** `post(data, fn, id)` (and `post_void`, with `T = ()`): creates the future, posts an
      operation whose body is the wrapper, and returns the future at once, before `fn` has
      run. The source default-constructs the future, which has no default constructor; the
      model gives it a default `op_id` as callee. Its condition variable binds to `current`,
      the operation calling `post`. */
  method Post<T(0)>(s: Scheduler, data: Payload, fn: nat, id: OpId, current: Operation?)
    returns (f: Future<T>, op: Operation)
    requires s.Valid()
    modifies s
    ensures s.Valid() && fresh(f) && fresh(op)
    ensures !f.available && f.sets == 0 && f.exception == None && f.cv.caller == current
    ensures op.body == SetsFuture(fn) && op.data == data && op.Valid() && op.Unstarted()
    ensures op.id == id.(index := s.nextId) && s.nextId == Successor(old(s.nextId))
    ensures s.posted == old(s.posted) + [Posted(Io, op)]
  {
    f := new Future<T>(Default(), current);
    op := s.EnqueueNew(data, SetsFuture(fn), id, Io);
  }

  /** The wrapper's body, given how `fn` ended (`Ok(value)` or `Err(exception)`): on a normal
      return the future is set with the value; if `fn` throws, with the captured exception.
      Either way it is set exactly once, and a fresh future then yields `fn`'s outcome. */
  method RunPostWrapper<T(0)>(f: Future<T>, outcome: Result<T, Exception>)
    modifies f, f.NotifyFrame()
    ensures f.available && f.sets == old(f.sets) + 1
    ensures outcome.Ok? ==> f.result == outcome.value && f.exception == old(f.exception)
    ensures outcome.Err? ==> f.exception == Some(outcome.error) && f.result == old(f.result)
    ensures old(f.exception) == None ==>
      f.Stored() == (if outcome.Ok? then Returned(outcome.value) else Rethrown(outcome.error))
    ensures !f.cv.Expired() ==> f.cv.caller.sched.posted == old(f.cv.caller.sched.posted) + [Posted(Work, f.cv.caller)]
  {
    match outcome
    case Ok(v) => f.Set(v);
    case Err(e) => f.SetException(e);
  }
}
