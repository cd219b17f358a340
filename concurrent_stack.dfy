/** `concurrent_stack<T>` (include/ctx/concurrent_stack.h): a locked vector used as a stack
    whose top is the back, with a stop flag that releases blocked pollers. Each method is one
    critical section; the wait of `poll` is its precondition. */
module ConcurrentStacks {
  import opened Wrappers
  import opened Lifo

  class ConcurrentStack<T> {
    var data: seq<T>
    var stopped: bool

    constructor ()
      ensures data == [] && !stopped
    {
      data := [];
      stopped := false;
    }

    /** `stop`: sets the flag; the data stay. */
    method Stop()
      modifies this
      ensures stopped && data == old(data)
    {
      stopped := true;
    }

    /** `poll`, once its wait `stop_ || !data_.empty()` is over: the top element, removed, if
        there is one; `None` only when stopped and empty. The source's third branch
        (`assert(false)`) cannot be reached, since the wait guarantees one of the first two. */
    method Poll() returns (r: Option<T>)
      requires stopped || data != []
      modifies this
      ensures r.None? <==> old(stopped) && old(data) == []
      ensures r.Some? ==> old(data) == data + [r.value]
      ensures r.None? ==> data == old(data)
      ensures r.Some? ==> Size() == old(Size()) - 1
      ensures stopped == old(stopped)
    {
      if data == [] {
        return None;
      }
      var top := GetAndRemoveTop();
      r := Some(top);
    }

    /** `size`: the number of elements successive polls hand out before one would wait or
        report the stop. */
    function Size(): (n: nat)
      reads this
      ensures n == |PopOrder(data)|
      ensures n == 0 <==> data == []
    {
      |data|
    }

    /** `reset`: clears the flag without touching the data. */
    method Reset()
      modifies this
      ensures !stopped && data == old(data)
    {
      stopped := false;
    }

    /** `push`: appends at the back, which is the top. */
    method Push(x: T)
      modifies this
      ensures data == old(data) + [x] && stopped == old(stopped)
      ensures Size() == old(Size()) + 1
      ensures PopOrder(data) == [x] + PopOrder(old(data))
    {
      data := data + [x];
    }

    /** `push_bottom`: inserts at the front, so the element is polled after everything
        already present. */
    method PushBottom(x: T)
      modifies this
      ensures data == [x] + old(data) && stopped == old(stopped)
      ensures Size() == old(Size()) + 1
      ensures PopOrder(data) == PopOrder(old(data)) + [x]
    {
      BottomComesLast(x, data);
      data := [x] + data;
    }

    /** `get_and_remove_top`: the back element, erased. */
    method GetAndRemoveTop() returns (top: T)
      requires data != []
      modifies this
      ensures old(data) == data + [top] && stopped == old(stopped)
      ensures top == PopOrder(old(data))[0] && PopOrder(data) == PopOrder(old(data))[1..]
    {
      top := data[|data| - 1];
      data := data[..|data| - 1];
    }
  }
}
