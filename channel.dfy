/** `channel<T>` (include/ctx/channel.h): a locked queue of topic-tagged elements with
    optional listeners, read and written through per-topic handles. Each locked section is
    one method; a wait on the channel's condition variable is the method's precondition. A
    listener's callback is a token, and what it answers for an element is given by the
    `answer` function. */
module Channels {
  import opened Wrappers

  /** `TopicId` is `unsigned`. */
  type TopicId = nat

  /** `any`, the smallest `unsigned`: a listener on it matches every topic. */
  const Any: TopicId := 0

  /** `numeric_limits<size_t>::max()`, the default capacity. */
  const SizeMax: nat := 0xffff_ffff_ffff_ffff

  datatype Element<T> = Element(topic: TopicId, value: T)

  datatype Listener = Listener(topic: TopicId, callback: nat)

  predicate Matches(l: Listener, topic: TopicId) {
    l.topic == Any || l.topic == topic
  }

  /** Some listener of `ls` matches `topic`. */
  predicate AnyMatches(ls: seq<Listener>, topic: TopicId) {
    exists l :: l in ls && Matches(l, topic)
  }

  /** `a` is `b` with some elements left out, the rest in their order. */
  ghost predicate Subsequence<T>(a: seq<T>, b: seq<T>)
    decreases |b|
  {
    a == [] || (b != [] && ((a[0] == b[0] && Subsequence(a[1..], b[1..])) || Subsequence(a, b[1..])))
  }

  /** The index of the first listener matching `topic`, or `|listeners|` if none does. */
  function FirstMatch(listeners: seq<Listener>, topic: TopicId): (k: nat)
    ensures k <= |listeners|
    ensures k < |listeners| ==> Matches(listeners[k], topic)
    ensures forall j :: 0 <= j < k ==> !Matches(listeners[j], topic)
  {
    if listeners == [] then 0
    else if Matches(listeners[0], topic) then 0
    else 1 + FirstMatch(listeners[1..], topic)
  }

  /** The private `tell_listeners(el)`: the first matching listener consumes the element and
      is removed when its callback answers true; with no match nothing happens. */
  function Offer<T>(listeners: seq<Listener>, el: Element<T>, answer: (Listener, Element<T>) -> bool)
    : (r: (bool, seq<Listener>))
    ensures r.0 <==> exists j :: 0 <= j < |listeners| && Matches(listeners[j], el.topic)
    ensures r.0 <==> AnyMatches(listeners, el.topic)
    ensures !r.0 ==> r.1 == listeners
    ensures var k := FirstMatch(listeners, el.topic);
      (|r.1| < |listeners| <==> k < |listeners| && answer(listeners[k], el))
      && (k < |listeners| && answer(listeners[k], el) ==> r.1 == listeners[..k] + listeners[k + 1..])
    ensures |r.1| == |listeners| ==> r.1 == listeners
    ensures |r.1| == |listeners| || |r.1| == |listeners| - 1
  {
    var k := FirstMatch(listeners, el.topic);
    if k == |listeners| then (false, listeners)
    else if answer(listeners[k], el) then (true, listeners[..k] + listeners[k + 1..])
    else (true, listeners)
  }

  /** The public `tell_listeners()` as a function: offers every queued element, front to
      back, keeping the ones no listener consumed. */
  function Dispatch<T>(queue: seq<Element<T>>, listeners: seq<Listener>, answer: (Listener, Element<T>) -> bool)
    : (r: (seq<Element<T>>, seq<Listener>))
    ensures |r.0| <= |queue|
  {
    if queue == [] then ([], listeners)
    else
      var (consumed, remaining) := Offer(listeners, queue[0], answer);
      var rest := Dispatch(queue[1..], remaining, answer);
      (if consumed then rest.0 else [queue[0]] + rest.0, rest.1)
  }

  /** Offering an element never adds a listener. */
  lemma OfferAddsNoListener<T>(listeners: seq<Listener>, el: Element<T>, answer: (Listener, Element<T>) -> bool)
    ensures forall l :: l in Offer(listeners, el, answer).1 ==> l in listeners
  {
    var k := FirstMatch(listeners, el.topic);
    if k < |listeners| && answer(listeners[k], el) {
      assert forall l :: l in listeners[..k] + listeners[k + 1..] ==> l in listeners;
    }
  }

  /** What telling the listeners does to the queue: the kept elements are the queue with some
      elements left out, in their order; an element that no listener matches is kept, so
      every erased element matched one; and no listener is added. */
  lemma {:induction false} DispatchFilters<T>(queue: seq<Element<T>>, listeners: seq<Listener>,
                                              answer: (Listener, Element<T>) -> bool)
    ensures var r := Dispatch(queue, listeners, answer);
      Subsequence(r.0, queue)
      && (forall i :: 0 <= i < |queue| && !AnyMatches(listeners, queue[i].topic) ==> queue[i] in r.0)
      && (forall i :: 0 <= i < |queue| && queue[i] !in r.0 ==> AnyMatches(listeners, queue[i].topic))
      && (forall l :: l in r.1 ==> l in listeners)
  {
    if queue != [] {
      var (consumed, remaining) := Offer(listeners, queue[0], answer);
      OfferAddsNoListener(listeners, queue[0], answer);
      DispatchFilters(queue[1..], remaining, answer);
    }
  }

  /** One step of the walk over the queue: the front element is offered, and either dropped
      or moved to the kept prefix. */
  lemma DispatchStep<T>(prefix: seq<Element<T>>, rest: seq<Element<T>>, listeners: seq<Listener>,
                        answer: (Listener, Element<T>) -> bool, target: (seq<Element<T>>, seq<Listener>))
    requires rest != []
    requires prefix + Dispatch(rest, listeners, answer).0 == target.0
    requires Dispatch(rest, listeners, answer).1 == target.1
    ensures var (consumed, remaining) := Offer(listeners, rest[0], answer);
      (if consumed then prefix else prefix + [rest[0]]) + Dispatch(rest[1..], remaining, answer).0 == target.0
      && Dispatch(rest[1..], remaining, answer).1 == target.1
  {
    var (consumed, remaining) := Offer(listeners, rest[0], answer);
    if !consumed {
      assert prefix + [rest[0]] + Dispatch(rest[1..], remaining, answer).0
        == prefix + ([rest[0]] + Dispatch(rest[1..], remaining, answer).0);
    }
  }

  /** With no listeners the queue is left as it is. */
  lemma {:induction false} NoListenersKeepQueue<T>(queue: seq<Element<T>>, answer: (Listener, Element<T>) -> bool)
    ensures Dispatch(queue, [], answer) == (queue, [])
  {
    if queue != [] {
      NoListenersKeepQueue(queue[1..], answer);
      assert Offer([], queue[0], answer) == (false, []);
      assert [queue[0]] + queue[1..] == queue;
    }
  }

  /** A listener on `Any` consumes every element while it stays registered: a listener whose
      callback keeps answering false empties the queue. */
  lemma {:induction false} PersistentCatchAllEmptiesQueue<T>(queue: seq<Element<T>>, l: Listener, answer: (Listener, Element<T>) -> bool)
    requires l.topic == Any
    requires forall el :: !answer(l, el)
    ensures Dispatch(queue, [l], answer) == ([], [l])
  {
    if queue != [] {
      PersistentCatchAllEmptiesQueue(queue[1..], l, answer);
    }
  }

  class Channel<T> {
    var queue: seq<Element<T>>
    var listeners: seq<Listener>
    var stopped: bool
    /** `size_`. */
    const capacity: nat

    /** `channel(size)`: not stopped, empty. */
    constructor (capacity: nat)
      ensures this.capacity == capacity && queue == [] && listeners == [] && !stopped
    {
      this.capacity := capacity;
      queue, listeners := [], [];
      stopped := false;
    }

    /** `channel()`: the default capacity. */
    constructor Unbounded()
      ensures capacity == SizeMax && queue == [] && listeners == [] && !stopped
    {
      capacity := SizeMax;
      queue, listeners := [], [];
      stopped := false;
    }

    /** `next_data`: the last element whatever the topic, or the end position. */
    function NextData(): (i: nat)
      reads this
      ensures queue != [] ==> i == |queue| - 1
      ensures queue == [] ==> i == |queue|
    {
      if |queue| > 0 then |queue| - 1 else |queue|
    }

    /** `is_data_available`: the channel holds some element, of any topic. */
    predicate DataAvailable(): (r: bool)
      reads this
      ensures r <==> queue != []
    {
      NextData() != |queue|
    }

    /** `topic::ready`: data available, or stopped. The topic plays no part. */
    predicate Ready(id: TopicId)
      reads this
      ensures Ready(id) <==> queue != [] || stopped
    {
      var available := DataAvailable();
      available || (stopped && !available)
    }

    /** `topic(id) >> el`, once its wait for `ready()` is over: false when stopped and empty;
        otherwise the last element, whatever its topic, is removed and handed out. */
    method Receive(id: TopicId) returns (r: Option<Element<T>>)
      requires Ready(id)
      modifies this
      ensures r.None? <==> old(stopped) && old(queue) == []
      ensures r.Some? ==> old(queue) == queue + [r.value]
      ensures r.None? ==> queue == old(queue)
      ensures r.Some? ==> Size() == old(Size()) - 1
      ensures listeners == old(listeners) && stopped == old(stopped)
    {
      if stopped && !DataAvailable() {
        return None;
      }
      var i := NextData();
      r := Some(queue[i]);
      queue := queue[..i];
    }

    /** `topic(id) << value`, once its wait for room is over (that wait does not look at the
        stop flag): false when stopped; otherwise appends `(id, value)` and tells the
        listeners. */
    method Send(id: TopicId, value: T, answer: (Listener, Element<T>) -> bool) returns (accepted: bool)
      requires |queue| < capacity
      modifies this
      ensures accepted <==> !old(stopped)
      ensures !accepted ==> queue == old(queue) && listeners == old(listeners)
      ensures accepted ==>
        (queue, listeners) == Dispatch(old(queue) + [Element(id, value)], old(listeners), answer)
      ensures accepted && old(listeners) == [] ==> queue == old(queue) + [Element(id, value)]
      ensures accepted && old(listeners) == [] ==> Size() == old(Size()) + 1
      ensures Size() <= old(Size()) + 1
      ensures stopped == old(stopped)
    {
      if stopped {
        return false;
      }
      queue := queue + [Element(id, value)];
      TellListeners(answer);
      accepted := true;
    }

    /** `topic(id).listen(cb)`: registers the listener, then tells all listeners. */
    method Listen(id: TopicId, callback: nat, answer: (Listener, Element<T>) -> bool)
      modifies this
      ensures (queue, listeners) == Dispatch(old(queue), old(listeners) + [Listener(id, callback)], answer)
      ensures stopped == old(stopped)
    {
      listeners := listeners + [Listener(id, callback)];
      TellListeners(answer);
    }

    /** `stop`. */
    method Stop()
      modifies this
      ensures stopped && queue == old(queue) && listeners == old(listeners)
    {
      stopped := true;
    }

    /** `size`: the number of queued elements; zero exactly when no data is available to any
        topic. */
    function Size(): (n: nat)
      reads this
      ensures n == |queue|
      ensures n == 0 <==> !DataAvailable()
    {
      |queue|
    }

    /** `tell_listeners()`: with no listeners returns at once; otherwise walks the queue
        front to back and erases every element some listener consumes. */
    method TellListeners(answer: (Listener, Element<T>) -> bool)
      modifies this
      ensures (queue, listeners) == Dispatch(old(queue), old(listeners), answer)
      ensures old(listeners) == [] ==> queue == old(queue) && listeners == []
      ensures stopped == old(stopped)
    {
      if listeners == [] {
        NoListenersKeepQueue(queue, answer);
        return;
      }
      ghost var target := Dispatch(queue, listeners, answer);
      var q, i := queue, 0;
      while i < |q|
        invariant 0 <= i <= |q|
        invariant q[..i] + Dispatch(q[i..], listeners, answer).0 == target.0
        invariant Dispatch(q[i..], listeners, answer).1 == target.1
        invariant stopped == old(stopped)
        decreases |q| - i
      {
        ghost var rest := q[i..];
        ghost var prefix := q[..i];
        DispatchStep(prefix, rest, listeners, answer, target);
        var consumed := TellListener(q[i], answer);
        if consumed {
          q := q[..i] + q[i + 1..];
          assert q[..i] == prefix && q[i..] == rest[1..];
        } else {
          assert q[..i + 1] == prefix + [rest[0]] && q[i + 1..] == rest[1..];
          i := i + 1;
        }
      }
      assert q[i..] == [] && q[..i] + [] == q;
      queue := q;
    }

    /** The private `tell_listeners(el)`: finds the first listener whose topic is `any` or
        the element's; if its callback answers true the listener is erased; reports whether
        a listener matched. */
    method TellListener(el: Element<T>, answer: (Listener, Element<T>) -> bool) returns (consumed: bool)
      modifies this`listeners
      ensures (consumed, listeners) == Offer(old(listeners), el, answer)
    {
      var k := 0;
      while k < |listeners|
        invariant 0 <= k <= |listeners|
        invariant listeners == old(listeners)
        invariant forall j :: 0 <= j < k ==> !Matches(listeners[j], el.topic)
        decreases |listeners| - k
      {
        if Matches(listeners[k], el.topic) {
          assert FirstMatch(listeners, el.topic) == k;
          if answer(listeners[k], el) {
            listeners := listeners[..k] + listeners[k + 1..];
          }
          return true;
        }
        k := k + 1;
      }
      consumed := false;
    }
  }
}
