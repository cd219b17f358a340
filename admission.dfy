/** The reader/writer admission rule that `access_scheduler` (include/ctx/access_scheduler.h)
    and the `controller` of example/locking.cc both implement: a reader count and a writer
    flag; a reader is admitted while no writer is active, a writer only when there is neither
    a writer nor a reader. This module states the rule on values and proves that, for any
    run of balanced guard entries and exits, a writer is never inside together with anyone. */
module Admission {
  import opened Wrappers

  /** `read_count_` and `write_active_`. */
  datatype Gate = Gate(readCount: nat, writeActive: bool)

  /** The two RAII guards: `read` calls `start_read`/`end_read`, `write` calls
      `start_write`/`end_write`. */
  datatype Guard = ReadGuard | WriteGuard

  /** The state of a new scheduler or controller. */
  const Free := Gate(0, false)

  /** Mutual exclusion on the counters: an active writer implies no readers. */
  predicate Exclusive(g: Gate) {
    g.writeActive ==> g.readCount == 0
  }

  /** The admission test of `start_read` and `start_write`. */
  predicate Admits(g: Gate, guard: Guard) {
    match guard
    case ReadGuard => !g.writeActive
    case WriteGuard => !g.writeActive && g.readCount == 0
  }

  /** One attempt to start: the gate after admission, or `None` when the caller is queued
      and suspended instead (it tries again from the top once woken). */
  function Enter(g: Gate, guard: Guard): (r: Option<Gate>)
    ensures r.Some? <==> Admits(g, guard)
    ensures r.Some? ==> Exclusive(r.value)
  {
    if !Admits(g, guard) then None
    else match guard
      case ReadGuard => Some(g.(readCount := g.readCount + 1))
      case WriteGuard => Some(g.(writeActive := true))
  }

  /** `end_read` (`--read_count_`) and `end_write` (clears the flag). An `end_read` without a
      reader inside is a caller error. */
  function Leave(g: Gate, guard: Guard): (r: Gate)
    requires guard == ReadGuard ==> g.readCount > 0
    ensures Exclusive(g) ==> Exclusive(r)
    ensures guard == WriteGuard ==> !r.writeActive
  {
    match guard
    case ReadGuard => g.(readCount := g.readCount - 1)
    case WriteGuard => g.(writeActive := false)
  }

  /** A guard being constructed (`Start`) or destroyed (`Stop`) by some task. */
  datatype Event = Start(guard: Guard) | Stop(guard: Guard)

  /** The gate accounts exactly for the guards held right now: one reader counted per held
      read guard, the flag set iff a write guard is held, and at most one of those. */
  predicate Accounts(g: Gate, held: multiset<Guard>) {
    g.readCount == held[ReadGuard] && (g.writeActive <==> held[WriteGuard] == 1)
    && held[WriteGuard] <= 1 && Exclusive(g)
  }

  /** A task holding a write guard is alone inside. */
  predicate WriterAlone(held: multiset<Guard>) {
    held[WriteGuard] > 0 ==> held[WriteGuard] == 1 && held[ReadGuard] == 0
  }

  /** One event. A start that is not admitted leaves everything as it is (the task waits in a
      queue); a stop is only possible for a guard that is held (balanced end calls). */
  function Step(g: Gate, held: multiset<Guard>, e: Event): (r: Option<(Gate, multiset<Guard>)>)
    ensures Accounts(g, held) && r.Some? ==> Accounts(r.value.0, r.value.1)
    ensures e.Stop? ==> (r.Some? <==> e.guard in held && (e.guard == ReadGuard ==> g.readCount > 0))
    ensures e.Start? ==> r.Some?
  {
    match e
    case Start(guard) =>
      (match Enter(g, guard)
       case None => Some((g, held))
       case Some(g') => Some((g', held + multiset{guard})))
    case Stop(guard) =>
      if guard in held && (guard == ReadGuard ==> g.readCount > 0)
      then Some((Leave(g, guard), held - multiset{guard}))
      else None
  }

  /** A run of events from `g` with `held` inside; `None` if some stop is unbalanced. */
  function Run(g: Gate, held: multiset<Guard>, events: seq<Event>): Option<(Gate, multiset<Guard>)>
    decreases |events|
  {
    if events == [] then Some((g, held))
    else match Step(g, held, events[0])
      case None => None
      case Some(s) => Run(s.0, s.1, events[1..])
  }

  /** Mutual exclusion, given balanced end calls: from any accounted state, every run keeps
      the gate accounting for the held guards, so a writer is never inside with anyone. */
  lemma {:induction false} RunKeepsExclusion(g: Gate, held: multiset<Guard>, events: seq<Event>)
    requires Accounts(g, held)
    requires Run(g, held, events).Some?
    ensures Accounts(Run(g, held, events).value.0, Run(g, held, events).value.1)
    ensures WriterAlone(Run(g, held, events).value.1)
    decreases |events|
  {
    if events != [] {
      var s := Step(g, held, events[0]).value;
      RunKeepsExclusion(s.0, s.1, events[1..]);
    }
  }

  /** The RAII pairing: a task that is admitted and then leaves restores the gate and the
      held guards exactly. */
  lemma GuardRestoresGate(g: Gate, held: multiset<Guard>, guard: Guard)
    requires Accounts(g, held) && Admits(g, guard)
    ensures Run(g, held, [Start(guard), Stop(guard)]) == Some((g, held))
  {
    var entered := Enter(g, guard).value;
    var s := (entered, held + multiset{guard});
    assert Step(g, held, Start(guard)) == Some(s);
    assert s.1 - multiset{guard} == held;
    assert Leave(entered, guard) == g;
    assert Step(s.0, s.1, Stop(guard)) == Some((g, held));
    assert [Start(guard), Stop(guard)][1..] == [Stop(guard)];
    assert [Stop(guard)][1..] == [];
    assert Run(g, held, [Stop(guard)][1..]) == Some((g, held));
  }
}
