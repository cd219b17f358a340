/** `op_tracker` (include/ctx/op_tracker.h): a log of operation state changes that is
    compacted into a status table once it has grown past a threshold. The lock-free log
    queue is a plain sequence; `status_` is an ordered map whose keys compare by `index`
    alone, so it is keyed here by the index and keeps the first `op_id` stored under it. */
module OpTracking {
  import opened OpIds

  /** `kMaxQueueSize`. */
  const MaxQueueSize: nat := 16384

  /** `state`: the four enumerators, and any other value an `enum class` can hold. */
  datatype State = Ready | Running | Waiting | Finished | Other(code: int)

  datatype LogEntry = LogEntry(s: State, caller: OpId, callee: OpId)

  /** A `status_` entry: the key object as first inserted, and the mapped pair. */
  datatype Status = Status(key: OpId, state: State, callee: OpId)

  type StatusTable = map<nat, Status>

  /** `status_to_string`: each enumerator's name in capitals, UNKNOWN for anything else. */
  function StatusToString(s: State): (name: string)
    ensures s.Other? <==> name == "UNKNOWN"
  {
    match s
    case Ready => "READY"
    case Running => "RUNNING"
    case Waiting => "WAITING"
    case Finished => "FINISHED"
    case Other(_) => "UNKNOWN"
  }

  /** Distinct states print differently, except that all unknown ones print alike. */
  lemma StatusNamesDistinct(s: State, t: State)
    requires StatusToString(s) == StatusToString(t)
    ensures s == t || (s.Other? && t.Other?)
  {
  }

  /** The effect of consuming one log entry: a non-finished entry sets the caller's status to
      `(s, callee)`, overwriting any earlier one; a finished entry erases the caller. */
  function Apply(status: StatusTable, e: LogEntry): (r: StatusTable)
    ensures e.s == Finished ==> e.caller.index !in r
    ensures e.s != Finished ==>
      e.caller.index in r && r[e.caller.index].state == e.s && r[e.caller.index].callee == e.callee
    ensures e.s != Finished ==>
      r[e.caller.index].key == (if e.caller.index in status then status[e.caller.index].key else e.caller)
    ensures forall c :: c != e.caller.index ==> (c in r <==> c in status)
    ensures forall c :: c != e.caller.index && c in r ==> r[c] == status[c]
  {
    var c := e.caller.index;
    if e.s != Finished then
      status[c := Status(if c in status then status[c].key else e.caller, e.s, e.callee)]
    else status - {c}
  }

  /** The table after consuming `entries` in queue order. */
  function Compact(status: StatusTable, entries: seq<LogEntry>): StatusTable
  {
    if entries == [] then status
    else Apply(Compact(status, entries[..|entries| - 1]), entries[|entries| - 1])
  }

  /** Entry `k` is the last one about caller index `c`. */
  predicate LastFor(entries: seq<LogEntry>, k: int, c: nat) {
    0 <= k < |entries| && entries[k].caller.index == c
    && forall j :: k < j < |entries| ==> entries[j].caller.index != c
  }

  /** A caller none of the entries mention keeps its status, present or absent. */
  lemma {:induction false} UnmentionedKeepsStatus(status: StatusTable, entries: seq<LogEntry>, c: nat)
    requires forall i :: 0 <= i < |entries| ==> entries[i].caller.index != c
    ensures c in Compact(status, entries) <==> c in status
    ensures c in status ==> Compact(status, entries)[c] == status[c]
  {
    if entries != [] {
      var init := entries[..|entries| - 1];
      assert forall i :: 0 <= i < |init| ==> init[i] == entries[i];
      UnmentionedKeepsStatus(status, init, c);
    }
  }

  /** The last entry about a caller decides its status: a finished entry leaves it erased,
      any other leaves it with that entry's state and callee. */
  lemma {:induction false} LastEntryDecides(status: StatusTable, entries: seq<LogEntry>, c: nat, k: int)
    requires LastFor(entries, k, c)
    ensures entries[k].s == Finished ==> c !in Compact(status, entries)
    ensures entries[k].s != Finished ==>
      c in Compact(status, entries) && Compact(status, entries)[c].state == entries[k].s
      && Compact(status, entries)[c].callee == entries[k].callee
  {
    var n := |entries| - 1;
    var init := entries[..n];
    if k < n {
      assert forall i :: 0 <= i < |init| ==> init[i] == entries[i];
      assert LastFor(init, k, c);
      LastEntryDecides(status, init, c, k);
    }
  }

  class OpTracker {
    var status: StatusTable
    /** `log_`, oldest entry first. */
    var log: seq<LogEntry>
    /** `log_size_`, an `unsigned` counter. */
    var logSize: nat

    ghost predicate Valid()
      reads this
    {
      logSize < UintModulus
    }

    /** `op_tracker()`: an empty log and table. `log_size_` is not initialised by the
        source, so its first value is a parameter here. */
    constructor (initialLogSize: nat)
      requires initialLogSize < UintModulus
      ensures Valid() && status == map[] && log == [] && logSize == initialLogSize
    {
      status := map[];
      log := [];
      logSize := initialLogSize;
    }

    /** `log(s, id1, id2)`: appends an entry and counts it; when the count is past
        `kMaxQueueSize` the log is compacted. The count is never reset, so once past the
        threshold every later call compacts, until the counter wraps. */
    method Log(s: State, caller: OpId, callee: OpId)
      requires Valid()
      modifies this
      ensures Valid() && logSize == Successor(old(logSize))
      ensures logSize > MaxQueueSize ==>
        log == [] && status == Compact(old(status), old(log) + [LogEntry(s, caller, callee)])
      ensures logSize <= MaxQueueSize ==>
        log == old(log) + [LogEntry(s, caller, callee)] && status == old(status)
    {
      log := log + [LogEntry(s, caller, callee)];
      logSize := (logSize + 1) % UintModulus;
      if logSize > MaxQueueSize {
        CompactLog();
      }
    }

    /** `compact_log`: consumes every logged entry in queue order into `status_`. */
    method CompactLog()
      modifies this
      ensures log == [] && status == Compact(old(status), old(log)) && logSize == old(logSize)
    {
      ghost var entries := log;
      var i := 0;
      while i < |log|
        invariant 0 <= i <= |log| && log == entries
        invariant status == Compact(old(status), entries[..i])
        invariant logSize == old(logSize)
      {
        assert entries[..i + 1][..i] == entries[..i];
        status := Apply(status, log[i]);
        i := i + 1;
      }
      assert entries[..i] == entries;
      log := [];
    }
  }
}
