/** What the tool execution protocol guarantees over whole runs: counting, final results,
    a bound on the work, and exactly when it can still finish. */
module ToolProtocolTheorems {
  import opened Wrappers
  import opened ToolProtocol
  import opened ToolProtocolInvariant

  /** How often the log says that call `i` raised the counter. */
  function TimesCounted(log: seq<Completion>, i: nat): nat {
    if log == [] then 0
    else TimesCounted(log[..|log| - 1], i) + if log[|log| - 1].slot == i then 1 else 0
  }

  lemma {:induction false} TimesZero(log: seq<Completion>, i: nat)
    requires i !in Logged(log)
    ensures TimesCounted(log, i) == 0
  {
    if log != [] {
      var front, last := log[..|log| - 1], log[|log| - 1];
      assert log == front + [last];
      LoggedAppend(front, last);
      TimesZero(front, i);
    }
  }

  lemma {:induction false} LoggedSize(log: seq<Completion>)
    ensures |Logged(log)| <= |log|
  {
    if log == [] {
      assert Logged(log) == {};
    } else {
      var front, last := log[..|log| - 1], log[|log| - 1];
      assert log == front + [last];
      LoggedAppend(front, last);
      LoggedSize(front);
    }
  }

  /** A log as long as the set of calls it mentions mentions each of them once. */
  lemma {:induction false} TimesOne(log: seq<Completion>, i: nat)
    requires |Logged(log)| == |log| && i in Logged(log)
    ensures TimesCounted(log, i) == 1
  {
    var front, last := log[..|log| - 1], log[|log| - 1];
    assert log == front + [last];
    LoggedAppend(front, last);
    LoggedSize(front);
    if last.slot == i {
      TimesZero(front, i);
    } else {
      TimesOne(front, i);
    }
  }

  lemma {:induction false} FailedAtMostAll(log: seq<Completion>)
    ensures FailedEntries(log) <= |log|
  {
    if log != [] { FailedAtMostAll(log[..|log| - 1]); }
  }

  /** The calls whose launch was attempted: those with name and id that the launch loop
      reached before an interrupt stopped it. */
  function AttemptedCalls(s: State): set<nat> { set i | i in ValidCalls(s.calls) && i < s.reached }

  /** In every state of every run, `error_count <= completed <= total`, no call has raised
      the counter twice, and the log is numbered without gaps. */
  lemma {:induction false} CountingIsSafe(calls: seq<ToolCall>, trace: seq<State>, events: seq<Event>, k: nat)
    requires IsProtocolRun(calls, trace, events) && k < |trace|
    ensures trace[k].tracker.errorCount <= trace[k].tracker.completed <= trace[k].tracker.total == |ValidCalls(calls)|
    ensures forall i: nat :: TimesCounted(trace[k].log, i) <= 1
    ensures |trace[k].log| == trace[k].tracker.completed
    ensures forall j :: 0 <= j < |trace[k].log| ==> trace[k].log[j].number == j + 1
  {
    InitInv(calls);
    RunKeepsInv(trace, events, k);
    CallsNeverChange(calls, trace, events, k);
    var s := trace[k];
    FailedAtMostAll(s.log);
    forall i | i in Logged(s.log) ensures i in ValidCalls(calls) {
      var e :| e in s.log && e.slot == i;
      var j :| 0 <= j < |s.log| && s.log[j] == e;
      assert LogEntryOk(s, j) && CallOk(s, i);
      if s.fate[i].Started? { assert ThreadOk(s, s.fate[i].thread); }
    }
    SubsetSize(Logged(s.log), ValidCalls(calls));
    forall i: nat ensures TimesCounted(s.log, i) <= 1 {
      if i in Logged(s.log) { TimesOne(s.log, i); } else { TimesZero(s.log, i); }
    }
    forall j | 0 <= j < |s.log| ensures s.log[j].number == j + 1 { assert LogEntryOk(s, j); }
  }

  lemma {:induction false} CallsNeverChange(calls: seq<ToolCall>, trace: seq<State>, events: seq<Event>, k: nat)
    requires IsProtocolRun(calls, trace, events) && k < |trace|
    ensures trace[k].calls == calls
    decreases k
  {
    if k > 0 {
      CallsNeverChange(calls, trace, events, k - 1);
      assert trace[k - 1 + 1] == Apply(trace[k - 1], events[k - 1]);
    }
  }

  /** What the protocol leaves in the slot of one call. */
  predicate FinalSlot(s: State, i: nat)
    requires i < |s.calls| && i < |s.slots|
  {
    var call, slot := s.calls[i], s.slots[i];
    if i >= s.reached then slot == Response(IdOr(call), CancelledBeforeStart, true)
    else if !ValidCall(call) then slot == Response(IdOr(call), Malformed, true)
    else
      || slot == Image
      || slot == Response(IdOr(call), StartFailed, true)
      || slot == Response(IdOr(call), CancelledWhileRunning, true)
      || (slot.Response? && slot.id == IdOr(call) && slot.outcome == Ran)
  }

  /** The attempted calls whose result is an error. */
  function FailedCalls(s: State): set<nat> { set i | i in AttemptedCalls(s) && i < |s.slots| && s.slots[i].Failed() }

  /** The calls whose log entry reports an error. */
  function LoggedFailures(log: seq<Completion>): set<nat> { set e | e in log && e.isError :: e.slot }

  /** When every call is logged once, counting the failed entries counts the failed calls. */
  lemma {:induction false} FailuresCounted(log: seq<Completion>)
    requires |Logged(log)| == |log|
    ensures FailedEntries(log) == |LoggedFailures(log)|
  {
    if log == [] {
      assert LoggedFailures(log) == {};
    } else {
      var front, last := log[..|log| - 1], log[|log| - 1];
      assert log == front + [last];
      LoggedAppend(front, last);
      LoggedSize(front);
      FailuresCounted(front);
      assert LoggedFailures(log) == if last.isError then LoggedFailures(front) + {last.slot} else LoggedFailures(front) by {
        FailuresAppend(front, last);
      }
      assert LoggedFailures(front) <= Logged(front);
    }
  }

  lemma FailuresAppend(log: seq<Completion>, e: Completion)
    ensures LoggedFailures(log + [e]) == if e.isError then LoggedFailures(log) + {e.slot} else LoggedFailures(log)
  {
    forall x | x in log ensures x in log + [e] {}
    assert (log + [e])[|log|] == e;
  }

  /** When the launcher is done: every slot holds the result of its own call, with the call's
      own id unless it is an image; the counted calls are exactly the attempted ones, once
      each; `error_count` is the number of them whose slot is an error; and
      `completed == total` unless an interrupt stopped the launching. */
  lemma {:induction false} FinalResults(calls: seq<ToolCall>, trace: seq<State>, events: seq<Event>, k: nat)
    requires IsProtocolRun(calls, trace, events) && k < |trace| && trace[k].main == Done
    ensures trace[k].calls == calls && |trace[k].slots| == |calls|
    ensures forall i: nat :: i < |calls| ==> FinalSlot(trace[k], i)
    ensures Logged(trace[k].log) == AttemptedCalls(trace[k])
    ensures forall i: nat :: TimesCounted(trace[k].log, i) == if i in AttemptedCalls(trace[k]) then 1 else 0
    ensures trace[k].tracker.completed == |AttemptedCalls(trace[k])|
    ensures trace[k].tracker.errorCount == |FailedCalls(trace[k])|
    ensures forall j :: 0 <= j < |trace[k].log| ==>
              trace[k].log[j].slot < |calls| && trace[k].log[j].isError == trace[k].slots[trace[k].log[j].slot].Failed()
    ensures trace[k].reached == |calls| ==> trace[k].tracker.completed == trace[k].tracker.total
    ensures trace[k].reached < |calls| ==> trace[k].interrupted
  {
    InitInv(calls);
    RunKeepsInv(trace, events, k);
    CallsNeverChange(calls, trace, events, k);
    var s := trace[k];
    forall i: nat | i < |calls| ensures FinalSlot(s, i) && (i in Logged(s.log) <==> i in AttemptedCalls(s)) {
      assert CallOk(s, i);
      if s.fate[i].Started? { assert ThreadOk(s, s.fate[i].thread); }
    }
    forall j | 0 <= j < |s.log| ensures s.log[j].slot < |calls| && s.log[j].isError == s.slots[s.log[j].slot].Failed() {
      assert LogEntryOk(s, j);
    }
    forall i | i in Logged(s.log) ensures i in AttemptedCalls(s) {
      var e :| e in s.log && e.slot == i;
      assert i < |calls|;
    }
    assert Logged(s.log) == AttemptedCalls(s);
    forall i: nat ensures TimesCounted(s.log, i) == if i in AttemptedCalls(s) then 1 else 0 {
      if i in Logged(s.log) { TimesOne(s.log, i); } else { TimesZero(s.log, i); }
    }
    assert s.reached == |calls| ==> AttemptedCalls(s) == ValidCalls(calls);
    FailuresCounted(s.log);
    FailuresAreFailedCalls(s);
  }

  lemma FailuresAreFailedCalls(s: State)
    requires Logged(s.log) == AttemptedCalls(s) && |s.slots| == |s.calls|
    requires forall j :: 0 <= j < |s.log| ==> s.log[j].slot < |s.calls| && s.log[j].isError == s.slots[s.log[j].slot].Failed()
    ensures LoggedFailures(s.log) == FailedCalls(s)
  {
    hide AttemptedCalls;
    forall i | i in FailedCalls(s) ensures i in LoggedFailures(s.log) {
      var e :| e in s.log && e.slot == i;
      var j :| 0 <= j < |s.log| && s.log[j] == e;
    }
    forall i | i in LoggedFailures(s.log) ensures i in FailedCalls(s) {
      var e :| e in s.log && e.isError && e.slot == i;
      var j :| 0 <= j < |s.log| && s.log[j] == e;
      assert i in Logged(s.log);
    }
  }
}
