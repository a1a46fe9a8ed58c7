/** The invariant of the tool execution protocol and the proof that every event keeps it. */
module ToolProtocolInvariant {
  import opened Wrappers
  import opened ToolProtocol

  function Logged(log: seq<Completion>): set<nat> { set e | e in log :: e.slot }

  function StartedCalls(fate: seq<Fate>): set<nat> { set i: nat | i < |fate| && fate[i].Started? }

  predicate Launching(pc: MainPc) {
    pc.Launch? || pc.Creating? || pc.CancelStarted? || pc.FailWrite? || pc.FailNotify?
  }

  /** The launcher is between choosing call `reached` and being done with it. */
  predicate MidLaunch(pc: MainPc) { Launching(pc) && !pc.Launch? }

  predicate Waiting(pc: MainPc) { pc.WaitCheck? || pc.WaitTest? || pc.WaitSleep? }

  predicate Sizes(s: State) {
    && |s.slots| == |s.calls| && |s.fate| == |s.calls|
    && |s.args| == |ValidCalls(s.calls)| == s.tracker.total
    && |s.threads| <= |s.args|
    && s.reached <= |s.calls|
    && |s.threads| == |StartedCalls(s.fate)|
  }

  /** What the launcher has established at each of its program points. */
  predicate MainOk(s: State)
    requires Sizes(s)
  {
    && (Launching(s.main) || s.main.Filling? || Waiting(s.main) ==> !s.tracker.cancelled)
    && (Launching(s.main) ==> !s.interrupted)
    && (!Launching(s.main) && s.reached < |s.calls| ==> s.interrupted)
    && (MidLaunch(s.main) ==>
          && s.reached < |s.calls| && ValidCall(s.calls[s.reached])
          && |s.threads| < |s.args|
          && s.args[|s.threads|] == Arg(s.reached, s.calls[s.reached].id.value, false))
    && (match s.main
        case Filling(k) => s.reached <= k <= |s.calls|
        case CancelStarted(k) => k <= |s.threads|
        case CancelAll(k) => k <= |s.threads|
        case Join(k) => k <= |s.threads| && forall t :: 0 <= t < k ==> s.threads[t].pc == Exited
        case Done => forall t :: 0 <= t < |s.threads| ==> s.threads[t].pc == Exited
        case _ => true)
  }

  /** Up to where the launch loop or the filling loop has settled the calls. */
  function SettledTo(s: State): nat {
    match s.main
    case Filling(k) => k
    case pc => if Launching(pc) then s.reached else |s.calls|
  }

  predicate ResultOf(slot: Slot, id: string) {
    slot == Image || (slot.Response? && slot.id == id && slot.outcome == Ran)
  }

  predicate CancelledSlot(slot: Slot, id: string) { slot == Response(id, CancelledWhileRunning, true) }

  predicate NotReachedOk(s: State, i: nat)
    requires Sizes(s) && i < |s.calls|
  {
    && SettledTo(s) <= i
    && s.slots[i] == (
         if i == s.reached && s.main.FailNotify? then Response(IdOr(s.calls[i]), StartFailed, true)
         else if i == s.reached && MidLaunch(s.main) then Pending
         else Untouched)
  }

  /** The state of call `i` in terms of its fate. */
  predicate CallOk(s: State, i: nat)
    requires Sizes(s) && i < |s.calls|
  {
    match s.fate[i]
    case NotReached => NotReachedOk(s, i)
    case Rejected => i < s.reached && !ValidCall(s.calls[i]) && s.slots[i] == Response(IdOr(s.calls[i]), Malformed, true)
    case Started(t) => i < s.reached && t < |s.threads| && s.args[t].slot == i
    case NotStartable => i < s.reached && ValidCall(s.calls[i]) && s.slots[i] == Response(IdOr(s.calls[i]), StartFailed, true)
    case Skipped => s.reached <= i < SettledTo(s) && s.slots[i] == Response(IdOr(s.calls[i]), CancelledBeforeStart, true)
  }

  /** Call `i` has raised the completion counter. */
  predicate Counted(s: State, i: nat)
    requires Sizes(s) && i < |s.calls|
  {
    s.fate[i].NotStartable? || (s.fate[i].Started? && s.fate[i].thread < |s.threads| && s.args[s.fate[i].thread].notified)
  }

  predicate ThreadOwns(s: State, t: nat)
    requires Sizes(s) && t < |s.threads|
  {
    var arg := s.args[t];
    && arg.slot < s.reached
    && s.fate[arg.slot] == Started(t)
    && ValidCall(s.calls[arg.slot])
    && arg.id == s.calls[arg.slot].id.value
  }

  predicate PcMatches(arg: Arg, slot: Slot, pc: ThreadPc) {
    match pc
    case Executing => !arg.notified && slot == Pending
    case Returned(_) => !arg.notified && slot == Pending
    case Notifying => !arg.notified && ResultOf(slot, arg.id)
    case InCallback => arg.notified && ResultOf(slot, arg.id)
    case CleanCheck => if arg.notified then ResultOf(slot, arg.id) else slot == Pending || ResultOf(slot, arg.id)
    case CleanWrite(mayWrite) =>
      && mayWrite == !arg.notified
      && if arg.notified then ResultOf(slot, arg.id) else slot == Pending || ResultOf(slot, arg.id)
    case CleanNotify => if arg.notified then ResultOf(slot, arg.id) else CancelledSlot(slot, arg.id)
    case CleanCallback => arg.notified && (ResultOf(slot, arg.id) || CancelledSlot(slot, arg.id))
    case Exited => arg.notified && (ResultOf(slot, arg.id) || CancelledSlot(slot, arg.id))
  }

  predicate ThreadOk(s: State, t: nat)
    requires Sizes(s) && t < |s.threads|
  {
    ThreadOwns(s, t) && PcMatches(s.args[t], s.slots[s.args[t].slot], s.threads[t].pc)
  }

  function FailedEntries(log: seq<Completion>): nat {
    if log == [] then 0
    else FailedEntries(log[..|log| - 1]) + if log[|log| - 1].isError then 1 else 0
  }

  /** The tracker and the log: numbered from one, each call at most once, and reporting the
      error status that its slot still has. */
  predicate LogOk(s: State)
    requires Sizes(s)
  {
    && |s.log| == s.tracker.completed == |Logged(s.log)|
    && s.tracker.errorCount == FailedEntries(s.log)
    && (forall i: nat :: i < |s.calls| ==> (i in Logged(s.log) <==> Counted(s, i)))
    && (forall k :: 0 <= k < |s.log| ==> LogEntryOk(s, k))
  }

  predicate LogEntryOk(s: State, k: nat)
    requires Sizes(s) && k < |s.log|
  {
    var e := s.log[k];
    && e.number == k + 1
    && e.slot < s.reached
    && Counted(s, e.slot)
    && e.isError == s.slots[e.slot].Failed()
  }

  ghost predicate Inv(s: State) {
    && Sizes(s)
    && MainOk(s)
    && (forall i: nat :: i < |s.calls| ==> CallOk(s, i))
    && (forall t: nat :: t < |s.threads| ==> ThreadOk(s, t))
    && LogOk(s)
  }

  // ---------------------------------------------------------------- set and log arithmetic

  lemma SubsetSize(a: set<nat>, b: set<nat>)
    requires a <= b
    ensures |a| <= |b|
    ensures |a| == |b| ==> a == b
  {
    assert |b| == |a| + |b - a| by { assert b == a + (b - a); }
    if |a| == |b| { assert b - a == {}; }
  }

  lemma LoggedAppend(log: seq<Completion>, e: Completion)
    ensures Logged(log + [e]) == Logged(log) + {e.slot}
    ensures FailedEntries(log + [e]) == FailedEntries(log) + if e.isError then 1 else 0
  {
    assert (log + [e])[..|log|] == log;
    forall i | i in Logged(log) + {e.slot} ensures i in Logged(log + [e]) {
      if i == e.slot {
        assert (log + [e])[|log|] == e;
      } else {
        var x :| x in log && x.slot == i;
        assert x in log + [e];
      }
    }
  }

  lemma StartedUpdate(fate: seq<Fate>, i: nat, f: Fate)
    requires i < |fate| && !fate[i].Started?
    ensures StartedCalls(fate[i := f]) == if f.Started? then StartedCalls(fate) + {i} else StartedCalls(fate)
    ensures i !in StartedCalls(fate)
  {
  }

  /** The thread argument array is never overrun: while a valid call is still to be started,
      fewer threads run than there are valid calls. */
  lemma {:induction false} RoomForArgument(s: State)
    requires Inv(s) && s.main.Launch? && s.reached < |s.calls| && ValidCall(s.calls[s.reached])
    ensures |s.threads| < |s.args|
  {
    var started := StartedCalls(s.fate);
    forall i | i in started ensures i in ValidCalls(s.calls) - {s.reached} {
      assert CallOk(s, i);
      assert ThreadOk(s, s.fate[i].thread);
    }
    SubsetSize(started, ValidCalls(s.calls) - {s.reached});
  }

  lemma InitInv(calls: seq<ToolCall>)
    ensures Inv(Init(calls))
  {
    var s := Init(calls);
    assert StartedCalls(s.fate) == {};
    assert Logged(s.log) == {};
    forall i: nat | i < |s.calls| ensures CallOk(s, i) {}
  }

  // ---------------------------------------------------------------- tool thread events

  /** An event of thread t that changes only its program counter and, when it has not been
      counted yet, its own slot. */
  lemma ThreadWriteKeepsInv(s: State, t: nat, slot: Slot, pc: ThreadPc, s': State)
    requires Inv(s) && t < |s.threads|
    requires s.args[t].slot < |s.slots| && s.threads[t].pc != Exited
    requires s' == AtPc(s.(slots := s.slots[s.args[t].slot := slot]), t, pc)
    requires slot == s.slots[s.args[t].slot] || !s.args[t].notified
    requires PcMatches(s.args[t], slot, pc)
    ensures Inv(s')
  {
    assert ThreadOk(s, t);
    var own := s.args[t].slot;
    forall i: nat | i < |s.calls| ensures CallOk(s', i) && (Counted(s', i) <==> Counted(s, i)) {
      assert CallOk(s, i);
    }
    forall u: nat | u < |s.threads| ensures ThreadOk(s', u) {
      assert ThreadOk(s, u);
    }
    forall k: nat | k < |s.log| ensures LogEntryOk(s', k) {
      assert LogEntryOk(s, k);
    }
  }

  /** Raising the counter once, for a call that had not raised it. */
  lemma CountOnce(s: State, s': State, own: nat)
    requires Inv(s) && Sizes(s')
    requires own < |s.calls| && !Counted(s, own) && s'.calls == s.calls && s'.slots == s.slots
    requires s.reached <= s'.reached && own < s'.reached
    requires s'.log == s.log + [Completion(own, s.tracker.completed + 1, s.slots[own].Failed())]
    requires s'.tracker.completed == s.tracker.completed + 1
    requires s'.tracker.errorCount == s.tracker.errorCount + if s.slots[own].Failed() then 1 else 0
    requires forall i: nat :: i < |s.calls| ==> (Counted(s', i) <==> Counted(s, i) || i == own)
    ensures LogOk(s')
  {
    LoggedAppend(s.log, Completion(own, s.tracker.completed + 1, s.slots[own].Failed()));
    forall k: nat | k < |s'.log| ensures LogEntryOk(s', k) {
      if k < |s.log| { assert LogEntryOk(s, k); }
    }
  }

  /** The critical section of a thread that is counted for the first time. */
  lemma FirstNotifyKeepsInv(s: State, t: nat, pc: ThreadPc)
    requires Inv(s) && t < |s.threads| && s.args[t].slot < |s.slots| && !s.args[t].notified
    requires s.threads[t].pc == Notifying || s.threads[t].pc == CleanNotify
    requires pc == if s.threads[t].pc == Notifying then InCallback else CleanCallback
    ensures Inv(AtPc(Notify(s, t), t, pc))
  {
    assert ThreadOk(s, t);
    var own := s.args[t].slot;
    var s' := AtPc(Notify(s, t), t, pc);
    forall u: nat | u < |s.threads| ensures ThreadOk(s', u) {
      assert ThreadOk(s, u);
    }
    forall i: nat | i < |s.calls| ensures CallOk(s', i) && (Counted(s', i) <==> Counted(s, i) || i == own) {
      assert CallOk(s, i);
    }
    CountOnce(s, s', own);
  }

  lemma RepeatedNotifyKeepsInv(s: State, t: nat, pc: ThreadPc)
    requires Inv(s) && t < |s.threads| && s.args[t].slot < |s.slots| && s.args[t].notified
    requires s.threads[t].pc == CleanNotify && pc == CleanCallback
    ensures Inv(AtPc(Notify(s, t), t, pc))
  {
    assert ThreadOk(s, t);
    var own := s.args[t].slot;
    assert s.slots[own := s.slots[own]] == s.slots;
    ThreadWriteKeepsInv(s, t, s.slots[own], pc, AtPc(s, t, pc));
  }

  /** The thread events outside the critical section. */
  lemma GoWriteKeepsInv(s: State, t: nat)
    requires Inv(s) && ThreadEnabled(s, t, Go)
    requires s.threads[t].pc != Notifying && s.threads[t].pc != CleanNotify
    ensures Inv(GoStep(s, t))
  {
    assert ThreadOk(s, t);
    var own := s.args[t].slot;
    assert s.slots[own := s.slots[own]] == s.slots;
    var s' := GoStep(s, t);
    ThreadWriteKeepsInv(s, t, s'.slots[own], s'.threads[t].pc, s');
  }

  lemma OtherMoveKeepsInv(s: State, t: nat, move: Move)
    requires Inv(s) && ThreadEnabled(s, t, move) && move != Go
    ensures Inv(ThreadStep(s, t, move))
  {
    assert ThreadOk(s, t);
    var own := s.args[t].slot;
    assert s.slots[own := s.slots[own]] == s.slots;
    var pc := if move == ActOnCancel then CleanCheck else Returned(move.result);
    ThreadWriteKeepsInv(s, t, s.slots[own], pc, ThreadStep(s, t, move));
  }

  lemma ThreadKeepsInv(s: State, t: nat, move: Move)
    requires Inv(s) && ThreadEnabled(s, t, move)
    ensures Inv(ThreadStep(s, t, move))
  {
    if move != Go {
      OtherMoveKeepsInv(s, t, move);
    } else if s.threads[t].pc != Notifying && s.threads[t].pc != CleanNotify {
      GoWriteKeepsInv(s, t);
    } else {
      assert ThreadOk(s, t);
      var pc := if s.threads[t].pc == Notifying then InCallback else CleanCallback;
      if s.args[t].notified { RepeatedNotifyKeepsInv(s, t, pc); } else { FirstNotifyKeepsInv(s, t, pc); }
    }
  }

  // ---------------------------------------------------------------- launcher events

  /** An event that changes no call, thread argument, slot or log entry keeps what Inv says
      about them, when the launcher's position settles the same calls. */
  lemma QuietStepKeepsInv(s: State, s': State)
    requires Inv(s)
    requires s'.calls == s.calls && s'.slots == s.slots && s'.args == s.args && s'.fate == s.fate && s'.log == s.log
    requires s'.reached == s.reached && s'.tracker.(cancelled := false) == s.tracker.(cancelled := false)
    requires |s'.threads| == |s.threads| && forall t :: 0 <= t < |s.threads| ==> s'.threads[t].pc == s.threads[t].pc
    requires SettledTo(s') == SettledTo(s)
    requires s'.main.FailNotify? == s.main.FailNotify? && MidLaunch(s'.main) == MidLaunch(s.main)
    requires Sizes(s') && MainOk(s')
    ensures Inv(s')
  {
    forall i: nat | i < |s.calls| ensures CallOk(s', i) && (Counted(s', i) <==> Counted(s, i)) { assert CallOk(s, i); }
    forall t: nat | t < |s.threads| ensures ThreadOk(s', t) { assert ThreadOk(s, t); }
    forall k: nat | k < |s.log| ensures LogEntryOk(s', k) { assert LogEntryOk(s, k); }
  }

  lemma LaunchKeepsInv(s: State)
    requires Inv(s) && s.main == Launch && MainEnabled(s)
    ensures Inv(LaunchStep(s))
  {
    var s' := LaunchStep(s);
    if s.reached >= |s.calls| || s.interrupt {
      QuietStepKeepsInv(s, s');
    } else {
      var r := s.reached;
      assert CallOk(s, r);
      if ValidCall(s.calls[r]) { RoomForArgument(s); }
      StartedUpdate(s.fate, r, s'.fate[r]);
      forall i: nat | i < |s.calls| ensures CallOk(s', i) && (Counted(s', i) <==> Counted(s, i)) { assert CallOk(s, i); }
      forall t: nat | t < |s.threads| ensures ThreadOk(s', t) { assert ThreadOk(s, t); }
      forall k: nat | k < |s.log| ensures LogEntryOk(s', k) { assert LogEntryOk(s, k); }
    }
  }

  lemma FillKeepsInv(s: State, k: nat)
    requires Inv(s) && s.main == Filling(k) && MainEnabled(s)
    ensures Inv(FillStep(s, k))
  {
    var s' := FillStep(s, k);
    if k >= |s.calls| {
      QuietStepKeepsInv(s, s');
    } else {
      assert CallOk(s, k);
      StartedUpdate(s.fate, k, Skipped);
      forall i: nat | i < |s.calls| ensures CallOk(s', i) && (Counted(s', i) <==> Counted(s, i)) { assert CallOk(s, i); }
      forall t: nat | t < |s.threads| ensures ThreadOk(s', t) { assert ThreadOk(s, t); }
      forall j: nat | j < |s.log| ensures LogEntryOk(s', j) { assert LogEntryOk(s, j); }
    }
  }

  lemma CreateKeepsInv(s: State, succeeds: bool)
    requires Inv(s) && s.main == Creating && MainEnabled(s)
    ensures Inv(CreateStep(s, succeeds))
  {
    var s' := CreateStep(s, succeeds);
    if !succeeds {
      QuietStepKeepsInv(s, s');
    } else {
      var r := s.reached;
      assert CallOk(s, r);
      StartedUpdate(s.fate, r, Started(|s.threads|));
      forall i: nat | i < |s.calls| ensures CallOk(s', i) && (Counted(s', i) <==> Counted(s, i)) { assert CallOk(s, i); }
      forall t: nat | t < |s'.threads| ensures ThreadOk(s', t) {
        if t < |s.threads| { assert ThreadOk(s, t); }
      }
      forall k: nat | k < |s.log| ensures LogEntryOk(s', k) { assert LogEntryOk(s, k); }
    }
  }

  lemma FailWriteKeepsInv(s: State)
    requires Inv(s) && s.main == FailWrite && MainEnabled(s)
    ensures Inv(MainStep(s, false))
  {
    var s' := MainStep(s, false);
    assert CallOk(s, s.reached);
    forall i: nat | i < |s.calls| ensures CallOk(s', i) && (Counted(s', i) <==> Counted(s, i)) { assert CallOk(s, i); }
    forall t: nat | t < |s.threads| ensures ThreadOk(s', t) { assert ThreadOk(s, t); }
    forall k: nat | k < |s.log| ensures LogEntryOk(s', k) { assert LogEntryOk(s, k); }
  }

  lemma FailNotifyKeepsInv(s: State)
    requires Inv(s) && s.main == FailNotify && MainEnabled(s)
    ensures Inv(FailNotifyStep(s))
  {
    var s' := FailNotifyStep(s);
    var r := s.reached;
    assert CallOk(s, r);
    StartedUpdate(s.fate, r, NotStartable);
    forall i: nat | i < |s.calls| ensures CallOk(s', i) && (Counted(s', i) <==> Counted(s, i) || i == r) { assert CallOk(s, i); }
    forall t: nat | t < |s.threads| ensures ThreadOk(s', t) { assert ThreadOk(s, t); }
    CountOnce(s, s', r);
  }

  lemma CancelLoopKeepsInv(s: State)
    requires Inv(s) && (s.main.CancelStarted? || s.main.CancelAll?)
    ensures Inv(MainStep(s, false))
  {
    QuietStepKeepsInv(s, MainStep(s, false));
  }

  lemma WaitKeepsInv(s: State)
    requires Inv(s) && Waiting(s.main)
    ensures Inv(MainStep(s, false))
  {
    QuietStepKeepsInv(s, MainStep(s, false));
  }

  lemma CancelAndJoinKeepInv(s: State)
    requires Inv(s) && MainEnabled(s)
    requires s.main.MarkCancelled? || s.main.ResetFlag? || s.main.Join?
    ensures Inv(MainStep(s, false))
  {
    var s' := MainStep(s, false);
    assert MainOk(s');
    QuietStepKeepsInv(s, s');
  }

  lemma MainKeepsInv(s: State, succeeds: bool)
    requires Inv(s) && MainEnabled(s)
    ensures Inv(MainStep(s, succeeds))
  {
    match s.main
    case Launch => LaunchKeepsInv(s);
    case Filling(k) => FillKeepsInv(s, k);
    case Creating => CreateKeepsInv(s, succeeds);
    case FailWrite => FailWriteKeepsInv(s);
    case FailNotify => FailNotifyKeepsInv(s);
    case CancelStarted(_) => CancelLoopKeepsInv(s);
    case CancelAll(_) => CancelLoopKeepsInv(s);
    case WaitCheck => WaitKeepsInv(s);
    case WaitTest => WaitKeepsInv(s);
    case WaitSleep => WaitKeepsInv(s);
    case _ => CancelAndJoinKeepInv(s);
  }

  /** Every event of every participant keeps the invariant. */
  lemma {:induction false} EventKeepsInv(s: State, e: Event)
    requires Inv(s) && Enabled(s, e)
    ensures Inv(Apply(s, e))
  {
    match e
    case Main(succeeds) => MainKeepsInv(s, succeeds);
    case Step(t, move) => ThreadKeepsInv(s, t, move);
    case _ => QuietStepKeepsInv(s, Apply(s, e));
  }

  lemma {:induction false} RunKeepsInv(trace: seq<State>, events: seq<Event>, k: nat)
    requires IsRun(trace, events) && Inv(trace[0]) && k < |trace|
    ensures Inv(trace[k])
    decreases k
  {
    if k > 0 {
      RunKeepsInv(trace, events, k - 1);
      EventKeepsInv(trace[k - 1], events[k - 1]);
      assert trace[k - 1 + 1] == trace[k];
    }
  }
}
