/** What the launcher does about failed starts and interrupts, read off the events of a run: which
    calls report a failed start, which threads are asked to cancel, and what becomes of the flag. */
module ToolProtocolSignals {
  import opened Wrappers
  import opened ToolProtocol
  import opened ToolProtocolInvariant
  import R = ToolProtocolResults
  import T = ToolProtocolTheorems

  /** The event is a thread creation that fails: for call i, or beside thread t. */
  predicate Refuses(s: State, e: Event, i: nat) { e == Main(false) && s.main == Creating && s.reached == i }

  predicate RefusesBeside(s: State, e: Event, t: nat) { e == Main(false) && s.main == Creating && t < |s.threads| }

  /** The launcher looks at the flag and finds it set. */
  predicate SeesInterrupt(s: State, e: Event) {
    e.Main? && s.interrupt && (s.main.WaitCheck? || (s.main.Launch? && s.reached < |s.calls|))
  }

  predicate SeesInTheWait(s: State, e: Event) { e.Main? && s.interrupt && s.main.WaitCheck? }

  ghost predicate StartRefused(trace: seq<State>, events: seq<Event>, k: nat, i: nat)
    requires k <= |events| < |trace|
  {
    exists j :: 0 <= j < k && Refuses(trace[j], events[j], i)
  }

  ghost predicate RefusedBeside(trace: seq<State>, events: seq<Event>, k: nat, t: nat)
    requires k <= |events| < |trace|
  {
    exists j :: 0 <= j < k && RefusesBeside(trace[j], events[j], t)
  }

  ghost predicate SawInterrupt(trace: seq<State>, events: seq<Event>, k: nat)
    requires k <= |events| < |trace|
  {
    exists j :: 0 <= j < k && SeesInterrupt(trace[j], events[j])
  }

  ghost predicate SawInTheWait(trace: seq<State>, events: seq<Event>, k: nat)
    requires k <= |events| < |trace|
  {
    exists j :: 0 <= j < k && SeesInTheWait(trace[j], events[j])
  }

  /** The same one event later. */
  lemma Later(trace: seq<State>, events: seq<Event>, k: nat, i: nat)
    requires 0 < k <= |events| < |trace|
    ensures var s, e := trace[k - 1], events[k - 1];
            && (StartRefused(trace, events, k, i) <==> StartRefused(trace, events, k - 1, i) || Refuses(s, e, i))
            && (RefusedBeside(trace, events, k, i) <==> RefusedBeside(trace, events, k - 1, i) || RefusesBeside(s, e, i))
            && (SawInterrupt(trace, events, k) <==> SawInterrupt(trace, events, k - 1) || SeesInterrupt(s, e))
            && (SawInTheWait(trace, events, k) <==> SawInTheWait(trace, events, k - 1) || SeesInTheWait(s, e))
  {
    hide Refuses, RefusesBeside, SeesInterrupt, SeesInTheWait;
  }

  // ---------------------------------------------------------------- failed starts

  predicate RefusedNow(s: State, i: nat) {
    && i < |s.fate|
    && (s.fate[i].NotStartable? || (i == s.reached && (s.main.CancelStarted? || s.main.FailWrite? || s.main.FailNotify?)))
  }

  lemma RefusedStep(s: State, e: Event, i: nat)
    requires Sizes(s) && MainOk(s) && Enabled(s, e) && i < |s.calls|
    requires s.fate[i].NotStartable? ==> i < s.reached
    ensures RefusedNow(Apply(s, e), i) <==> RefusedNow(s, i) || Refuses(s, e, i)
  {
    hide ValidCalls, StartedCalls, ThreadStep, MainStep, MainEnabled;
    match e
    case Main(succeeds) => RefusedMainStep(s, succeeds, i);
    case Step(t, move) => ThreadKeepsLauncher(s, t, move);
    case _ =>
  }

  lemma RefusedMainStep(s: State, succeeds: bool, i: nat)
    requires MainEnabled(s) && i < |s.fate| && (s.fate[i].NotStartable? ==> i < s.reached)
    requires s.main.Filling? ==> s.reached <= s.main.k
    ensures RefusedNow(MainStep(s, succeeds), i) <==> RefusedNow(s, i) || Refuses(s, Main(succeeds), i)
  {
    hide Notify;
    if s.main.FailNotify? { NotifyKeepsLauncher(s, |s.threads|); }
  }

  /** What no thread event touches. */
  lemma ThreadKeepsLauncher(s: State, t: nat, move: Move)
    requires ThreadEnabled(s, t, move)
    ensures var s' := ThreadStep(s, t, move);
            && s'.calls == s.calls && s'.fate == s.fate && s'.reached == s.reached && s'.main == s.main
            && s'.interrupt == s.interrupt && s'.interrupted == s.interrupted && s'.tracker.cancelled == s.tracker.cancelled
            && |s'.threads| == |s.threads|
            && forall u :: 0 <= u < |s.threads| ==> s'.threads[u].cancelRequested == s.threads[u].cancelRequested
  {
    hide Notify;
    if move == Go { NotifyKeepsLauncher(s, t); }
  }

  lemma NotifyKeepsLauncher(s: State, a: nat)
    requires a < |s.args| && s.args[a].slot < |s.slots|
    ensures var s' := Notify(s, a);
            && s'.calls == s.calls && s'.fate == s.fate && s'.reached == s.reached && s'.main == s.main && s'.threads == s.threads
            && s'.interrupt == s.interrupt && s'.interrupted == s.interrupted && s'.tracker.cancelled == s.tracker.cancelled
  {
  }

  lemma {:induction false} RefusedInRun(trace: seq<State>, events: seq<Event>, k: nat, i: nat)
    requires IsRun(trace, events) && Inv(trace[0]) && !RefusedNow(trace[0], i) && k < |trace| && i < |trace[k].calls|
    ensures RefusedNow(trace[k], i) <==> StartRefused(trace, events, k, i)
    decreases k
  {
    if k > 0 {
      hide Apply, Enabled, RefusedNow, LogOk, ThreadOk, StartRefused, RefusedBeside, SawInterrupt, SawInTheWait;
      RunKeepsInv(trace, events, k - 1);
      var s, e := trace[k - 1], events[k - 1];
      assert trace[k - 1 + 1] == Apply(s, e) && Enabled(s, e);
      SameCalls(s, e);
      RefusedInRun(trace, events, k - 1, i);
      assert CallOk(s, i);
      RefusedStep(s, e, i);
      Later(trace, events, k, i);
    }
  }

  lemma SameCalls(s: State, e: Event)
    requires Enabled(s, e)
    ensures Apply(s, e).calls == s.calls
  {
    hide ThreadStep;
    match e
    case Step(t, move) => ThreadKeepsLauncher(s, t, move);
    case _ =>
  }

  /** At the end the slots that report a failed start are exactly those of the calls for which
      pthread_create failed. */
  lemma {:induction false} FailedStartsExactly(calls: seq<ToolCall>, trace: seq<State>, events: seq<Event>, k: nat, i: nat)
    requires IsProtocolRun(calls, trace, events) && k < |trace| && trace[k].main == Done && i < |calls|
    ensures |trace[k].slots| == |calls|
    ensures trace[k].slots[i] == Response(IdOr(calls[i]), StartFailed, true) <==> StartRefused(trace, events, k, i)
  {
    hide LogOk, MainOk, StartRefused;
    InitInv(calls);
    RunKeepsInv(trace, events, k);
    T.CallsNeverChange(calls, trace, events, k);
    RefusedInRun(trace, events, k, i);
    var s := trace[k];
    assert CallOk(s, i);
    if s.fate[i].Started? { assert ThreadOk(s, s.fate[i].thread); }
  }

  // ---------------------------------------------------------------- cancellation requests

  /** The tracker is marked once the launcher has seen the interrupt in its wait. */
  predicate SeenOk(s: State, seen: bool) {
    && (seen <==> s.tracker.cancelled || s.main.MarkCancelled?)
    && (s.main.CancelAll? || s.main.ResetFlag? ==> s.tracker.cancelled)
  }

  /** Thread t is asked to cancel when a later start failed or the interrupt was seen, save for the
      loops that are still on their way to it. */
  predicate RequestOk(s: State, t: nat, refused: bool) {
    && t < |s.threads|
    && (var asked := s.threads[t].cancelRequested;
        && (asked ==> refused || s.tracker.cancelled)
        && (s.main.CancelStarted? ==> refused)
        && (refused ==> asked || (s.main.CancelStarted? && s.main.k <= t))
        && (s.tracker.cancelled ==> asked || (s.main.CancelAll? && s.main.k <= t)))
  }

  lemma SeenStep(s: State, e: Event, seen: bool)
    requires MainOkFlags(s) && Enabled(s, e) && SeenOk(s, seen)
    ensures SeenOk(Apply(s, e), seen || SeesInTheWait(s, e))
  {
    hide ThreadStep, Notify;
    match e
    case Main(succeeds) => if s.main.FailNotify? { NotifyKeepsLauncher(s, |s.threads|); }
    case Step(t, move) => ThreadKeepsLauncher(s, t, move);
    case _ =>
  }

  /** The part of the invariant about `cancelled` and `interrupted`. */
  predicate MainOkFlags(s: State) {
    && (Launching(s.main) || s.main.Filling? || Waiting(s.main) ==> !s.tracker.cancelled)
    && (Launching(s.main) ==> !s.interrupted)
  }

  lemma FlagsOk(s: State)
    requires Inv(s)
    ensures MainOkFlags(s)
  {
  }

  lemma RequestStep(s: State, e: Event, t: nat, refused: bool)
    requires MainOkFlags(s) && Enabled(s, e) && RequestOk(s, t, refused)
    requires s.main.CancelAll? || s.main.ResetFlag? ==> s.tracker.cancelled
    ensures RequestOk(Apply(s, e), t, refused || RefusesBeside(s, e, t))
  {
    hide ThreadStep, Notify;
    match e
    case Main(succeeds) => if s.main.FailNotify? { NotifyKeepsLauncher(s, |s.threads|); }
    case Step(u, move) => ThreadKeepsLauncher(s, u, move);
    case _ =>
  }

  lemma {:induction false} SeenInRun(calls: seq<ToolCall>, trace: seq<State>, events: seq<Event>, k: nat)
    requires IsProtocolRun(calls, trace, events) && k < |trace|
    ensures SeenOk(trace[k], SawInTheWait(trace, events, k)) && MainOkFlags(trace[k])
    decreases k
  {
    hide Apply, Enabled, SeenOk, MainOkFlags, Inv, StartRefused, RefusedBeside, SawInterrupt, SawInTheWait;
    InitInv(calls);
    RunKeepsInv(trace, events, k);
    FlagsOk(trace[k]);
    if k > 0 {
      var s, e := trace[k - 1], events[k - 1];
      assert trace[k - 1 + 1] == Apply(s, e) && Enabled(s, e);
      SeenInRun(calls, trace, events, k - 1);
      SeenStep(s, e, SawInTheWait(trace, events, k - 1));
      Later(trace, events, k, 0);
    } else {
      NothingSeen(calls, trace, events);
    }
  }

  lemma NothingSeen(calls: seq<ToolCall>, trace: seq<State>, events: seq<Event>)
    requires IsProtocolRun(calls, trace, events)
    ensures SeenOk(trace[0], SawInTheWait(trace, events, 0)) && !SawInterrupt(trace, events, 0)
  {
  }

  lemma {:induction false} RequestedInRun(calls: seq<ToolCall>, trace: seq<State>, events: seq<Event>, k: nat, t: nat)
    requires IsProtocolRun(calls, trace, events) && k < |trace| && t < |trace[k].threads|
    ensures RequestOk(trace[k], t, RefusedBeside(trace, events, k, t))
    decreases k
  {
    hide Apply, Enabled, RequestOk, MainOkFlags, StartRefused, RefusedBeside, SawInterrupt, SawInTheWait;
    assert trace[0].threads == [];
    var s, e := trace[k - 1], events[k - 1];
    assert trace[k - 1 + 1] == Apply(s, e) && Enabled(s, e);
    SeenInRun(calls, trace, events, k - 1);
    Later(trace, events, k, t);
    if t < |s.threads| {
      RequestedInRun(calls, trace, events, k - 1, t);
      RequestStep(s, e, t, RefusedBeside(trace, events, k - 1, t));
    } else {
      NewThreadUnasked(trace, events, k, t);
    }
  }

  lemma NewThreadUnasked(trace: seq<State>, events: seq<Event>, k: nat, t: nat)
    requires IsRun(trace, events) && 0 < k < |trace| && |trace[k - 1].threads| <= t < |trace[k].threads| && MainOkFlags(trace[k - 1])
    ensures !RefusedBeside(trace, events, k, t) && RequestOk(trace[k], t, false)
  {
    hide Apply, Enabled;
    var s, e := trace[k - 1], events[k - 1];
    assert trace[k - 1 + 1] == Apply(s, e) && Enabled(s, e);
    R.ThreadsStay(s, e);
    CreationKeepsTracker(s, e, t);
    forall j | 0 <= j < k ensures !RefusesBeside(trace[j], events[j], t) { R.ThreadsGrow(trace, events, j, k - 1); }
  }

  lemma CreationKeepsTracker(s: State, e: Event, t: nat)
    requires Enabled(s, e) && R.Creates(s, e, t, s.reached)
    ensures Apply(s, e).tracker == s.tracker && Apply(s, e).main == Launch
  {
  }

  /** At the end exactly those threads have been asked to cancel beside which a start failed, or
      all of them when the interrupt was seen in the wait. */
  lemma {:induction false} CancelledThreadsExactly(calls: seq<ToolCall>, trace: seq<State>, events: seq<Event>, k: nat, t: nat)
    requires IsProtocolRun(calls, trace, events) && k < |trace| && trace[k].main == Done && t < |trace[k].threads|
    ensures trace[k].threads[t].cancelRequested <==> RefusedBeside(trace, events, k, t) || SawInTheWait(trace, events, k)
  {
    hide IsRun, RefusedBeside, SawInTheWait;
    RequestedInRun(calls, trace, events, k, t);
    SeenInRun(calls, trace, events, k);
  }

  // ---------------------------------------------------------------- the interrupt flag

  /** Setting the flag came after all clearing of it. */
  predicate LastSet(events: seq<Event>) {
    if events == [] then false
    else match events[|events| - 1]
         case SetInterrupt => true
         case ClearInterrupt => false
         case _ => LastSet(events[..|events| - 1])
  }

  /** The local flag remembers a sighting; the shared one is what it was last made to be, unless
      something was seen. */
  predicate FlagOk(s: State, saw: bool, set_: bool) {
    && (s.interrupted <==> saw)
    && (s.main.MarkCancelled? || s.main.CancelAll? || s.main.ResetFlag? ==> s.interrupted)
    && (!saw ==> (s.interrupt <==> set_))
  }

  lemma FlagStep(s: State, e: Event, saw: bool, set_: bool)
    requires Enabled(s, e) && FlagOk(s, saw, set_)
    ensures FlagOk(Apply(s, e), saw || SeesInterrupt(s, e), if e == SetInterrupt then true else if e == ClearInterrupt then false else set_)
  {
    hide ThreadStep, Notify;
    match e
    case Main(succeeds) => if s.main.FailNotify? { NotifyKeepsLauncher(s, |s.threads|); }
    case Step(t, move) => ThreadKeepsLauncher(s, t, move);
    case _ =>
  }

  lemma {:induction false} FlagInRun(calls: seq<ToolCall>, trace: seq<State>, events: seq<Event>, k: nat)
    requires IsProtocolRun(calls, trace, events) && k < |trace|
    ensures FlagOk(trace[k], SawInterrupt(trace, events, k), LastSet(events[..k]))
    decreases k
  {
    hide Apply, Enabled, FlagOk, StartRefused, RefusedBeside, SawInterrupt, SawInTheWait;
    if k > 0 {
      var s, e := trace[k - 1], events[k - 1];
      assert trace[k - 1 + 1] == Apply(s, e) && Enabled(s, e);
      assert events[..k][..k - 1] == events[..k - 1];
      FlagInRun(calls, trace, events, k - 1);
      FlagStep(s, e, SawInterrupt(trace, events, k - 1), LastSet(events[..k - 1]));
      Later(trace, events, k, 0);
    } else {
      NothingSeen(calls, trace, events);
      assert FlagOk(Init(calls), false, false) by { InitialFlag(calls); }
    }
  }

  lemma InitialFlag(calls: seq<ToolCall>)
    ensures FlagOk(Init(calls), false, false)
  {
  }

  /** When the launcher finishes, an interrupt that it has seen is used up; one that it has not seen
      and nobody has cleared is still there for whoever looks next. */
  lemma {:induction false} InterruptIsConsumedExactly(calls: seq<ToolCall>, trace: seq<State>, events: seq<Event>, k: nat)
    requires IsProtocolRun(calls, trace, events) && 0 < k < |trace|
    requires trace[k].main == Done && events[k - 1].Main?
    ensures trace[k].interrupt <==> LastSet(events[..k]) && !SawInterrupt(trace, events, k)
  {
    hide SawInterrupt;
    FlagInRun(calls, trace, events, k);
    var s, e := trace[k - 1], events[k - 1];
    assert trace[k - 1 + 1] == Apply(s, e) && Enabled(s, e);
    LastStep(s, e);
  }

  lemma LastStep(s: State, e: Event)
    requires Enabled(s, e) && e.Main? && Apply(s, e).main == Done
    ensures Apply(s, e).interrupted ==> !Apply(s, e).interrupt
  {
  }

  /** Before it joins the threads it has cancelled, the launcher takes the interrupt back: from then
      on the flag is set only by a new interrupt. */
  lemma {:induction false} InterruptTakenBackBeforeJoin(trace: seq<State>, events: seq<Event>, j: nat, k: nat)
    requires IsRun(trace, events) && j < k < |trace|
    requires trace[j].main == ResetFlag && events[j].Main? && SetInterrupt !in events[j + 1..k]
    ensures trace[j + 1].main == Join(0) && !trace[k].interrupt
    decreases k
  {
    hide Apply, Enabled;
    var s, e := trace[k - 1], events[k - 1];
    assert trace[k - 1 + 1] == Apply(s, e) && Enabled(s, e);
    if k == j + 1 {
      FlagReset(s, e);
    } else {
      assert events[j + 1..k] == events[j + 1..k - 1] + [e];
      InterruptTakenBackBeforeJoin(trace, events, j, k - 1);
      OnlyInterruptsSet(s, e);
    }
  }

  lemma FlagReset(s: State, e: Event)
    requires Enabled(s, e) && s.main == ResetFlag && e.Main?
    ensures Apply(s, e).main == Join(0) && !Apply(s, e).interrupt
  {
  }

  lemma OnlyInterruptsSet(s: State, e: Event)
    requires Enabled(s, e) && e != SetInterrupt && !s.interrupt
    ensures !Apply(s, e).interrupt
  {
    hide ThreadStep, Notify;
    match e
    case Main(succeeds) => if s.main.FailNotify? { NotifyKeepsLauncher(s, |s.threads|); }
    case Step(t, move) => ThreadKeepsLauncher(s, t, move);
    case _ =>
  }

  // ---------------------------------------------------------------- when there is a wait

  /** The launcher waits, and marks the tracker cancelled, only when it has started a thread. */
  predicate WaitsForThreads(s: State) {
    Waiting(s.main) || s.main.MarkCancelled? || s.main.CancelAll? || s.main.ResetFlag? || s.tracker.cancelled ==> s.threads != []
  }

  lemma WaitStep(s: State, e: Event)
    requires Enabled(s, e) && WaitsForThreads(s) && MainOkFlags(s)
    ensures WaitsForThreads(Apply(s, e))
  {
    hide ThreadStep, Notify;
    R.ThreadsStay(s, e);
    match e
    case Main(succeeds) => if s.main.FailNotify? { NotifyKeepsLauncher(s, |s.threads|); }
    case Step(t, move) => ThreadKeepsLauncher(s, t, move);
    case _ =>
  }

  /** A round in which no thread was started does not wait at all. */
  lemma {:induction false} NoWaitWithoutThreads(calls: seq<ToolCall>, trace: seq<State>, events: seq<Event>, k: nat)
    requires IsProtocolRun(calls, trace, events) && k < |trace| && trace[k].threads == []
    ensures !Waiting(trace[k].main) && !trace[k].tracker.cancelled && !SawInTheWait(trace, events, k)
  {
    hide SawInTheWait, IsRun;
    WaitsInRun(calls, trace, events, k);
    SeenInRun(calls, trace, events, k);
  }

  lemma {:induction false} WaitsInRun(calls: seq<ToolCall>, trace: seq<State>, events: seq<Event>, k: nat)
    requires IsProtocolRun(calls, trace, events) && k < |trace|
    ensures WaitsForThreads(trace[k])
    decreases k
  {
    if k > 0 {
      hide Apply, Enabled, WaitsForThreads, MainOkFlags;
      var s, e := trace[k - 1], events[k - 1];
      assert trace[k - 1 + 1] == Apply(s, e) && Enabled(s, e);
      WaitsInRun(calls, trace, events, k - 1);
      SeenInRun(calls, trace, events, k - 1);
      WaitStep(s, e);
    }
  }
}
