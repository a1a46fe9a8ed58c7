/** Progress of the tool execution protocol: a quadratic bound on the number of events other than
    polls and flag changes, exactly when the protocol can still finish, and that it does. */
module ToolProtocolProgress {
  import opened Wrappers
  import opened ToolProtocol
  import opened ToolProtocolInvariant

  function PcRank(pc: ThreadPc): nat {
    match pc
    case Executing => 8
    case Returned(_) => 7
    case Notifying => 6
    case InCallback => 5
    case CleanCheck => 4
    case CleanWrite(_) => 3
    case CleanNotify => 2
    case CleanCallback => 1
    case Exited => 0
  }

  function ThreadsRank(threads: seq<Thread>): nat {
    if threads == [] then 0 else ThreadsRank(threads[..|threads| - 1]) + PcRank(threads[|threads| - 1].pc)
  }

  /** Work the launcher may still have to do when `rem` of `n` calls are not yet reached. */
  function LaunchBudget(rem: nat, n: nat): nat {
    if rem == 0 then 3 * n + 7 else LaunchBudget(rem - 1, n) + n + 13
  }

  function MainRank(n: nat, reached: nat, main: MainPc): nat {
    var rem := if reached <= n then n - reached else 0;
    var before := if rem > 0 then LaunchBudget(rem - 1, n) else 0;
    match main
    case Launch => LaunchBudget(rem, n)
    case Creating => before + n + 12
    case CancelStarted(k) => before + 3 + if k <= n then n - k else 0
    case FailWrite => before + 2
    case FailNotify => before + 1
    case Filling(k) => 2 * n + 6 + if k <= n then n - k else 0
    case WaitCheck => 2 * n + 5
    case WaitTest => 2 * n + 5
    case WaitSleep => 2 * n + 5
    case MarkCancelled => 2 * n + 4
    case CancelAll(k) => n + 3 + if k <= n then n - k else 0
    case ResetFlag => n + 2
    case Join(k) => 1 + if k <= n then n - k else 0
    case Done => 0
  }

  function Rank(s: State): nat { MainRank(|s.calls|, s.reached, s.main) + ThreadsRank(s.threads) }

  /** The wait loop going round once more. */
  predicate Polls(s: State, e: Event) {
    e.Main? && match s.main
    case WaitCheck => !s.interrupt
    case WaitTest => !Finished(s.tracker)
    case WaitSleep => !Finished(s.tracker)
    case _ => false
  }

  predicate FlagChange(e: Event) { e.SetInterrupt? || e.ClearInterrupt? }

  lemma {:induction false} ThreadsRankUpdate(threads: seq<Thread>, t: nat, th: Thread)
    requires t < |threads|
    ensures ThreadsRank(threads[t := th]) + PcRank(threads[t].pc) == ThreadsRank(threads) + PcRank(th.pc)
  {
    var last := |threads| - 1;
    var updated := threads[t := th];
    if t == last {
      assert updated[..last] == threads[..last];
    } else {
      assert updated[..last] == threads[..last][t := th];
      ThreadsRankUpdate(threads[..last], t, th);
    }
  }

  ghost function Range(n: nat): (r: set<nat>)
    ensures |r| == n && forall i: nat :: i in r <==> i < n
  {
    if n == 0 then {} else Range(n - 1) + {n - 1}
  }

  lemma ThreadsFit(s: State)
    requires Inv(s)
    ensures |s.threads| <= |s.calls|
  {
    SubsetSize(StartedCalls(s.fate), Range(|s.calls|));
  }

  lemma LaunchRankStep(s: State)
    requires s.main == Launch && MainEnabled(s) && s.reached <= |s.calls|
    ensures Rank(LaunchStep(s)) < Rank(s)
  {
    hide ThreadsRank;
    var n := |s.calls|;
    if s.reached < n { assert LaunchBudget(n - s.reached, n) == LaunchBudget(n - s.reached - 1, n) + n + 13; }
    BudgetClosedForm(n - s.reached, n);
  }

  lemma CreateRankStep(s: State, succeeds: bool)
    requires s.main == Creating && MainEnabled(s) && s.reached < |s.calls|
    ensures Rank(CreateStep(s, succeeds)) < Rank(s)
  {
    if succeeds { assert CreateStep(s, succeeds).threads[..|s.threads|] == s.threads; }
  }

  lemma CancelLoopRankStep(s: State)
    requires s.main.CancelStarted? || s.main.CancelAll?
    requires s.main.k <= |s.threads| <= |s.calls|
    ensures Rank(MainStep(s, false)) < Rank(s)
  {
    if s.main.k < |s.threads| {
      ThreadsRankUpdate(s.threads, s.main.k, RequestCancel(s.threads, s.main.k)[s.main.k]);
    }
  }

  lemma FailureRankStep(s: State)
    requires s.main == FailWrite || s.main == FailNotify
    requires MainEnabled(s) && s.reached < |s.calls|
    ensures Rank(MainStep(s, false)) < Rank(s)
  {
  }

  lemma FillRankStep(s: State)
    requires s.main.Filling? && MainEnabled(s)
    ensures Rank(MainStep(s, false)) < Rank(s)
  {
  }

  lemma WaitRankStep(s: State)
    requires Waiting(s.main)
    ensures if Polls(s, Main(false)) then Rank(MainStep(s, false)) == Rank(s) else Rank(MainStep(s, false)) < Rank(s)
  {
  }

  lemma CancelAndJoinRankStep(s: State)
    requires s.main.MarkCancelled? || s.main.ResetFlag? || s.main.Join?
    requires MainEnabled(s) && |s.threads| <= |s.calls|
    ensures Rank(MainStep(s, false)) < Rank(s)
  {
  }

  lemma MainRankStep(s: State, succeeds: bool)
    requires Inv(s) && MainEnabled(s)
    ensures if Polls(s, Main(succeeds)) then Rank(MainStep(s, succeeds)) == Rank(s) else Rank(MainStep(s, succeeds)) < Rank(s)
  {
    ThreadsFit(s);
    match s.main
    case Launch => LaunchRankStep(s);
    case Creating => CreateRankStep(s, succeeds);
    case CancelStarted(k) => CancelLoopRankStep(s);
    case CancelAll(k) => CancelLoopRankStep(s);
    case FailWrite => FailureRankStep(s);
    case FailNotify => FailureRankStep(s);
    case Filling(k) => FillRankStep(s);
    case WaitCheck => WaitRankStep(s);
    case WaitTest => WaitRankStep(s);
    case WaitSleep => WaitRankStep(s);
    case _ => CancelAndJoinRankStep(s);
  }

  lemma GoMovesOn(s: State, t: nat)
    requires ThreadEnabled(s, t, Go)
    ensures |GoStep(s, t).threads| == |s.threads|
    ensures PcRank(GoStep(s, t).threads[t].pc) < PcRank(s.threads[t].pc)
  {
  }

  /** A thread event changes nothing of the launcher's and moves its own thread on. */
  lemma ThreadStepMovesOn(s: State, t: nat, move: Move, s': State)
    requires ThreadEnabled(s, t, move) && s' == ThreadStep(s, t, move)
    ensures s'.main == s.main && s'.reached == s.reached && s'.calls == s.calls
    ensures |s'.threads| == |s.threads| && s'.threads == s.threads[t := s'.threads[t]]
    ensures PcRank(s'.threads[t].pc) < PcRank(s.threads[t].pc)
  {
    if move == Go { GoMovesOn(s, t); }
  }

  lemma ThreadRankStep(s: State, t: nat, move: Move)
    requires ThreadEnabled(s, t, move)
    ensures Rank(ThreadStep(s, t, move)) < Rank(s)
  {
    var s' := ThreadStep(s, t, move);
    ThreadStepMovesOn(s, t, move, s');
    ThreadsRankUpdate(s.threads, t, s'.threads[t]);
  }

  /** Every event other than a poll of the wait loop or a change of the flag uses up rank;
      those two leave it as it is. */
  lemma {:induction false} EventsUseUpRank(s: State, e: Event)
    requires Inv(s) && Enabled(s, e)
    ensures if Polls(s, e) || FlagChange(e) then Rank(Apply(s, e)) == Rank(s) else Rank(Apply(s, e)) < Rank(s)
  {
    match e
    case Main(succeeds) => MainRankStep(s, succeeds);
    case Step(t, move) => ThreadRankStep(s, t, move);
    case _ =>
  }

  /** The events of a run that are neither polls nor flag changes. */
  function Productive(trace: seq<State>, events: seq<Event>): nat
    requires |trace| == |events| + 1
  {
    if events == [] then 0
    else
      var k := |events| - 1;
      Productive(trace[..k + 1], events[..k]) + if Polls(trace[k], events[k]) || FlagChange(events[k]) then 0 else 1
  }

  lemma RunPrefix(trace: seq<State>, events: seq<Event>)
    requires IsRun(trace, events) && events != []
    ensures IsRun(trace[..|events|], events[..|events| - 1])
  {
    var front := events[..|events| - 1];
    forall k | 0 <= k < |front|
      ensures Enabled(trace[..|events|][k], front[k]) && trace[..|events|][k + 1] == Apply(trace[..|events|][k], front[k])
    {
      assert events[k] == front[k] && trace[k + 1] == Apply(trace[k], events[k]);
    }
  }

  lemma {:induction false} ProductiveBounded(trace: seq<State>, events: seq<Event>)
    requires IsRun(trace, events) && Inv(trace[0])
    ensures Inv(trace[|events|])
    ensures Productive(trace, events) + Rank(trace[|events|]) <= Rank(trace[0])
    decreases |events|
  {
    if events != [] {
      var k := |events| - 1;
      RunPrefix(trace, events);
      ProductiveBounded(trace[..k + 1], events[..k]);
      assert trace[k + 1] == Apply(trace[k], events[k]);
      EventKeepsInv(trace[k], events[k]);
      EventsUseUpRank(trace[k], events[k]);
    }
  }

  lemma {:induction false} BudgetClosedForm(rem: nat, n: nat)
    ensures LaunchBudget(rem, n) == 3 * n + 7 + rem * (n + 13)
  {
    if rem > 0 { BudgetClosedForm(rem - 1, n); }
  }

  /** However threads, interrupts, cancellations and failed starts interleave, a run on n
      calls contains at most n(n + 16) + 7 events that are not polls or flag changes. */
  lemma {:induction false} WorkIsBounded(calls: seq<ToolCall>, trace: seq<State>, events: seq<Event>)
    requires IsProtocolRun(calls, trace, events)
    ensures Productive(trace, events) <= |calls| * (|calls| + 16) + 7
  {
    InitInv(calls);
    ProductiveBounded(trace, events);
    var n := |calls|;
    BudgetClosedForm(n, n);
    assert 3 * n + n * (n + 13) == n * (n + 16);
  }

  // ---------------------------------------------------------------- when the run can finish

  predicate ValidCallLeft(s: State) {
    exists i: nat :: s.reached <= i < |s.calls| && ValidCall(s.calls[i])
  }

  /** Launching was interrupted with valid calls left over, threads are running, and somebody
      has cleared the interrupt flag before the wait loop looked at it. */
  predicate Doomed(s: State) {
    && (Waiting(s.main) || (s.main.Filling? && |s.threads| > 0))
    && !s.interrupt
    && ValidCallLeft(s)
  }

  /** A counted call had been reached, so the counter cannot get to `total` past a valid call
      that was left over. */
  lemma LeftoverKeepsCounterLow(s: State)
    requires Inv(s) && ValidCallLeft(s)
    ensures s.tracker.completed < s.tracker.total
  {
    var left :| s.reached <= left < |s.calls| && ValidCall(s.calls[left]);
    forall i | i in Logged(s.log) ensures i in ValidCalls(s.calls) - {left} {
      var e :| e in s.log && e.slot == i;
      var j :| 0 <= j < |s.log| && s.log[j] == e;
      assert LogEntryOk(s, j) && CallOk(s, i);
      if s.fate[i].Started? { assert ThreadOk(s, s.fate[i].thread); }
    }
    SubsetSize(Logged(s.log), ValidCalls(s.calls) - {left});
  }

  lemma AllCountedReachesTotal(s: State)
    requires Inv(s) && SettledTo(s) == |s.calls| && !ValidCallLeft(s)
    requires forall t: nat :: t < |s.threads| ==> s.threads[t].pc == Exited
    ensures s.tracker.completed == s.tracker.total
  {
    forall i | i in ValidCalls(s.calls) ensures i in Logged(s.log) {
      assert CallOk(s, i);
      if s.fate[i].Started? { assert ThreadOk(s, s.fate[i].thread); }
    }
    forall i | i in Logged(s.log) ensures i in ValidCalls(s.calls) {
      var e :| e in s.log && e.slot == i;
      var j :| 0 <= j < |s.log| && s.log[j] == e;
      assert LogEntryOk(s, j) && CallOk(s, i);
      if s.fate[i].Started? { assert ThreadOk(s, s.fate[i].thread); }
    }
    assert ValidCalls(s.calls) == Logged(s.log);
  }

  /** The launcher is never stuck at an array access, and waits only for a join. */
  lemma {:induction false} LauncherNeverStuck(s: State)
    requires Inv(s) && s.main != Done
    requires s.main.Join? ==> forall t: nat :: t < |s.threads| ==> s.threads[t].pc == Exited
    ensures MainEnabled(s)
  {
    if s.main.Launch? && s.reached < |s.calls| && ValidCall(s.calls[s.reached]) { RoomForArgument(s); }
  }

  /** Position in the wait loop, once only polls remain before it is left. */
  function PollRank(s: State): nat {
    match s.main
    case WaitCheck => if s.interrupt then 0 else 1
    case WaitTest => if s.interrupt then 2 else 0
    case WaitSleep => 1
    case _ => 0
  }

  predicate SystemEvent(e: Event) { !FlagChange(e) }

  /** The protocol, left alone with tools that return, can run on to its end from here. */
  ghost predicate CanFinish(s: State) {
    exists trace, events :: FinishingRun(s, trace, events)
  }

  ghost predicate FinishingRun(s: State, trace: seq<State>, events: seq<Event>) {
    && IsRun(trace, events) && trace[0] == s && trace[|events|].main == Done
    && forall e :: e in events ==> SystemEvent(e)
  }

  lemma DoomedStaysDoomed(s: State, e: Event)
    requires Inv(s) && Doomed(s) && Enabled(s, e) && SystemEvent(e)
    ensures Doomed(Apply(s, e))
  {
    LeftoverKeepsCounterLow(s);
    var left :| s.reached <= left < |s.calls| && ValidCall(s.calls[left]);
    assert Apply(s, e).reached == s.reached && Apply(s, e).calls == s.calls;
  }

  lemma {:induction false} DoomedNeverFinishes(s: State, trace: seq<State>, events: seq<Event>, k: nat)
    requires Inv(s) && Doomed(s) && IsRun(trace, events) && trace[0] == s && k < |trace|
    requires forall e :: e in events ==> SystemEvent(e)
    ensures Inv(trace[k]) && Doomed(trace[k])
  {
    if k > 0 {
      DoomedNeverFinishes(s, trace, events, k - 1);
      assert events[k - 1] in events;
      assert trace[k - 1 + 1] == Apply(trace[k - 1], events[k - 1]);
      EventKeepsInv(trace[k - 1], events[k - 1]);
      DoomedStaysDoomed(trace[k - 1], events[k - 1]);
    }
  }

  /** The event a scheduler picks: any thread that is left, otherwise the launcher. */
  lemma PickEvent(s: State) returns (e: Event)
    requires Inv(s) && s.main != Done && !Doomed(s)
    ensures Enabled(s, e) && SystemEvent(e)
    ensures Inv(Apply(s, e)) && !Doomed(Apply(s, e))
    ensures Rank(Apply(s, e)) < Rank(s) || (Rank(Apply(s, e)) == Rank(s) && PollRank(Apply(s, e)) < PollRank(s))
  {
    if t: nat :| t < |s.threads| && s.threads[t].pc != Exited {
      e := Step(t, if s.threads[t].pc == Executing then Return(JsonResult(false)) else Go);
      assert ThreadOk(s, t);
    } else {
      e := Main(true);
      LauncherNeverStuck(s);
      if Waiting(s.main) { PollsLeadOut(s); }
    }
    EventKeepsInv(s, e);
    EventsUseUpRank(s, e);
    NotDoomedStays(s, e);
  }

  lemma LeftoversShrink(s: State, e: Event)
    requires Enabled(s, e) && ValidCallLeft(Apply(s, e))
    ensures ValidCallLeft(s)
  {
    var s' := Apply(s, e);
    assert s'.calls == s.calls && s.reached <= s'.reached;
    var left :| s'.reached <= left < |s'.calls| && ValidCall(s'.calls[left]);
    assert s.reached <= left < |s.calls| && ValidCall(s.calls[left]);
  }

  lemma NotDoomedStays(s: State, e: Event)
    requires !Doomed(s) && Enabled(s, e) && SystemEvent(e)
    ensures !Doomed(Apply(s, e))
  {
    var s' := Apply(s, e);
    if Doomed(s') {
      LeftoversShrink(s, e);
    }
  }

  lemma PollsLeadOut(s: State)
    requires Inv(s) && !Doomed(s) && Waiting(s.main)
    requires forall t: nat :: t < |s.threads| ==> s.threads[t].pc == Exited
    ensures !Polls(s, Main(true)) || PollRank(MainStep(s, true)) < PollRank(s)
  {
    if !s.interrupt { AllCountedReachesTotal(s); }
  }

  lemma FinishOneEventEarlier(s: State, e: Event, trace: seq<State>, events: seq<Event>)
    requires Enabled(s, e) && SystemEvent(e) && FinishingRun(Apply(s, e), trace, events)
    ensures FinishingRun(s, [s] + trace, [e] + events)
  {
    var trace', events' := [s] + trace, [e] + events;
    forall k | 0 <= k < |events'| ensures Enabled(trace'[k], events'[k]) && trace'[k + 1] == Apply(trace'[k], events'[k]) {
      if k > 0 { assert Enabled(trace[k - 1], events[k - 1]) && trace[k - 1 + 1] == Apply(trace[k - 1], events[k - 1]); }
    }
  }

  lemma {:induction false} CanFinishUnlessDoomed(s: State)
    requires Inv(s) && !Doomed(s)
    ensures CanFinish(s)
    decreases Rank(s), PollRank(s)
  {
    if s.main == Done {
      assert FinishingRun(s, [s], []);
    } else {
      var e := PickEvent(s);
      var s' := Apply(s, e);
      CanFinishUnlessDoomed(s');
      var trace, events :| FinishingRun(s', trace, events);
      FinishOneEventEarlier(s, e, trace, events);
    }
  }

  /** In every reachable state: the protocol can finish on its own exactly when it is not the
      case that the flag which interrupted the launching was cleared before the wait loop
      looked at it. */
  lemma {:induction false} CanFinishExactlyUnlessDoomed(calls: seq<ToolCall>, trace: seq<State>, events: seq<Event>, k: nat)
    requires IsProtocolRun(calls, trace, events) && k < |trace|
    ensures CanFinish(trace[k]) <==> !Doomed(trace[k])
  {
    InitInv(calls);
    RunKeepsInv(trace, events, k);
    var s := trace[k];
    if Doomed(s) && CanFinish(s) {
      var tr, es :| FinishingRun(s, tr, es);
      DoomedNeverFinishes(s, tr, es, |es|);
      assert false;
    }
    if !Doomed(s) { CanFinishUnlessDoomed(s); }
  }

  // ---------------------------------------------------------------- it does finish

  /** Launching is over and every thread has exited. */
  predicate OnlyLauncherLeft(s: State) {
    !Launching(s.main) && forall t: nat :: t < |s.threads| ==> s.threads[t].pc == Exited
  }

  /** How many polls can still come: those of the wait loop's current position, or two. */
  function PollBudget(s: State): nat { if s.main.Filling? then 2 else PollRank(s) }

  lemma LauncherEvent(s: State, e: Event)
    requires Inv(s) && !Doomed(s) && OnlyLauncherLeft(s) && Enabled(s, e) && SystemEvent(e)
    ensures e.Main? && OnlyLauncherLeft(Apply(s, e)) && Inv(Apply(s, e)) && !Doomed(Apply(s, e))
    ensures if Polls(s, e) then Rank(Apply(s, e)) == Rank(s) else Rank(Apply(s, e)) < Rank(s)
  {
    EventKeepsInv(s, e);
    EventsUseUpRank(s, e);
    NotDoomedStays(s, e);
    if e.Main? { LauncherStaysAlone(s, e.createSucceeds); }
  }

  lemma LauncherStaysAlone(s: State, succeeds: bool)
    requires MainEnabled(s) && OnlyLauncherLeft(s)
    ensures OnlyLauncherLeft(MainStep(s, succeeds))
  {
    var s' := MainStep(s, succeeds);
    assert |s'.threads| == |s.threads| && forall t: nat :: t < |s.threads| ==> s'.threads[t].pc == s.threads[t].pc;
  }

  lemma LauncherPolls(s: State, succeeds: bool)
    requires Inv(s) && !Doomed(s) && OnlyLauncherLeft(s) && MainEnabled(s)
    ensures PollBudget(MainStep(s, succeeds)) + (if Polls(s, Main(succeeds)) then 1 else 0) <= PollBudget(s)
  {
    if Waiting(s.main) && !s.interrupt {
      NoLeftovers(s);
      AllCountedReachesTotal(s);
    }
  }

  lemma NoLeftovers(s: State)
    requires Inv(s) && !Doomed(s) && Waiting(s.main) && !s.interrupt
    ensures !ValidCallLeft(s) && SettledTo(s) == |s.calls|
  {
  }

  /** How often the wait loop went round. */
  function PollCount(trace: seq<State>, events: seq<Event>): nat
    requires |trace| == |events| + 1
  {
    if events == [] then 0
    else
      var k := |events| - 1;
      PollCount(trace[..k + 1], events[..k]) + if Polls(trace[k], events[k]) then 1 else 0
  }

  lemma {:induction false} LauncherRun(trace: seq<State>, events: seq<Event>)
    requires IsRun(trace, events) && Inv(trace[0]) && !Doomed(trace[0]) && OnlyLauncherLeft(trace[0])
    requires forall e :: e in events ==> SystemEvent(e)
    ensures var s := trace[|events|]; Inv(s) && !Doomed(s) && OnlyLauncherLeft(s)
    ensures PollCount(trace, events) + PollBudget(trace[|events|]) <= PollBudget(trace[0])
    ensures |events| + Rank(trace[|events|]) <= Rank(trace[0]) + PollCount(trace, events)
    decreases |events|
  {
    hide Inv, Doomed, OnlyLauncherLeft, Enabled, Apply, Polls, PollBudget, Rank, SystemEvent;
    if events != [] {
      var k := |events| - 1;
      RunPrefix(trace, events);
      assert forall e :: e in events[..k] ==> e in events;
      LauncherRun(trace[..k + 1], events[..k]);
      assert events[k] in events && Enabled(trace[k], events[k]) && trace[k + 1] == Apply(trace[k], events[k]);
      LauncherEvent(trace[k], events[k]);
      LauncherPollStep(trace[k], events[k]);
    }
  }

  lemma LauncherPollStep(s: State, e: Event)
    requires Inv(s) && !Doomed(s) && OnlyLauncherLeft(s) && Enabled(s, e) && e.Main?
    ensures PollBudget(Apply(s, e)) + (if Polls(s, e) then 1 else 0) <= PollBudget(s)
  {
    LauncherPolls(s, e.createSucceeds);
  }

  /** Once launching is over and the threads have exited, a run that is left alone cannot go on for
      ever: from a reachable state that is not doomed it has at most two polls and a bounded number
      of events in all, and as long as the launcher is not done there is a next event. */
  lemma {:induction false} LauncherTerminates(calls: seq<ToolCall>, trace: seq<State>, events: seq<Event>, k: nat,
                             more: seq<State>, later: seq<Event>)
    requires IsProtocolRun(calls, trace, events) && k < |trace| && !Doomed(trace[k]) && OnlyLauncherLeft(trace[k])
    requires IsRun(more, later) && more[0] == trace[k] && forall e :: e in later ==> SystemEvent(e)
    ensures PollCount(more, later) <= 2 && |later| <= Rank(trace[k]) + 2
    ensures more[|later|].main != Done ==> Enabled(more[|later|], Main(true))
  {
    hide Doomed, Rank, Enabled;
    InitInv(calls);
    RunKeepsInv(trace, events, k);
    LauncherRun(more, later);
    var last := more[|later|];
    if last.main != Done { LauncherHasStep(last); }
  }

  lemma LauncherHasStep(s: State)
    requires Inv(s) && OnlyLauncherLeft(s) && s.main != Done
    ensures Enabled(s, Main(true))
  {
    LauncherNeverStuck(s);
  }

  /** If nobody clears the flag during the run, the protocol can always finish. */
  lemma {:induction false} NeverDoomedIfFlagKept(calls: seq<ToolCall>, trace: seq<State>, events: seq<Event>, k: nat)
    requires IsProtocolRun(calls, trace, events) && k < |trace|
    requires forall e :: e in events ==> e != ClearInterrupt
    ensures Inv(trace[k]) && !Doomed(trace[k])
  {
    if k == 0 {
      InitInv(calls);
    } else {
      NeverDoomedIfFlagKept(calls, trace, events, k - 1);
      assert events[k - 1] in events;
      assert trace[k - 1 + 1] == Apply(trace[k - 1], events[k - 1]);
      EventKeepsInv(trace[k - 1], events[k - 1]);
      if SystemEvent(events[k - 1]) { NotDoomedStays(trace[k - 1], events[k - 1]); }
    }
  }

  /** The first of two calls is started. */
  lemma FirstCallStarts(a: ToolCall, b: ToolCall) returns (s1: State, s2: State)
    requires ValidCall(a) && ValidCall(b)
    ensures MainEnabled(Init([a, b])) && s1 == MainStep(Init([a, b]), true)
    ensures MainEnabled(s1) && s2 == MainStep(s1, true)
    ensures s2.main == Launch && |s2.threads| == 1 && s2.reached == 1 && s2.calls == [a, b] && |s2.slots| == |s2.fate| == 2
  {
    var s0 := Init([a, b]);
    assert ValidCalls([a, b]) == {0, 1};
    s1 := MainStep(s0, true);
    assert s1.main == Creating && |s1.args| == 2 && s1.threads == [] && s1.reached == 0 && !s1.interrupt;
    s2 := MainStep(s1, true);
  }

  /** The bad interleaving does happen: two calls, Ctrl+C after the first thread started, and
      a new line submitted before the wait loop looks at the flag. */
  lemma {:induction false} DoomIsReachable(a: ToolCall, b: ToolCall) returns (trace: seq<State>, events: seq<Event>)
    requires ValidCall(a) && ValidCall(b)
    ensures IsProtocolRun([a, b], trace, events)
    ensures Doomed(trace[|events|])
  {
    events := [Main(true), Main(true), SetInterrupt, Main(true), Main(true), Main(true), ClearInterrupt];
    var s1, s2 := FirstCallStarts(a, b);
    hide Init, LaunchStep, CreateStep;
    var s3 := s2.(interrupt := true);
    assert LaunchStep(s3) == s3.(interrupted := true, main := Filling(1)) by { InterruptedLaunch(s3); }
    var s4 := s3.(interrupted := true, main := Filling(1));
    var s5 := FillStep(s4, 1);
    var s6 := FillStep(s5, 2);
    var s7 := s6.(interrupt := false);
    trace := [Init([a, b]), s1, s2, s3, s4, s5, s6, s7];
    assert s7.main == WaitCheck && s7.reached == 1 && ValidCall(s7.calls[1]);
  }

  lemma InterruptedLaunch(s: State)
    requires s.main == Launch && s.reached < |s.calls| && s.interrupt && MainEnabled(s)
    ensures LaunchStep(s) == s.(interrupted := true, main := Filling(s.reached))
  {
  }
}
