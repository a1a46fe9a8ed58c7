/** Where the results of a tool round come from: what each slot holds at the end, read off the
    events of the run, and which threads were asked to cancel. */
module ToolProtocolResults {
  import opened Wrappers
  import opened ToolProtocol
  import opened ToolProtocolInvariant
  import T = ToolProtocolTheorems

  // ---------------------------------------------------------------- the past of a thread

  /** The slot reports the result r of the call with this id. */
  predicate Reports(slot: Slot, id: string, r: ToolResult) {
    match r
    case ImageResult => slot.Image?
    case JsonResult(hasError) => slot.Response? && slot.id == id && slot.outcome == Ran && slot.isError == hasError
  }

  /** The event cancels thread t before it has announced its result. */
  predicate CutsOff(s: State, e: Event, t: nat) {
    e == Step(t, ActOnCancel) && t < |s.threads| && s.threads[t].pc != InCallback
  }

  /** What `back`, the result that has come back, and `cut` say about a thread. */
  predicate PastMatches(pc: ThreadPc, arg: Arg, slot: Slot, back: Option<ToolResult>, cut: bool) {
    match pc
    case Executing => back.None? && !cut
    case Returned(r) => back == Some(r) && !cut
    case Notifying => !cut && back.Some? && Reports(slot, arg.id, back.value)
    case InCallback => !cut && back.Some? && Reports(slot, arg.id, back.value)
    case CleanCallback => if cut then CancelledSlot(slot, arg.id) else back.Some? && Reports(slot, arg.id, back.value)
    case Exited => if cut then CancelledSlot(slot, arg.id) else back.Some? && Reports(slot, arg.id, back.value)
    case _ => cut == !arg.notified && (!cut ==> back.Some? && Reports(slot, arg.id, back.value))
  }

  predicate PastOk(s: State, t: nat, back: Option<ToolResult>, cut: bool) {
    && t < |s.threads| && t < |s.args| && s.args[t].slot < |s.slots|
    && PastMatches(s.threads[t].pc, s.args[t], s.slots[s.args[t].slot], back, cut)
  }

  function BackAfter(back: Option<ToolResult>, e: Event, t: nat): Option<ToolResult> {
    if e.Step? && e.t == t && e.move.Return? then Some(e.move.result) else back
  }

  // ---------------------------------------------------------------- single events

  /** What the other threads and the launcher leave alone. */
  predicate SameThread(s: State, s': State, t: nat)
    requires t < |s.threads| && t < |s.args| && s.args[t].slot < |s.slots|
  {
    && t < |s'.threads| && t < |s'.args| && s'.args[t] == s.args[t] && s'.threads[t].pc == s.threads[t].pc
    && |s'.slots| == |s.slots| && s'.slots[s.args[t].slot] == s.slots[s.args[t].slot]
  }

  lemma LauncherLeavesAlone(s: State, succeeds: bool, t: nat)
    requires Sizes(s) && MainOk(s) && MainEnabled(s) && t < |s.threads| && ThreadOwns(s, t)
    ensures SameThread(s, MainStep(s, succeeds), t)
  {
    LauncherWritesElsewhere(s, succeeds, t);
  }

  lemma LauncherWritesElsewhere(s: State, succeeds: bool, t: nat)
    requires MainEnabled(s) && t < |s.threads| && t < |s.args| && s.args[t].slot < |s.slots|
    requires s.args[t].slot < s.reached && (s.main.Filling? ==> s.reached <= s.main.k)
    ensures SameThread(s, MainStep(s, succeeds), t)
  {
    hide LaunchStep, FillStep, CreateStep, Notify, MainEnabled;
    match s.main
    case Launch => LaunchWritesElsewhere(s, t);
    case Filling(k) => FillWritesElsewhere(s, k, t);
    case Creating => CreateWritesElsewhere(s, succeeds, t);
    case FailNotify => NotNotified(s, t);
    case FailWrite => FailWritesElsewhere(s, t);
    case _ =>
  }

  lemma LaunchWritesElsewhere(s: State, t: nat)
    requires s.main == Launch && MainEnabled(s) && t < |s.threads| && t < |s.args| && s.args[t].slot < |s.slots| && s.args[t].slot < s.reached
    ensures SameThread(s, LaunchStep(s), t)
  {
  }

  lemma FillWritesElsewhere(s: State, k: nat, t: nat)
    requires s.main == Filling(k) && MainEnabled(s) && t < |s.threads| && t < |s.args| && s.args[t].slot < |s.slots|
    requires s.args[t].slot < s.reached <= k
    ensures SameThread(s, FillStep(s, k), t)
  {
  }

  lemma CreateWritesElsewhere(s: State, succeeds: bool, t: nat)
    requires s.main == Creating && MainEnabled(s) && t < |s.threads| && t < |s.args| && s.args[t].slot < |s.slots|
    ensures SameThread(s, CreateStep(s, succeeds), t)
  {
  }

  lemma FailWritesElsewhere(s: State, t: nat)
    requires s.main == FailWrite && MainEnabled(s) && t < |s.threads| && t < |s.args| && s.args[t].slot < |s.slots| && s.args[t].slot < s.reached
    ensures SameThread(s, MainStep(s, false), t)
  {
  }

  lemma NotNotified(s: State, t: nat)
    requires s.main == FailNotify && MainEnabled(s) && t < |s.threads| && t < |s.args| && s.args[t].slot < |s.slots|
    ensures SameThread(s, FailNotifyStep(s), t)
  {
    hide Notify;
    NotifyLeavesAlone(s, |s.threads|, t);
  }

  lemma NotifyLeavesAlone(s: State, a: nat, t: nat)
    requires a < |s.args| && s.args[a].slot < |s.slots| && t < |s.args| && t != a
    ensures var s' := Notify(s, a); s'.threads == s.threads && s'.slots == s.slots && |s'.args| == |s.args| && s'.args[t] == s.args[t]
  {
  }

  lemma OtherThreadLeavesAlone(s: State, u: nat, move: Move, t: nat)
    requires Sizes(s) && ThreadEnabled(s, u, move) && t < |s.threads| && ThreadOwns(s, t) && ThreadOwns(s, u) && u != t
    ensures SameThread(s, ThreadStep(s, u, move), t)
  {
    ThreadWritesElsewhere(s, u, move, t);
  }

  lemma ThreadWritesElsewhere(s: State, u: nat, move: Move, t: nat)
    requires ThreadEnabled(s, u, move) && t < |s.threads| && t < |s.args| && s.args[t].slot < |s.slots|
    requires u != t && s.args[u].slot != s.args[t].slot
    ensures SameThread(s, ThreadStep(s, u, move), t)
  {
    hide Notify;
    if move == Go { NotifyLeavesAlone(s, u, t); }
  }

  lemma OthersLeaveAlone(s: State, e: Event, t: nat)
    requires Inv(s) && Enabled(s, e) && t < |s.threads| && !(e.Step? && e.t == t)
    ensures s.args[t].slot < |s.slots| && SameThread(s, Apply(s, e), t)
  {
    hide ThreadOwns, MainOk, LogOk, PcMatches, MainStep, ThreadStep, CallOk, ValidCalls, StartedCalls, MainEnabled;
    assert ThreadOk(s, t);
    assert s.args[t].slot < |s.slots| by { OwnSlot(s, t); }
    match e
    case Main(succeeds) => LauncherLeavesAlone(s, succeeds, t);
    case Step(u, move) =>
      assert ThreadOk(s, u);
      OtherThreadLeavesAlone(s, u, move, t);
    case _ =>
  }

  lemma OwnSlot(s: State, t: nat)
    requires Sizes(s) && t < |s.threads| && ThreadOwns(s, t)
    ensures s.args[t].slot < |s.slots|
  {
  }

  /** A thread's own event on its own part of the state. */
  lemma OwnEventKeepsPast(s: State, t: nat, move: Move, back: Option<ToolResult>, cut: bool)
    requires ThreadEnabled(s, t, move) && PastOk(s, t, back, cut)
    requires PcMatches(s.args[t], s.slots[s.args[t].slot], s.threads[t].pc)
    ensures var e := Step(t, move); PastOk(ThreadStep(s, t, move), t, BackAfter(back, e, t), cut || CutsOff(s, e, t))
  {
    if move == Go { OwnGoKeepsPast(s, t, back, cut); }
  }

  lemma OwnGoKeepsPast(s: State, t: nat, back: Option<ToolResult>, cut: bool)
    requires ThreadEnabled(s, t, Go) && PastOk(s, t, back, cut)
    requires PcMatches(s.args[t], s.slots[s.args[t].slot], s.threads[t].pc)
    ensures PastOk(GoStep(s, t), t, back, cut)
  {
  }

  // ---------------------------------------------------------------- results over whole runs

  /** Within the first k events thread t's tool came back with r. */
  ghost predicate CameBack(events: seq<Event>, k: nat, t: nat, r: ToolResult)
    requires k <= |events|
  {
    exists j :: 0 <= j < k && events[j] == Step(t, Return(r))
  }

  /** Within the first k events thread t was cancelled before it had announced its result. */
  ghost predicate WasCutOff(trace: seq<State>, events: seq<Event>, k: nat, t: nat)
    requires k <= |events| < |trace|
  {
    exists j :: 0 <= j < k && CutsOff(trace[j], events[j], t)
  }

  /** Thread t was created for call i. */
  ghost predicate LaunchedFor(trace: seq<State>, events: seq<Event>, k: nat, t: nat, i: nat)
    requires k <= |events| < |trace|
  {
    exists j :: 0 <= j < k && Creates(trace[j], events[j], t, i)
  }

  predicate Creates(s: State, e: Event, t: nat, i: nat) {
    e == Main(true) && s.main == Creating && |s.threads| == t && s.reached == i
  }

  lemma ThreadsStay(s: State, e: Event)
    requires Enabled(s, e)
    ensures |s.threads| <= |Apply(s, e).threads|
    ensures |s.threads| < |Apply(s, e).threads| ==>
              && Creates(s, e, |s.threads|, s.reached) && |Apply(s, e).threads| == |s.threads| + 1
              && Apply(s, e).threads[|s.threads|] == Thread(Executing, false)
  {
    hide MainStep, GoStep, ValidCalls, StartedCalls, MainEnabled;
    match e
    case Main(succeeds) => LauncherAddsThreads(s, succeeds);
    case Step(t, move) => if move == Go { GoAddsNone(s, t); }
    case _ =>
  }

  lemma LauncherAddsThreads(s: State, succeeds: bool)
    requires MainEnabled(s)
    ensures var s' := MainStep(s, succeeds);
            if s.main == Creating && succeeds then s'.threads == s.threads + [Thread(Executing, false)]
            else |s'.threads| == |s.threads|
  {
    hide Notify;
    if s.main.FailNotify? { NotifyAddsNone(s, |s.threads|); }
  }

  lemma NotifyAddsNone(s: State, a: nat)
    requires a < |s.args| && s.args[a].slot < |s.slots|
    ensures Notify(s, a).threads == s.threads
  {
  }

  lemma GoAddsNone(s: State, t: nat)
    requires ThreadEnabled(s, t, Go)
    ensures |GoStep(s, t).threads| == |s.threads|
  {
  }

  lemma {:induction false} ThreadsGrow(trace: seq<State>, events: seq<Event>, j: nat, k: nat)
    requires IsRun(trace, events) && j <= k < |trace|
    ensures |trace[j].threads| <= |trace[k].threads|
    decreases k - j
  {
    hide Apply, Enabled;
    if j < k {
      ThreadsGrow(trace, events, j, k - 1);
      assert Enabled(trace[k - 1], events[k - 1]);
      ThreadsStay(trace[k - 1], events[k - 1]);
      assert trace[k - 1 + 1] == Apply(trace[k - 1], events[k - 1]);
    }
  }

  /** A thread that does not exist yet has no past. */
  lemma NothingBefore(trace: seq<State>, events: seq<Event>, k: nat, t: nat)
    requires IsRun(trace, events) && k < |trace| && |trace[k].threads| <= t
    ensures forall r :: !CameBack(events, k, t, r)
    ensures !WasCutOff(trace, events, k, t)
  {
    forall j | 0 <= j < k ensures |trace[j].threads| <= t && Enabled(trace[j], events[j]) { ThreadsGrow(trace, events, j, k); }
  }

  lemma {:induction false} PastOfThread(trace: seq<State>, events: seq<Event>, k: nat, t: nat) returns (back: Option<ToolResult>)
    requires IsRun(trace, events) && Inv(trace[0]) && trace[0].threads == [] && k < |trace| && t < |trace[k].threads|
    ensures forall r :: CameBack(events, k, t, r) <==> back == Some(r)
    ensures PastOk(trace[k], t, back, WasCutOff(trace, events, k, t))
    ensures LaunchedFor(trace, events, k, t, trace[k].args[t].slot)
    decreases k
  {
    hide Apply, Enabled, PastOk, Inv;
    RunKeepsInv(trace, events, k - 1);
    RunKeepsInv(trace, events, k);
    var s, e := trace[k - 1], events[k - 1];
    assert trace[k - 1 + 1] == Apply(s, e) && Enabled(s, e);
    ArgsOfThreads(s);
    ArgsOfThreads(trace[k]);
    if t < |s.threads| {
      var before := PastOfThread(trace, events, k - 1, t);
      back := BackAfter(before, e, t);
      EventKeepsPast(s, e, t, before, WasCutOff(trace, events, k - 1, t));
      CutOffStep(trace, events, k, t);
      CameBackStep(events, k, t, before);
      assert LaunchedFor(trace, events, k - 1, t, s.args[t].slot);
    } else {
      back := None;
      NothingBefore(trace, events, k - 1, t);
      NewThread(s, e, t);
      CutOffStep(trace, events, k, t);
      CameBackStep(events, k, t, None);
      assert Creates(trace[k - 1], events[k - 1], t, trace[k].args[t].slot);
    }
  }

  lemma ArgsOfThreads(s: State)
    requires Inv(s)
    ensures |s.threads| <= |s.args|
  {
  }

  lemma CutOffStep(trace: seq<State>, events: seq<Event>, k: nat, t: nat)
    requires 0 < k <= |events| < |trace|
    ensures WasCutOff(trace, events, k, t) <==> WasCutOff(trace, events, k - 1, t) || CutsOff(trace[k - 1], events[k - 1], t)
  {
    hide CutsOff;
  }

  lemma CameBackStep(events: seq<Event>, k: nat, t: nat, before: Option<ToolResult>)
    requires 0 < k <= |events| && forall r :: CameBack(events, k - 1, t, r) <==> before == Some(r)
    requires events[k - 1].Step? && events[k - 1].t == t && events[k - 1].move.Return? ==> before == None
    ensures forall r :: CameBack(events, k, t, r) <==> BackAfter(before, events[k - 1], t) == Some(r)
  {
    forall r ensures CameBack(events, k, t, r) <==> CameBack(events, k - 1, t, r) || events[k - 1] == Step(t, Return(r)) {}
  }

  lemma EventKeepsPast(s: State, e: Event, t: nat, back: Option<ToolResult>, cut: bool)
    requires Inv(s) && Enabled(s, e) && t < |s.threads| && PastOk(s, t, back, cut)
    ensures PastOk(Apply(s, e), t, BackAfter(back, e, t), cut || CutsOff(s, e, t))
    ensures Apply(s, e).args[t].slot == s.args[t].slot
    ensures e.Step? && e.t == t && e.move.Return? ==> back == None
  {
    hide ThreadOwns, MainOk, LogOk, PcMatches, MainStep, CallOk, ValidCalls, StartedCalls, MainEnabled, GoStep;
    assert ThreadOk(s, t);
    if e.Step? && e.t == t {
      OwnEventKeepsPast(s, t, e.move, back, cut);
      OwnArg(s, t, e.move);
    } else {
      OthersLeaveAlone(s, e, t);
    }
  }

  lemma OwnArg(s: State, t: nat, move: Move)
    requires ThreadEnabled(s, t, move)
    ensures ThreadStep(s, t, move).args[t].slot == s.args[t].slot
  {
  }

  lemma NewThread(s: State, e: Event, t: nat)
    requires Inv(s) && Enabled(s, e) && |s.threads| <= t < |Apply(s, e).threads| && Inv(Apply(s, e))
    ensures PastOk(Apply(s, e), t, None, false) && Creates(s, e, t, Apply(s, e).args[t].slot) && !CutsOff(s, e, t)
    ensures !(e.Step? && e.t == t)
  {
    hide LogOk, CallOk, ValidCalls, StartedCalls, PcMatches;
    ThreadsStay(s, e);
    var s' := Apply(s, e);
    assert ThreadOk(s', t);
    OwnSlot(s', t);
  }

  /** At the end a started thread has left the cancellation error in its call's slot if and only if
      it was cancelled before it had announced its result; otherwise the slot reports r if and only
      if r is what its tool came back with. */
  lemma {:induction false} ThreadLeavesItsResult(calls: seq<ToolCall>, trace: seq<State>, events: seq<Event>, k: nat, t: nat)
    requires IsProtocolRun(calls, trace, events) && k < |trace| && trace[k].main == Done
    requires t < |trace[k].threads| <= |trace[k].args|
    ensures var s, i := trace[k], trace[k].args[t].slot;
            && i < |calls| && i < |s.slots| && LaunchedFor(trace, events, k, t, i)
            && (s.slots[i] == Response(IdOr(calls[i]), CancelledWhileRunning, true) <==> WasCutOff(trace, events, k, t))
            && forall r :: Reports(s.slots[i], IdOr(calls[i]), r) <==> CameBack(events, k, t, r) && !WasCutOff(trace, events, k, t)
  {
    hide LogOk, CallOk, PcMatches, LaunchedFor, CameBack, WasCutOff, IsRun;
    InitInv(calls);
    RunKeepsInv(trace, events, k);
    T.CallsNeverChange(calls, trace, events, k);
    var back := PastOfThread(trace, events, k, t);
    var s := trace[k];
    assert ThreadOk(s, t);
  }

  /** A slot at the end reports r if and only if some thread
      was created for its call, came back with exactly r, and was not cut off before saying so. */
  lemma {:induction false} ResultsComeFromTools(calls: seq<ToolCall>, trace: seq<State>, events: seq<Event>, k: nat, i: nat, r: ToolResult)
    requires IsProtocolRun(calls, trace, events) && k < |trace| && trace[k].main == Done && i < |calls|
    ensures |trace[k].slots| == |calls| && |trace[k].threads| <= |trace[k].args|
    ensures Reports(trace[k].slots[i], IdOr(calls[i]), r) <==>
            exists t: nat :: t < |trace[k].threads| && trace[k].args[t].slot == i &&
                             CameBack(events, k, t, r) && !WasCutOff(trace, events, k, t)
  {
    assert k <= |events| < |trace|;
    hide LogOk, PcMatches, LaunchedFor, CameBack, WasCutOff, IsRun;
    InitInv(calls);
    RunKeepsInv(trace, events, k);
    T.CallsNeverChange(calls, trace, events, k);
    var s := trace[k];
    forall t: nat | t < |s.threads| && s.args[t].slot == i
      ensures Reports(s.slots[i], IdOr(calls[i]), r) <==> CameBack(events, k, t, r) && !WasCutOff(trace, events, k, t)
    {
      ThreadLeavesItsResult(calls, trace, events, k, t);
    }
    if Reports(s.slots[i], IdOr(calls[i]), r) {
      assert CallOk(s, i);
      var t := s.fate[i].thread;
      assert t < |s.threads| && s.args[t].slot == i;
    }
  }
}
