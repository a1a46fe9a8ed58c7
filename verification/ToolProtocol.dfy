/** The parallel tool execution protocol: the launching thread, the tool threads, their
    cancellation cleanup handlers, the completion tracker and the user's interrupt flag,
    as one state machine whose events interleave arbitrarily.

    Every event is one step between two points where another thread may run. A critical
    section of the tracker mutex is a single event. A thread that was asked to cancel may
    act on it before any of its steps, which allows at least every cancellation point the
    original has. */
module ToolProtocol {
  import opened Wrappers

  /** A tool call as the provider delivered it; either field may be missing. */
  datatype ToolCall = ToolCall(id: Option<string>, name: Option<string>)

  predicate ValidCall(c: ToolCall) { c.id.Some? && c.name.Some? }

  function IdOr(c: ToolCall): string { c.id.GetOr("unknown") }

  function ValidCalls(calls: seq<ToolCall>): set<nat> {
    set i: nat | i < |calls| && ValidCall(calls[i])
  }

  /** Which of the five texts a result carries. */
  datatype Outcome = Ran | CancelledWhileRunning | CancelledBeforeStart | StartFailed | Malformed

  /** A result slot: zeroed, typed but still without id and output, a tool response, or an
      image, which carries no tool id. */
  datatype Slot =
    | Untouched
    | Pending
    | Response(id: string, outcome: Outcome, isError: bool)
    | Image
  {
    predicate Failed() { Response? && isError }
  }

  /** The thread argument: the slot it points at, its copy of the call id, and the guard
      against a second notification. */
  datatype Arg = Arg(slot: nat, id: string, notified: bool)

  datatype ToolResult = ImageResult | JsonResult(hasError: bool)

  datatype ThreadPc =
    | Executing                    // inside execute_tool
    | Returned(result: ToolResult) // about to write its slot
    | Notifying                    // slot written, critical section next
    | InCallback                   // past the critical section, running the progress callback
    | CleanCheck                   // cleanup handler entered
    | CleanWrite(mayWrite: bool)   // has read `notified` under the mutex
    | CleanNotify
    | CleanCallback
    | Exited

  datatype Thread = Thread(pc: ThreadPc, cancelRequested: bool)

  datatype Tracker = Tracker(total: nat, completed: nat, errorCount: nat, cancelled: bool)

  /** What the progress callback is told in one critical section. */
  datatype Completion = Completion(slot: nat, number: nat, isError: bool)

  datatype MainPc =
    | Launch                 // head of the launch loop, at call `reached`
    | Filling(k: nat)        // interrupted: writing cancelled results from `reached` on
    | Creating               // args[started] is set up, pthread_create next
    | CancelStarted(k: nat)  // pthread_create failed: cancelling the threads already started
    | FailWrite
    | FailNotify
    | WaitCheck              // head of the wait loop: reads the interrupt flag
    | MarkCancelled
    | CancelAll(k: nat)
    | ResetFlag
    | WaitTest               // critical section: finished, or sleep
    | WaitSleep              // in the timed wait
    | Join(k: nat)
    | Done

  /** Bookkeeping that the C program does not have: what became of each call. */
  datatype Fate = NotReached | Rejected | Started(thread: nat) | NotStartable | Skipped

  datatype State = State(
    calls: seq<ToolCall>,
    slots: seq<Slot>,
    args: seq<Arg>,
    threads: seq<Thread>,      // the started threads; thread t owns args[t]
    tracker: Tracker,
    interrupt: bool,           // the shared interrupt_requested flag
    interrupted: bool,         // the launcher's local flag
    reached: nat,              // how many calls the launch loop has dealt with
    main: MainPc,
    fate: seq<Fate>,
    log: seq<Completion>)      // one entry for each time `completed` was raised

  datatype Move = Go | Return(result: ToolResult) | ActOnCancel

  datatype Event =
    | SetInterrupt             // Ctrl+C, or the worker being stopped
    | ClearInterrupt           // the user submits a new line
    | Main(createSucceeds: bool)
    | Step(t: nat, move: Move)

  function Init(calls: seq<ToolCall>): State {
    var n := |calls|;
    var total := |ValidCalls(calls)|;
    State(calls, seq(n, _ => Untouched), seq(total, _ => Arg(0, "", false)), [],
          Tracker(total, 0, 0, false), false, false, 0, Launch, seq(n, _ => NotReached), [])
  }

  /** The tracker after one more completion. */
  function Count(k: Tracker, failed: bool): Tracker {
    k.(completed := k.completed + 1, errorCount := k.errorCount + if failed then 1 else 0)
  }

  /** The critical section of tool_tracker_notify_completion. */
  function Notify(s: State, a: nat): State
    requires a < |s.args| && s.args[a].slot < |s.slots|
  {
    var arg := s.args[a];
    if arg.notified then s else
    var failed := s.slots[arg.slot].Failed();
    s.(args := s.args[a := arg.(notified := true)],
       tracker := Count(s.tracker, failed),
       log := s.log + [Completion(arg.slot, s.tracker.completed + 1, failed)])
  }

  /** Where the launcher goes once the launch loop is over. */
  function AfterLaunch(s: State): MainPc { if |s.threads| > 0 then WaitCheck else Join(0) }

  predicate Finished(k: Tracker) { k.cancelled || k.completed >= k.total }

  function RequestCancel(threads: seq<Thread>, k: nat): seq<Thread>
    requires k < |threads|
  {
    threads[k := threads[k].(cancelRequested := true)]
  }

  /** An access outside an array, undefined in C, is modelled as the absence of a step; that
      the launcher is never without a step is proved, not assumed. */
  predicate MainEnabled(s: State) {
    match s.main
    case Launch =>
      s.reached >= |s.calls| || (s.reached < |s.slots| && s.reached < |s.fate| &&
                                 (s.interrupt || !ValidCall(s.calls[s.reached]) || |s.threads| < |s.args|))
    case Filling(k) => k >= |s.calls| || (k < |s.slots| && k < |s.fate|)
    case Creating => |s.threads| < |s.args| && s.reached < |s.fate|
    case CancelStarted(_) => true
    case FailWrite => s.reached < |s.slots| && |s.threads| < |s.args|
    case FailNotify => |s.threads| < |s.args| && s.args[|s.threads|].slot < |s.slots| && s.reached < |s.fate|
    case Join(k) => k < |s.threads| ==> s.threads[k].pc == Exited
    case Done => false
    case _ => true
  }

  predicate ThreadEnabled(s: State, t: nat, move: Move) {
    && t < |s.threads| && t < |s.args| && s.args[t].slot < |s.slots|
    && match move
       case Return(_) => s.threads[t].pc == Executing
       case Go => s.threads[t].pc != Executing && s.threads[t].pc != Exited
       case ActOnCancel =>
         && s.threads[t].cancelRequested
         && (var pc := s.threads[t].pc; pc.Executing? || pc.Returned? || pc.Notifying? || pc.InCallback?)
  }

  predicate Enabled(s: State, e: Event) {
    match e
    case SetInterrupt => true
    case ClearInterrupt => true
    case Main(_) => MainEnabled(s)
    case Step(t, move) => ThreadEnabled(s, t, move)
  }

  function LaunchStep(s: State): State
    requires s.main == Launch && MainEnabled(s)
  {
    if s.reached >= |s.calls| then s.(main := AfterLaunch(s))
    else if s.interrupt then s.(interrupted := true, main := Filling(s.reached))
    else
      var call := s.calls[s.reached];
      if !ValidCall(call) then
        s.(slots := s.slots[s.reached := Response(IdOr(call), Malformed, true)],
           fate := s.fate[s.reached := Rejected],
           reached := s.reached + 1)
      else
        s.(slots := s.slots[s.reached := Pending],
           args := s.args[|s.threads| := Arg(s.reached, call.id.value, false)],
           main := Creating)
  }

  function FillStep(s: State, k: nat): State
    requires s.main == Filling(k) && MainEnabled(s)
  {
    if k >= |s.calls| then s.(main := AfterLaunch(s))
    else s.(slots := s.slots[k := Response(IdOr(s.calls[k]), CancelledBeforeStart, true)],
            fate := s.fate[k := Skipped],
            main := Filling(k + 1))
  }

  function CreateStep(s: State, succeeds: bool): State
    requires s.main == Creating && MainEnabled(s)
  {
    if succeeds then
      s.(threads := s.threads + [Thread(Executing, false)],
         fate := s.fate[s.reached := Started(|s.threads|)],
         reached := s.reached + 1,
         main := Launch)
    else s.(main := CancelStarted(0))
  }

  function FailNotifyStep(s: State): State
    requires s.main == FailNotify && MainEnabled(s)
  {
    Notify(s, |s.threads|).(fate := s.fate[s.reached := NotStartable],
                            reached := s.reached + 1,
                            main := Launch)
  }

  function MainStep(s: State, succeeds: bool): State
    requires MainEnabled(s)
  {
    match s.main
    case Launch => LaunchStep(s)
    case Filling(k) => FillStep(s, k)
    case Creating => CreateStep(s, succeeds)
    case CancelStarted(k) =>
      if k < |s.threads| then s.(threads := RequestCancel(s.threads, k), main := CancelStarted(k + 1))
      else s.(main := FailWrite)
    case FailWrite =>
      s.(slots := s.slots[s.reached := Response(s.args[|s.threads|].id, StartFailed, true)],
         main := FailNotify)
    case FailNotify => FailNotifyStep(s)
    case WaitCheck =>
      if s.interrupt then s.(interrupted := true, main := MarkCancelled) else s.(main := WaitTest)
    case MarkCancelled => s.(tracker := s.tracker.(cancelled := true), main := CancelAll(0))
    case CancelAll(k) =>
      if k < |s.threads| then s.(threads := RequestCancel(s.threads, k), main := CancelAll(k + 1))
      else s.(main := ResetFlag)
    case ResetFlag => s.(interrupt := false, main := Join(0))
    case WaitTest => s.(main := if Finished(s.tracker) then Join(0) else WaitSleep)
    case WaitSleep => s.(main := if Finished(s.tracker) then Join(0) else WaitCheck)
    case Join(k) =>
      if k < |s.threads| then s.(main := Join(k + 1))
      else s.(interrupt := if s.interrupted then false else s.interrupt, main := Done)
  }

  function AtPc(s: State, t: nat, pc: ThreadPc): State
    requires t < |s.threads|
  {
    s.(threads := s.threads[t := s.threads[t].(pc := pc)])
  }

  function ResultSlot(id: string, r: ToolResult): Slot {
    match r
    case ImageResult => Image
    case JsonResult(hasError) => Response(id, Ran, hasError)
  }

  function GoStep(s: State, t: nat): State
    requires ThreadEnabled(s, t, Go)
  {
    var arg := s.args[t];
    match s.threads[t].pc
    case Returned(r) => AtPc(s.(slots := s.slots[arg.slot := ResultSlot(arg.id, r)]), t, Notifying)
    case Notifying => AtPc(Notify(s, t), t, InCallback)
    case InCallback => AtPc(s, t, Exited)
    case CleanCheck => AtPc(s, t, CleanWrite(!arg.notified))
    case CleanWrite(mayWrite) =>
      var slots := if mayWrite then s.slots[arg.slot := Response(arg.id, CancelledWhileRunning, true)] else s.slots;
      AtPc(s.(slots := slots), t, CleanNotify)
    case CleanNotify => AtPc(Notify(s, t), t, CleanCallback)
    case CleanCallback => AtPc(s, t, Exited)
  }

  function ThreadStep(s: State, t: nat, move: Move): State
    requires ThreadEnabled(s, t, move)
  {
    match move
    case Return(r) => AtPc(s, t, Returned(r))
    case Go => GoStep(s, t)
    case ActOnCancel => AtPc(s, t, CleanCheck)
  }

  function Apply(s: State, e: Event): State
    requires Enabled(s, e)
  {
    match e
    case SetInterrupt => s.(interrupt := true)
    case ClearInterrupt => s.(interrupt := false)
    case Main(succeeds) => MainStep(s, succeeds)
    case Step(t, move) => ThreadStep(s, t, move)
  }

  /** `trace` lists the states of a run whose events are `events`. */
  ghost predicate IsRun(trace: seq<State>, events: seq<Event>) {
    && |trace| == |events| + 1
    && forall k :: 0 <= k < |events| ==> Enabled(trace[k], events[k]) && trace[k + 1] == Apply(trace[k], events[k])
  }

  /** A run of the protocol on `calls`, from its initial state. */
  ghost predicate IsProtocolRun(calls: seq<ToolCall>, trace: seq<State>, events: seq<Event>) {
    IsRun(trace, events) && trace[0] == Init(calls)
  }
}
