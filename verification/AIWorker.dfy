/** The worker thread as the queue's only consumer, with producers submitting and a controller
    stopping it, in any interleaving. */
module AIWorker {
  import opened Wrappers
  import opened InstructionQueue
  import QM = QueueMonitor

  datatype WorkerPc =
    | LoopHead
    | Dequeuing                 // inside dequeue_instruction, possibly parked
    | Got(x: AIInstruction)     // dequeued, about to look at `running` again
    | Cleared(x: AIInstruction) // has seen `running` set, about to call the handler
    | Handling(x: AIInstruction)
    | Exited

  datatype StopPc = NotStopping | RunningCleared | QueueShutDown | CancelSent

  datatype State = State(
    monitor: QM.Monitor,
    worker: nat,                  // the worker's thread
    pc: WorkerPc,
    running: bool,
    stop: StopPc,
    handled: seq<AIInstruction>,  // given to the handler, in order
    dropped: seq<AIInstruction>)  // dequeued but freed because `running` was cleared

  datatype Event =
    | Submit(e: QM.Event)         // a producer's pass, or any wakeup
    | CheckRunning
    | TryDequeue(wake: set<nat>)
    | RecheckRunning
    | CallHandler
    | HandlerReturns
    | CancelActs                  // cancellation delivered inside the handler
    | Stop                        // the next action of ai_worker_stop

  /** Queue events that are not the worker's own passes; there is no other consumer. */
  predicate Foreign(s: State, e: QM.Event) {
    match e
    case EnqueueCall(t, _, _) => t != s.worker
    case EnqueueResume(t, _) => t != s.worker
    case DequeueCall(_, _) => false
    case DequeueResume(_, _) => false
    case SpuriousConsumer(_) => true
    case SpuriousProducer(_) => true
    case Shutdown => false
  }

  function OwnPass(s: State, wake: set<nat>): QM.Event {
    if s.monitor.Outside(s.worker) then QM.DequeueCall(s.worker, wake) else QM.DequeueResume(s.worker, wake)
  }

  predicate Enabled(s: State, e: Event) {
    match e
    case Submit(q) => Foreign(s, q) && QM.Enabled(s.monitor, q)
    case CheckRunning => s.pc.LoopHead?
    case TryDequeue(wake) => s.pc.Dequeuing? && QM.Enabled(s.monitor, OwnPass(s, wake))
    case RecheckRunning => s.pc.Got?
    case CallHandler => s.pc.Cleared?
    case HandlerReturns => s.pc.Handling?
    case CancelActs => s.pc.Handling? && s.stop.CancelSent?
    case Stop => !s.stop.CancelSent?
  }

  function Apply(s: State, e: Event): State
    requires Enabled(s, e)
  {
    match e
    case Submit(q) => s.(monitor := QM.Apply(s.monitor, q))
    case CheckRunning => s.(pc := if s.running then Dequeuing else Exited)
    case TryDequeue(wake) =>
      var pc := match Dequeue(s.monitor.queue).1
        case Empty => Dequeuing
        case Ended => Exited
        case Delivered(x) => Got(x);
      s.(monitor := QM.Apply(s.monitor, OwnPass(s, wake)), pc := pc)
    case RecheckRunning =>
      if s.running then s.(pc := Cleared(s.pc.x)) else s.(pc := Exited, dropped := s.dropped + [s.pc.x])
    case CallHandler => s.(pc := Handling(s.pc.x), handled := s.handled + [s.pc.x])
    case HandlerReturns => s.(pc := LoopHead)
    case CancelActs => s.(pc := Exited)
    case Stop =>
      match s.stop
      case NotStopping => s.(running := false, stop := RunningCleared)
      case RunningCleared => s.(monitor := QM.Apply(s.monitor, QM.Shutdown), stop := QueueShutDown)
      case _ => s.(stop := CancelSent)
  }

  function Init(capacity: nat, worker: nat): State {
    State(QM.Init(capacity), worker, LoopHead, true, NotStopping, [], [])
  }

  ghost predicate IsWorkerRun(capacity: nat, worker: nat, trace: seq<State>, events: seq<Event>) {
    && capacity > 0 && |trace| == |events| + 1 && trace[0] == Init(capacity, worker)
    && forall k :: 0 <= k < |events| ==> Enabled(trace[k], events[k]) && trace[k + 1] == Apply(trace[k], events[k])
  }

  /** Dequeued and not yet handled or dropped. */
  function InHand(pc: WorkerPc): seq<AIInstruction> { if pc.Got? || pc.Cleared? then [pc.x] else [] }

  /** Only the worker ever waits as a consumer, and only inside its dequeue call. */
  ghost predicate PlaceOk(s: State) {
    && (forall t :: t in s.monitor.parkedConsumers || t in s.monitor.wokenConsumers ==> t == s.worker && s.pc.Dequeuing?)
    && s.worker !in s.monitor.pending
  }

  /** What was delivered is what was handled, dropped, or is in the worker's hand. */
  ghost predicate HandsOk(s: State) {
    && s.monitor.delivered == s.handled + s.dropped + InHand(s.pc)
    && |s.dropped| <= 1
    && (s.dropped != [] ==> s.pc.Exited?)
  }

  ghost predicate StopOk(s: State) {
    && (s.running <==> s.stop.NotStopping?)
    && (s.monitor.queue.shutdown <==> s.stop.QueueShutDown? || s.stop.CancelSent?)
  }

  ghost predicate Inv(s: State) {
    && QM.Inv(s.monitor)
    && PlaceOk(s)
    && HandsOk(s)
    && StopOk(s)
  }

  lemma PassIsDequeue(s: State, wake: set<nat>)
    requires QM.Enabled(s.monitor, OwnPass(s, wake))
    ensures QM.Apply(s.monitor, OwnPass(s, wake)) == QM.DequeueBy(s.monitor, s.worker, wake)
  {
  }

  lemma PassKeepsPlace(s: State, wake: set<nat>)
    requires QM.PlacesOk(s.monitor) && PlaceOk(s) && Enabled(s, TryDequeue(wake))
    ensures PlaceOk(Apply(s, TryDequeue(wake)))
  {
    hide QM.Apply;
    PassIsDequeue(s, wake);
  }

  lemma PassKeepsHands(s: State, wake: set<nat>)
    requires HandsOk(s) && StopOk(s) && Enabled(s, TryDequeue(wake))
    ensures HandsOk(Apply(s, TryDequeue(wake))) && StopOk(Apply(s, TryDequeue(wake)))
  {
    hide QM.Apply, QM.Enabled;
    PassIsDequeue(s, wake);
    var d := QM.DequeueBy(s.monitor, s.worker, wake);
    match Dequeue(s.monitor.queue).1
    case Delivered(x) => assert d.delivered == s.monitor.delivered + [x];
    case _ => assert d.delivered == s.monitor.delivered;
  }

  lemma PassKeepsInv(s: State, wake: set<nat>)
    requires Inv(s) && Enabled(s, TryDequeue(wake))
    ensures Inv(Apply(s, TryDequeue(wake)))
  {
    PassKeepsPlace(s, wake);
    PassKeepsHands(s, wake);
    hide PlaceOk, HandsOk, StopOk;
    QM.EventKeepsInv(s.monitor, OwnPass(s, wake));
  }

  /** A foreign event delivers nothing and does not shut the queue down. */
  lemma ForeignLeavesWorker(s: State, q: QM.Event)
    requires Foreign(s, q) && QM.Enabled(s.monitor, q)
    ensures QM.Apply(s.monitor, q).delivered == s.monitor.delivered
    ensures QM.Apply(s.monitor, q).queue.shutdown == s.monitor.queue.shutdown
  {
  }

  lemma ForeignKeepsPlace(s: State, q: QM.Event)
    requires PlaceOk(s) && Foreign(s, q) && QM.Enabled(s.monitor, q)
    ensures PlaceOk(s.(monitor := QM.Apply(s.monitor, q)))
  {
    match q
    case EnqueueCall(t, x, wake) => EnqueueKeepsPlace(s, t, x, wake);
    case EnqueueResume(t, wake) => EnqueueKeepsPlace(s, t, s.monitor.pending[t], wake);
    case SpuriousConsumer(t) =>
    case SpuriousProducer(t) =>
  }

  lemma EnqueueKeepsPlace(s: State, t: nat, x: AIInstruction, wake: set<nat>)
    requires PlaceOk(s) && t != s.worker && wake <= s.monitor.parkedConsumers
    ensures PlaceOk(s.(monitor := QM.EnqueueBy(s.monitor, t, x, wake)))
  {
  }

  lemma SubmitKeepsInv(s: State, q: QM.Event)
    requires Inv(s) && Enabled(s, Submit(q))
    ensures Inv(Apply(s, Submit(q)))
  {
    ForeignLeavesWorker(s, q);
    ForeignKeepsPlace(s, q);
    hide PlaceOk, QM.Apply, QM.Inv, QM.Enabled;
    QM.EventKeepsInv(s.monitor, q);
  }

  lemma StopKeepsInv(s: State)
    requires Inv(s) && Enabled(s, Stop)
    ensures Inv(Apply(s, Stop))
  {
    if s.stop.RunningCleared? {
      QM.EventKeepsInv(s.monitor, QM.Shutdown);
      var m := QM.Apply(s.monitor, QM.Shutdown);
      assert m.delivered == s.monitor.delivered && m.pending == s.monitor.pending;
    }
  }

  lemma EventKeepsInv(s: State, e: Event)
    requires Inv(s) && Enabled(s, e)
    ensures Inv(Apply(s, e))
  {
    hide QM.Inv;
    match e
    case Submit(q) => SubmitKeepsInv(s, q);
    case TryDequeue(wake) => PassKeepsInv(s, wake);
    case Stop => StopKeepsInv(s);
    case _ =>
  }

  lemma {:induction false} RunKeepsInv(capacity: nat, worker: nat, trace: seq<State>, events: seq<Event>, k: nat)
    requires IsWorkerRun(capacity, worker, trace, events) && k < |trace|
    ensures Inv(trace[k])
    decreases k
  {
    if k > 0 {
      RunKeepsInv(capacity, worker, trace, events, k - 1);
      EventKeepsInv(trace[k - 1], events[k - 1]);
      assert trace[k - 1 + 1] == Apply(trace[k - 1], events[k - 1]);
    }
  }

  /** At every moment, the instructions handled by the worker are a prefix of those accepted, in
      the order in which they were accepted, and all delivered ones but at most one have been
      handled. */
  lemma {:induction false} HandledInOrder(capacity: nat, worker: nat, trace: seq<State>, events: seq<Event>, k: nat)
    requires IsWorkerRun(capacity, worker, trace, events) && k < |trace|
    ensures trace[k].handled <= trace[k].monitor.delivered <= trace[k].monitor.accepted
    ensures |trace[k].monitor.delivered| <= |trace[k].handled| + 1
    ensures !trace[k].pc.Exited? && InHand(trace[k].pc) == [] ==> trace[k].handled == trace[k].monitor.delivered
  {
    RunKeepsInv(capacity, worker, trace, events, k);
  }

  /** One event after `running` was cleared: only the call of the handler that was already decided
      on handles anything, and the worker does not decide on another. */
  lemma EventAfterStop(s: State, e: Event)
    requires StopOk(s) && Enabled(s, e) && !s.running
    ensures var s' := Apply(s, e);
            && !s'.running
            && (s'.pc.Cleared? ==> s.pc == s'.pc)
            && s'.handled == s.handled + if s.pc.Cleared? && !s'.pc.Cleared? then [s.pc.x] else []
  {
    hide QM.Apply, QM.Enabled;
  }

  /** What ai_worker_stop stops, exactly. Once `running` is cleared, at most one more instruction
      is handled: the one for which the worker had already found `running` set, and it is handled
      as soon as the worker goes on from there. A worker that was anywhere else handles nothing
      more. */
  lemma {:induction false} StopIsFinalExactly(capacity: nat, worker: nat, trace: seq<State>, events: seq<Event>, j: nat, k: nat)
    requires IsWorkerRun(capacity, worker, trace, events) && j <= k < |trace| && !trace[j].running
    ensures !trace[k].running && (trace[k].pc.Cleared? ==> trace[j].pc == trace[k].pc)
    ensures trace[k].handled ==
            trace[j].handled + if trace[j].pc.Cleared? && !trace[k].pc.Cleared? then [trace[j].pc.x] else []
    decreases k
  {
    hide Enabled, Apply;
    if j < k {
      StopIsFinalExactly(capacity, worker, trace, events, j, k - 1);
      RunKeepsInv(capacity, worker, trace, events, k - 1);
      assert Enabled(trace[k - 1], events[k - 1]) && trace[k - 1 + 1] == Apply(trace[k - 1], events[k - 1]);
      EventAfterStop(trace[k - 1], events[k - 1]);
    }
  }

  /** What the worker may still take out of the queue once `running` is cleared: one instruction if it
      was waiting for one, and else none. */
  lemma {:induction false} StopTakesAtMostOne(capacity: nat, worker: nat, trace: seq<State>, events: seq<Event>, j: nat, k: nat)
    requires IsWorkerRun(capacity, worker, trace, events) && j <= k < |trace| && !trace[j].running
    ensures |trace[k].monitor.delivered| <= |trace[j].monitor.delivered| + if trace[j].pc.Dequeuing? && !trace[k].pc.Dequeuing? then 1 else 0
    ensures trace[k].pc.Dequeuing? ==> trace[j].pc.Dequeuing?
    decreases k
  {
    hide Enabled, Apply, QM.Apply;
    if j < k {
      StopTakesAtMostOne(capacity, worker, trace, events, j, k - 1);
      StopIsFinalExactly(capacity, worker, trace, events, j, k - 1);
      RunKeepsInv(capacity, worker, trace, events, k - 1);
      assert Enabled(trace[k - 1], events[k - 1]) && trace[k - 1 + 1] == Apply(trace[k - 1], events[k - 1]);
      TakesAfterStop(trace[k - 1], events[k - 1]);
    }
  }

  lemma TakesAfterStop(s: State, e: Event)
    requires Inv(s) && Enabled(s, e) && !s.running
    ensures var s' := Apply(s, e);
            && (s'.pc.Dequeuing? ==> s.pc.Dequeuing?)
            && |s'.monitor.delivered| <= |s.monitor.delivered| + if s.pc.Dequeuing? && !s'.pc.Dequeuing? then 1 else 0
  {
    hide QM.Apply, QM.Enabled, QM.Inv;
    match e
    case Submit(q) => ForeignTakesNothing(s, q);
    case TryDequeue(wake) => PassIsDequeue(s, wake); OwnPassTakes(s, wake);
    case Stop => ShutdownTakesNothing(s);
    case _ =>
  }

  lemma ForeignTakesNothing(s: State, q: QM.Event)
    requires Foreign(s, q) && QM.Enabled(s.monitor, q)
    ensures QM.Apply(s.monitor, q).delivered == s.monitor.delivered
  {
  }

  lemma OwnPassTakes(s: State, wake: set<nat>)
    requires QM.Enabled(s.monitor, OwnPass(s, wake))
    ensures QM.Apply(s.monitor, OwnPass(s, wake)).delivered ==
            s.monitor.delivered + match Dequeue(s.monitor.queue).1 case Delivered(x) => [x] case _ => []
  {
  }

  lemma ShutdownTakesNothing(s: State)
    ensures QM.Apply(s.monitor, QM.Shutdown).delivered == s.monitor.delivered
  {
  }

  /** An instruction handled after the stop: it was dequeued and the worker had just found
      `running` set. */
  lemma {:induction false} HandledAfterStop(x: AIInstruction) returns (trace: seq<State>, events: seq<Event>, j: nat)
    requires x.text.Some?
    ensures IsWorkerRun(1, 0, trace, events) && j < |trace|
    ensures !trace[j].running && trace[j].handled == [] && trace[|events|].handled == [x]
  {
    events := [CheckRunning, Submit(QM.EnqueueCall(1, x, {})), TryDequeue({}), RecheckRunning, Stop, CallHandler];
    j := 5;
    var s0 := Init(1, 0);
    var s1 := s0.(pc := Dequeuing);
    var s2 := s1.(monitor := QM.EnqueueBy(s1.monitor, 1, x, {}));
    assert s2.monitor.queue.items == [x] && s2.monitor.Outside(0);
    var s3 := s2.(monitor := QM.DequeueBy(s2.monitor, 0, {}), pc := Got(x));
    PassIsDequeue(s2, {});
    assert s3 == Apply(s2, TryDequeue({}));
    var s4 := s3.(pc := Cleared(x));
    var s5 := s4.(running := false, stop := RunningCleared);
    var s6 := s5.(pc := Handling(x), handled := [x]);
    trace := [s0, s1, s2, s3, s4, s5, s6];
  }

  /** The worker gives up only when it is stopped. */
  lemma {:induction false} ExitsOnlyWhenStopped(capacity: nat, worker: nat, trace: seq<State>, events: seq<Event>, k: nat)
    requires IsWorkerRun(capacity, worker, trace, events) && k < |trace|
    ensures trace[k].pc.Exited? ==> !trace[k].running
    decreases k
  {
    if k > 0 {
      hide Apply, Enabled, StopOk;
      ExitsOnlyWhenStopped(capacity, worker, trace, events, k - 1);
      assert StopOk(trace[k - 1]) by { RunKeepsInv(capacity, worker, trace, events, k - 1); }
      assert Enabled(trace[k - 1], events[k - 1]) && trace[k - 1 + 1] == Apply(trace[k - 1], events[k - 1]);
      ExitStep(trace[k - 1], events[k - 1]);
    }
  }

  lemma ExitStep(s: State, e: Event)
    requires StopOk(s) && Enabled(s, e) && (s.pc.Exited? ==> !s.running)
    ensures Apply(s, e).pc.Exited? ==> !Apply(s, e).running
  {
    hide QM.Apply, QM.Enabled;
  }

  /** And until then it does not idle: it waits only while nothing is queued, and otherwise has a
      next event of its own. */
  lemma {:induction false} WaitsOnlyForWork(capacity: nat, worker: nat, trace: seq<State>, events: seq<Event>, k: nat)
    requires IsWorkerRun(capacity, worker, trace, events) && k < |trace| && !trace[k].pc.Exited?
    ensures worker in trace[k].monitor.parkedConsumers ==>
              trace[k].monitor.accepted == trace[k].monitor.delivered && !trace[k].monitor.queue.shutdown
    ensures worker !in trace[k].monitor.parkedConsumers ==> exists e :: OwnEvent(e) && Enabled(trace[k], e)
  {
    hide Apply, Enabled;
    RunKeepsInv(capacity, worker, trace, events, k);
    SameWorker(capacity, worker, trace, events, k);
    var s := trace[k];
    if worker in s.monitor.parkedConsumers {
      ParkedMeansEmpty(s);
    } else {
      var e := UnparkedHasStep(s);
    }
  }

  lemma {:induction false} SameWorker(capacity: nat, worker: nat, trace: seq<State>, events: seq<Event>, k: nat)
    requires IsWorkerRun(capacity, worker, trace, events) && k < |trace|
    ensures trace[k].worker == worker
    decreases k
  {
    if k > 0 {
      SameWorker(capacity, worker, trace, events, k - 1);
      assert trace[k - 1 + 1] == Apply(trace[k - 1], events[k - 1]);
    }
  }

  lemma ParkedMeansEmpty(s: State)
    requires Inv(s) && s.worker in s.monitor.parkedConsumers
    ensures s.monitor.accepted == s.monitor.delivered && !s.monitor.queue.shutdown
  {
    assert s.monitor.wokenConsumers == {};
  }

  lemma UnparkedHasStep(s: State) returns (e: Event)
    requires Inv(s) && s.worker !in s.monitor.parkedConsumers && !s.pc.Exited?
    ensures OwnEvent(e) && Enabled(s, e)
  {
    match s.pc
    case LoopHead => e := CheckRunning;
    case Dequeuing =>
      e := TryDequeue(if s.monitor.queue.items != [] then s.monitor.parkedProducers else {});
    case Got(_) => e := RecheckRunning;
    case Cleared(_) => e := CallHandler;
    case Handling(_) => e := HandlerReturns;
  }

  /** How many of its own events the worker can still execute after the queue was shut down. */
  function StepsLeft(pc: WorkerPc): nat {
    match pc
    case Cleared(_) => 4
    case Handling(_) => 3
    case LoopHead => 2
    case Dequeuing => 2
    case Got(_) => 1
    case Exited => 0
  }

  predicate OwnEvent(e: Event) { !e.Submit? && !e.Stop? }

  lemma WorkerMovesOn(s: State, e: Event)
    requires StopOk(s) && s.monitor.queue.shutdown && Enabled(s, e)
    ensures OwnEvent(e) ==> StepsLeft(Apply(s, e).pc) < StepsLeft(s.pc)
    ensures !OwnEvent(e) ==> Apply(s, e).pc == s.pc
  {
    hide QM.Apply, QM.Enabled;
  }

  lemma WorkerHasStep(s: State) returns (e: Event)
    requires Inv(s) && s.monitor.queue.shutdown && !s.pc.Exited?
    ensures OwnEvent(e) && Enabled(s, e)
  {
    match s.pc
    case LoopHead => e := CheckRunning;
    case Dequeuing => e := TryDequeue({});
    case Got(_) => e := RecheckRunning;
    case Cleared(_) => e := CallHandler;
    case Handling(_) => e := HandlerReturns;
  }

  /** After the shutdown each event of the worker brings it nearer to its exit, and until it has
      exited it always has one: joining it terminates if the handler returns or is cancelled. */
  lemma {:induction false} ExitsAfterShutdown(capacity: nat, worker: nat, trace: seq<State>, events: seq<Event>, k: nat)
    requires IsWorkerRun(capacity, worker, trace, events) && k < |events| && trace[k].monitor.queue.shutdown
    ensures OwnEvent(events[k]) ==> StepsLeft(trace[k + 1].pc) < StepsLeft(trace[k].pc)
    ensures !OwnEvent(events[k]) ==> trace[k + 1].pc == trace[k].pc
    ensures !trace[k].pc.Exited? ==> exists e :: OwnEvent(e) && Enabled(trace[k], e)
  {
    hide Enabled, Apply, StepsLeft;
    RunKeepsInv(capacity, worker, trace, events, k);
    WorkerMovesOn(trace[k], events[k]);
    if !trace[k].pc.Exited? { var e := WorkerHasStep(trace[k]); }
  }
}
