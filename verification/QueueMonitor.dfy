/** The instruction queue as a monitor with two condition variables, shared by any number of
    producer and consumer threads. A pass through a critical section is one event; waking
    happens by signal, by broadcast at shutdown, or spuriously. */
module QueueMonitor {
  import opened Wrappers
  import opened InstructionQueue

  /** Threads are numbers; a thread in none of the four sets is outside the queue. A parked
      thread is in a condition wait; a woken one has left it but is not yet back in the critical
      section. `pending` is what each blocked producer wants to enqueue. */
  datatype Monitor = Monitor(
    queue: Queue,
    parkedConsumers: set<nat>,
    wokenConsumers: set<nat>,
    parkedProducers: set<nat>,
    wokenProducers: set<nat>,
    pending: map<nat, AIInstruction>,
    accepted: seq<AIInstruction>,  // in the order in which enqueue succeeded
    delivered: seq<AIInstruction>) // in the order in which dequeue handed them out
  {
    predicate Outside(t: nat) {
      t !in parkedConsumers && t !in wokenConsumers && t !in parkedProducers && t !in wokenProducers
    }
  }

  /** `wake` is the set of waiters that the signal of this event unblocks. */
  datatype Event =
    | EnqueueCall(t: nat, x: AIInstruction, wake: set<nat>)
    | EnqueueResume(t: nat, wake: set<nat>)
    | DequeueCall(t: nat, wake: set<nat>)
    | DequeueResume(t: nat, wake: set<nat>)
    | SpuriousConsumer(t: nat)
    | SpuriousProducer(t: nat)
    | Shutdown

  /** pthread_cond_signal unblocks at least one of the threads that wait, if any does. */
  predicate MayWake(signalled: bool, waiters: set<nat>, wake: set<nat>) {
    if signalled then wake <= waiters && (waiters != {} ==> wake != {}) else wake == {}
  }

  predicate Enabled(m: Monitor, e: Event) {
    match e
    case EnqueueCall(t, x, wake) =>
      m.Outside(t) && x.text.Some? && MayWake(Enqueue(m.queue, x).1 == Accepted, m.parkedConsumers, wake)
    case EnqueueResume(t, wake) =>
      && t in m.wokenProducers && t in m.pending
      && MayWake(Enqueue(m.queue, m.pending[t]).1 == Accepted, m.parkedConsumers, wake)
    case DequeueCall(t, wake) => m.Outside(t) && MayWake(Dequeue(m.queue).1.Delivered?, m.parkedProducers, wake)
    case DequeueResume(t, wake) => t in m.wokenConsumers && MayWake(Dequeue(m.queue).1.Delivered?, m.parkedProducers, wake)
    case SpuriousConsumer(t) => t in m.parkedConsumers
    case SpuriousProducer(t) => t in m.parkedProducers
    case Shutdown => true
  }

  /** One pass of enqueue_instruction by thread t, which is outside or woken. */
  function EnqueueBy(m: Monitor, t: nat, x: AIInstruction, wake: set<nat>): Monitor {
    var (queue, outcome) := Enqueue(m.queue, x);
    var left := m.(wokenProducers := m.wokenProducers - {t}, pending := m.pending - {t});
    match outcome
    case MustWait => left.(parkedProducers := m.parkedProducers + {t}, pending := m.pending[t := x])
    case Refused => left
    case Accepted =>
      left.(queue := queue,
            parkedConsumers := m.parkedConsumers - wake,
            wokenConsumers := m.wokenConsumers + wake,
            accepted := m.accepted + [x])
  }

  /** One pass of dequeue_instruction by thread t, which is outside or woken. */
  function DequeueBy(m: Monitor, t: nat, wake: set<nat>): Monitor {
    var (queue, outcome) := Dequeue(m.queue);
    var left := m.(wokenConsumers := m.wokenConsumers - {t});
    match outcome
    case Empty => left.(parkedConsumers := m.parkedConsumers + {t})
    case Ended => left
    case Delivered(x) =>
      left.(queue := queue,
            parkedProducers := m.parkedProducers - wake,
            wokenProducers := m.wokenProducers + wake,
            delivered := m.delivered + [x])
  }

  function Apply(m: Monitor, e: Event): Monitor
    requires Enabled(m, e)
  {
    match e
    case EnqueueCall(t, x, wake) => EnqueueBy(m, t, x, wake)
    case EnqueueResume(t, wake) => EnqueueBy(m, t, m.pending[t], wake)
    case DequeueCall(t, wake) => DequeueBy(m, t, wake)
    case DequeueResume(t, wake) => DequeueBy(m, t, wake)
    case SpuriousConsumer(t) =>
      m.(parkedConsumers := m.parkedConsumers - {t}, wokenConsumers := m.wokenConsumers + {t})
    case SpuriousProducer(t) =>
      m.(parkedProducers := m.parkedProducers - {t}, wokenProducers := m.wokenProducers + {t})
    case Shutdown =>
      m.(queue := m.queue.(shutdown := true),
         parkedConsumers := {}, wokenConsumers := m.wokenConsumers + m.parkedConsumers,
         parkedProducers := {}, wokenProducers := m.wokenProducers + m.parkedProducers)
  }

  function Init(capacity: nat): Monitor {
    Monitor(Queue([], capacity, false), {}, {}, {}, {}, map[], [], [])
  }

  ghost predicate IsRun(trace: seq<Monitor>, events: seq<Event>) {
    && |trace| == |events| + 1
    && forall k :: 0 <= k < |events| ==> Enabled(trace[k], events[k]) && trace[k + 1] == Apply(trace[k], events[k])
  }

  ghost predicate IsMonitorRun(capacity: nat, trace: seq<Monitor>, events: seq<Event>) {
    capacity > 0 && IsRun(trace, events) && trace[0] == Init(capacity)
  }

  /** Each thread is in at most one place, and exactly the blocked producers hold something. */
  ghost predicate PlacesOk(m: Monitor) {
    && m.parkedConsumers !! m.wokenConsumers && m.parkedProducers !! m.wokenProducers
    && (forall t :: t in m.pending <==> t in m.parkedProducers || t in m.wokenProducers)
    && (forall t :: t in m.pending ==> t !in m.parkedConsumers && t !in m.wokenConsumers)
  }

  /** Why no wakeup is lost: while a consumer is parked, enough woken ones are on their way to
      take every queued item; while a producer is parked, enough woken ones are on their way to
      fill every free slot; and nobody is parked after shutdown. */
  ghost predicate WakeupsOk(m: Monitor) {
    && (m.parkedConsumers != {} ==> |m.wokenConsumers| >= |m.queue.items|)
    && (m.parkedProducers != {} ==> |m.wokenProducers| >= m.queue.capacity - |m.queue.items|)
    && (m.queue.shutdown ==> m.parkedConsumers == {} && m.parkedProducers == {})
  }

  ghost predicate FifoOk(m: Monitor) {
    && 0 < m.queue.capacity && |m.queue.items| <= m.queue.capacity
    && m.accepted == m.delivered + m.queue.items
  }

  ghost predicate Inv(m: Monitor) {
    && FifoOk(m)
    && PlacesOk(m)
    && WakeupsOk(m)
  }

  lemma SizeWithout(a: set<nat>, t: nat)
    ensures |a - {t}| == if t in a then |a| - 1 else |a|
  {
    if t !in a { assert a - {t} == a; }
  }

  lemma SizeOfDisjointSum(a: set<nat>, b: set<nat>)
    requires a !! b
    ensures |a + b| == |a| + |b|
    ensures b != {} ==> |b| > 0
  {
  }

  lemma EnqueueKeepsPlaces(m: Monitor, t: nat, x: AIInstruction, wake: set<nat>)
    requires PlacesOk(m) && (m.Outside(t) || t in m.wokenProducers) && wake <= m.parkedConsumers
    ensures PlacesOk(EnqueueBy(m, t, x, wake))
  {
  }

  lemma EnqueueKeepsWakeups(m: Monitor, t: nat, x: AIInstruction, wake: set<nat>)
    requires FifoOk(m) && WakeupsOk(m) && m.parkedConsumers !! m.wokenConsumers
    requires MayWake(Enqueue(m.queue, x).1 == Accepted, m.parkedConsumers, wake)
    ensures WakeupsOk(EnqueueBy(m, t, x, wake))
  {
    SizeWithout(m.wokenProducers, t);
    SizeOfDisjointSum(m.wokenConsumers, wake);
    assert m.parkedConsumers == {} ==> m.parkedConsumers - wake == {};
  }

  lemma EnqueueKeepsFifo(m: Monitor, t: nat, x: AIInstruction, wake: set<nat>)
    requires FifoOk(m)
    ensures FifoOk(EnqueueBy(m, t, x, wake))
  {
  }

  lemma DequeueKeepsPlaces(m: Monitor, t: nat, wake: set<nat>)
    requires PlacesOk(m) && (m.Outside(t) || t in m.wokenConsumers) && wake <= m.parkedProducers
    ensures PlacesOk(DequeueBy(m, t, wake))
  {
  }

  lemma DequeueKeepsWakeups(m: Monitor, t: nat, wake: set<nat>)
    requires FifoOk(m) && WakeupsOk(m) && m.parkedProducers !! m.wokenProducers
    requires MayWake(Dequeue(m.queue).1.Delivered?, m.parkedProducers, wake)
    ensures WakeupsOk(DequeueBy(m, t, wake))
  {
    SizeWithout(m.wokenConsumers, t);
    SizeOfDisjointSum(m.wokenProducers, wake);
    assert m.parkedProducers == {} ==> m.parkedProducers - wake == {};
  }

  lemma DequeueKeepsFifo(m: Monitor, t: nat, wake: set<nat>)
    requires FifoOk(m)
    ensures FifoOk(DequeueBy(m, t, wake))
  {
  }

  lemma EnqueueKeepsInv(m: Monitor, t: nat, x: AIInstruction, wake: set<nat>)
    requires Inv(m) && (m.Outside(t) || t in m.wokenProducers)
    requires MayWake(Enqueue(m.queue, x).1 == Accepted, m.parkedConsumers, wake)
    ensures Inv(EnqueueBy(m, t, x, wake))
  {
    EnqueueKeepsFifo(m, t, x, wake);
    EnqueueKeepsPlaces(m, t, x, wake);
    EnqueueKeepsWakeups(m, t, x, wake);
  }

  lemma DequeueKeepsInv(m: Monitor, t: nat, wake: set<nat>)
    requires Inv(m) && (m.Outside(t) || t in m.wokenConsumers)
    requires MayWake(Dequeue(m.queue).1.Delivered?, m.parkedProducers, wake)
    ensures Inv(DequeueBy(m, t, wake))
  {
    DequeueKeepsFifo(m, t, wake);
    DequeueKeepsPlaces(m, t, wake);
    DequeueKeepsWakeups(m, t, wake);
  }

  lemma SpuriousConsumerKeepsInv(m: Monitor, t: nat)
    requires Inv(m) && t in m.parkedConsumers
    ensures Inv(Apply(m, SpuriousConsumer(t)))
  {
    SizeOfDisjointSum(m.wokenConsumers, {t});
  }

  lemma SpuriousProducerKeepsInv(m: Monitor, t: nat)
    requires Inv(m) && t in m.parkedProducers
    ensures Inv(Apply(m, SpuriousProducer(t)))
  {
    SizeOfDisjointSum(m.wokenProducers, {t});
  }

  lemma {:induction false} EventKeepsInv(m: Monitor, e: Event)
    requires Inv(m) && Enabled(m, e)
    ensures Inv(Apply(m, e)) && Apply(m, e).queue.capacity == m.queue.capacity
  {
    match e
    case EnqueueCall(t, x, wake) => EnqueueKeepsInv(m, t, x, wake);
    case EnqueueResume(t, wake) => EnqueueKeepsInv(m, t, m.pending[t], wake);
    case DequeueCall(t, wake) => DequeueKeepsInv(m, t, wake);
    case DequeueResume(t, wake) => DequeueKeepsInv(m, t, wake);
    case SpuriousConsumer(t) => SpuriousConsumerKeepsInv(m, t);
    case SpuriousProducer(t) => SpuriousProducerKeepsInv(m, t);
    case Shutdown =>
  }

  lemma {:induction false} RunKeepsInv(capacity: nat, trace: seq<Monitor>, events: seq<Event>, k: nat)
    requires IsMonitorRun(capacity, trace, events) && k < |trace|
    ensures Inv(trace[k]) && trace[k].queue.capacity == capacity
    decreases k
  {
    if k > 0 {
      RunKeepsInv(capacity, trace, events, k - 1);
      EventKeepsInv(trace[k - 1], events[k - 1]);
      assert trace[k - 1 + 1] == Apply(trace[k - 1], events[k - 1]);
    }
  }

  // ---------------------------------------------------------------- theorems over runs

  /** The queue is a bounded FIFO over every run: what was accepted is what was delivered
      followed by what is still queued, and the bound is never exceeded. */
  lemma {:induction false} BoundedFifo(capacity: nat, trace: seq<Monitor>, events: seq<Event>, k: nat)
    requires IsMonitorRun(capacity, trace, events) && k < |trace|
    ensures trace[k].accepted == trace[k].delivered + trace[k].queue.items
    ensures |trace[k].queue.items| <= capacity
    ensures trace[k].delivered <= trace[k].accepted
  {
    RunKeepsInv(capacity, trace, events, k);
  }

  /** No lost wakeup: a parked consumer and a queued item mean that a woken consumer exists whose
      next pass takes the oldest item; a parked producer and a free slot mean that a woken
      producer exists whose next pass is accepted. */
  lemma {:induction false} NoLostWakeup(capacity: nat, trace: seq<Monitor>, events: seq<Event>, k: nat)
    requires IsMonitorRun(capacity, trace, events) && k < |trace|
    ensures trace[k].parkedConsumers != {} && trace[k].queue.items != [] ==>
              exists t, wake :: Enabled(trace[k], DequeueResume(t, wake))
                && Apply(trace[k], DequeueResume(t, wake)).delivered == trace[k].delivered + [trace[k].queue.items[0]]
    ensures trace[k].parkedProducers != {} && |trace[k].queue.items| < capacity ==>
              exists t, wake :: Enabled(trace[k], EnqueueResume(t, wake))
                && Apply(trace[k], EnqueueResume(t, wake)).accepted == trace[k].accepted + [trace[k].pending[t]]
  {
    RunKeepsInv(capacity, trace, events, k);
    var m := trace[k];
    if m.parkedConsumers != {} && m.queue.items != [] {
      assert m.wokenConsumers != {};
      var t :| t in m.wokenConsumers;
      var e := DequeueResume(t, m.parkedProducers);
      assert Enabled(m, e) && Apply(m, e).delivered == m.delivered + [m.queue.items[0]];
    }
    if m.parkedProducers != {} && |m.queue.items| < capacity {
      assert m.wokenProducers != {};
      var t :| t in m.wokenProducers;
      var e := EnqueueResume(t, m.parkedConsumers);
      assert Enabled(m, e) && Apply(m, e).accepted == m.accepted + [m.pending[t]];
    }
  }

  /** Producers and consumers are never stuck on each other: while some of both are parked, at
      least `capacity` others have been woken. */
  lemma {:induction false} NeverBothStuck(capacity: nat, trace: seq<Monitor>, events: seq<Event>, k: nat)
    requires IsMonitorRun(capacity, trace, events) && k < |trace|
    requires trace[k].parkedConsumers != {} && trace[k].parkedProducers != {}
    ensures |trace[k].wokenConsumers| + |trace[k].wokenProducers| >= capacity > 0
  {
    RunKeepsInv(capacity, trace, events, k);
  }

  /** Once the queue is shut down it stays so, nobody is parked again, and nothing more is
      accepted; what is still queued can only be delivered. */
  lemma {:induction false} AfterShutdown(capacity: nat, trace: seq<Monitor>, events: seq<Event>, j: nat, k: nat)
    requires IsMonitorRun(capacity, trace, events) && j <= k < |trace| && trace[j].queue.shutdown
    ensures trace[k].queue.shutdown && trace[k].accepted == trace[j].accepted
    ensures trace[k].parkedConsumers == {} && trace[k].parkedProducers == {}
    ensures trace[j].delivered <= trace[k].delivered <= trace[j].accepted
    decreases k
  {
    RunKeepsInv(capacity, trace, events, k);
    if j < k {
      AfterShutdown(capacity, trace, events, j, k - 1);
      assert trace[k - 1 + 1] == Apply(trace[k - 1], events[k - 1]);
    }
  }

  /** After shutdown a woken thread's next pass gets it out of the queue for good: a producer
      empty-handed, a consumer with the oldest item while there is one. */
  lemma {:induction false} ResumeAfterShutdownLeaves(capacity: nat, trace: seq<Monitor>, events: seq<Event>, k: nat)
    requires IsMonitorRun(capacity, trace, events) && k < |events| && trace[k].queue.shutdown
    requires events[k].EnqueueResume? || events[k].DequeueResume?
    ensures trace[k + 1].Outside(events[k].t)
    ensures trace[k + 1].delivered == trace[k].delivered +
              if events[k].DequeueResume? && trace[k].queue.items != [] then [trace[k].queue.items[0]] else []
  {
    RunKeepsInv(capacity, trace, events, k);
    assert trace[k + 1] == Apply(trace[k], events[k]);
  }

  // ---------------------------------------------------------------- how each pass ends

  lemma {:induction false} ShutdownExactly(capacity: nat, trace: seq<Monitor>, events: seq<Event>, k: nat)
    requires IsMonitorRun(capacity, trace, events) && k < |trace|
    ensures trace[k].queue.shutdown <==> Shutdown in events[..k]
    decreases k
  {
    if k > 0 {
      ShutdownExactly(capacity, trace, events, k - 1);
      assert trace[k - 1 + 1] == Apply(trace[k - 1], events[k - 1]);
      assert events[..k] == events[..k - 1] + [events[k - 1]];
      OnlyShutdownShutsDown(trace[k - 1], events[k - 1]);
    }
  }

  lemma OnlyShutdownShutsDown(m: Monitor, e: Event)
    requires Enabled(m, e)
    ensures Apply(m, e).queue.shutdown <==> m.queue.shutdown || e == Shutdown
  {
  }

  /** A consumer parks if and only if there is nothing to take and no shutdown has happened; it takes
      the oldest item whenever there is one, and leaves empty-handed in no other case than after
      shutdown. */
  lemma {:induction false} ConsumerOutcomeExactly(capacity: nat, trace: seq<Monitor>, events: seq<Event>, k: nat)
    requires IsMonitorRun(capacity, trace, events) && k < |events|
    requires events[k].DequeueCall? || events[k].DequeueResume?
    ensures var m, m', t, over := trace[k], trace[k + 1], events[k].t, Shutdown in events[..k];
            && (t in m'.parkedConsumers <==> m.accepted == m.delivered && !over)
            && (m'.Outside(t) <==> m.delivered < m.accepted || over)
            && (m.delivered < m.accepted ==> m'.delivered == m.accepted[..|m.delivered| + 1])
            && (m.accepted == m.delivered ==> m'.delivered == m.delivered)
            && m'.accepted == m.accepted
  {
    RunKeepsInv(capacity, trace, events, k);
    ShutdownExactly(capacity, trace, events, k);
    assert trace[k + 1] == Apply(trace[k], events[k]) && Enabled(trace[k], events[k]);
    DequeueOutcome(trace[k], events[k]);
  }

  lemma DequeueOutcome(m: Monitor, e: Event)
    requires FifoOk(m) && PlacesOk(m) && Enabled(m, e) && (e.DequeueCall? || e.DequeueResume?)
    ensures var m', t, over := Apply(m, e), e.t, m.queue.shutdown;
            && (t in m'.parkedConsumers <==> m.accepted == m.delivered && !over)
            && (m'.Outside(t) <==> m.delivered < m.accepted || over)
            && (m.delivered < m.accepted ==> m'.delivered == m.accepted[..|m.delivered| + 1])
            && (m.accepted == m.delivered ==> m'.delivered == m.delivered)
            && m'.accepted == m.accepted
  {
    assert m.accepted == m.delivered <==> m.queue.items == [];
  }

  /** The instruction that the pass of a producer wants to enqueue. */
  function Wanted(m: Monitor, e: Event): AIInstruction
    requires Enabled(m, e) && (e.EnqueueCall? || e.EnqueueResume?)
  {
    if e.EnqueueCall? then e.x else m.pending[e.t]
  }

  /** A producer parks, with its instruction, if and only if the queue is full and no shutdown has
      happened; it is refused if and only if one has, and accepted otherwise. */
  lemma {:induction false} ProducerOutcomeExactly(capacity: nat, trace: seq<Monitor>, events: seq<Event>, k: nat)
    requires IsMonitorRun(capacity, trace, events) && k < |events|
    requires events[k].EnqueueCall? || events[k].EnqueueResume?
    ensures Enabled(trace[k], events[k])
    ensures var m, m', t, over := trace[k], trace[k + 1], events[k].t, Shutdown in events[..k];
            var full, x := |m.accepted| == |m.delivered| + capacity, Wanted(m, events[k]);
            && (t in m'.parkedProducers <==> full && !over)
            && (t in m'.parkedProducers ==> t in m'.pending && m'.pending[t] == x)
            && (m'.Outside(t) <==> !full || over)
            && m'.accepted == m.accepted + (if full || over then [] else [x])
            && m'.delivered == m.delivered
  {
    RunKeepsInv(capacity, trace, events, k);
    ShutdownExactly(capacity, trace, events, k);
    assert trace[k + 1] == Apply(trace[k], events[k]) && Enabled(trace[k], events[k]);
    EnqueueOutcome(trace[k], events[k]);
  }

  lemma EnqueueOutcome(m: Monitor, e: Event)
    requires FifoOk(m) && PlacesOk(m) && Enabled(m, e) && (e.EnqueueCall? || e.EnqueueResume?)
    ensures var m', t, over := Apply(m, e), e.t, m.queue.shutdown;
            var full, x := |m.accepted| == |m.delivered| + m.queue.capacity, Wanted(m, e);
            && (t in m'.parkedProducers <==> full && !over)
            && (t in m'.parkedProducers ==> t in m'.pending && m'.pending[t] == x)
            && (m'.Outside(t) <==> !full || over)
            && m'.accepted == m.accepted + (if full || over then [] else [x])
            && m'.delivered == m.delivered
  {
  }
}
