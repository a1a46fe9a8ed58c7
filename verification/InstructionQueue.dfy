/** The bounded instruction queue: what one pass through its critical sections does to an
    abstract queue, and the ring buffer that implements it. */
module InstructionQueue {
  import opened Wrappers
  import opened Ring

  /** A queued instruction; `text` is missing once it has been handed to a consumer. */
  datatype AIInstruction = AIInstruction(text: Option<string>, conversation: nat, priority: int)

  datatype Queue = Queue(items: seq<AIInstruction>, capacity: nat, shutdown: bool)

  datatype EnqueueOutcome = MustWait | Refused | Accepted
  datatype DequeueOutcome = Empty | Ended | Delivered(instruction: AIInstruction)

  /** What enqueue_instruction does between taking the mutex and giving it up again. */
  function Enqueue(q: Queue, x: AIInstruction): (Queue, EnqueueOutcome) {
    if |q.items| == q.capacity && !q.shutdown then (q, MustWait)
    else if q.shutdown then (q, Refused)
    else (q.(items := q.items + [x]), Accepted)
  }

  /** What dequeue_instruction does between taking the mutex and giving it up again. */
  function Dequeue(q: Queue): (Queue, DequeueOutcome) {
    if q.items == [] && !q.shutdown then (q, Empty)
    else if q.items == [] then (q, Ended)
    else (q.(items := q.items[1..]), Delivered(q.items[0]))
  }

  /** The texts held by a sequence of slots, in order. */
  function Texts(slots: seq<AIInstruction>): seq<string> { Held(TextFields(slots)) }

  function TextFields(slots: seq<AIInstruction>): seq<Option<string>> {
    seq(|slots|, i requires 0 <= i < |slots| => slots[i].text)
  }

  lemma WindowHoldsAllTexts(slots: seq<AIInstruction>, head: nat, tail: nat, count: nat)
    requires RingOk(slots, head, tail, count)
    ensures multiset(Texts(slots)) == multiset(Texts(Window(slots, tail, count)))
  {
    WindowHoldsAll(TextFields(slots), tail, count);
    assert Window(TextFields(slots), tail, count) == TextFields(Window(slots, tail, count));
  }

  /** The ring's indices agree, and exactly the live slots hold a text. */
  ghost predicate RingOk(slots: seq<AIInstruction>, head: nat, tail: nat, count: nat) {
    && |slots| > 0 && tail < |slots| && count <= |slots|
    && head == Index(tail, count, |slots|)
    && forall j: nat :: j < |slots| ==> (slots[j].text.Some? <==> InWindow(j, tail, count, |slots|))
  }

  lemma PushKeepsRing(slots: seq<AIInstruction>, head: nat, tail: nat, count: nat, x: AIInstruction)
    requires RingOk(slots, head, tail, count) && count < |slots| && x.text.Some?
    ensures RingOk(slots[head := x], Index(head, 1, |slots|), tail, count + 1)
    ensures Window(slots[head := x], tail, count + 1) == Window(slots, tail, count) + [x]
  {
    WindowPush(slots, tail, count, x);
  }

  lemma PopKeepsRing(slots: seq<AIInstruction>, head: nat, tail: nat, count: nat, x: AIInstruction)
    requires RingOk(slots, head, tail, count) && 0 < count && x.text.None?
    ensures RingOk(slots[tail := x], head, Index(tail, 1, |slots|), count - 1)
    ensures Window(slots, tail, count) == [slots[tail]] + Window(slots[tail := x], Index(tail, 1, |slots|), count - 1)
    ensures slots[tail].text.Some?
  {
    WindowPop(slots, tail, count, x);
  }

  class AIInstructionQueue {
    const instructions: array<AIInstruction>
    var head: nat
    var tail: nat
    var count: nat
    var shutdown: bool
    // Every instruction accepted and handed out so far.
    ghost var accepted: seq<AIInstruction>
    ghost var delivered: seq<AIInstruction>

    ghost var items: seq<AIInstruction> // the queued instructions, oldest first

    ghost predicate Valid()
      reads this, instructions
    {
      && RingOk(instructions[..], head, tail, count)
      && items == Window(instructions[..], tail, count)
      && accepted == delivered + items
    }

    ghost function View(): Queue
      reads this
    {
      Queue(items, instructions.Length, shutdown)
    }

    constructor (capacity: nat)
      requires capacity > 0
      ensures Valid() && fresh(instructions)
      ensures View() == Queue([], capacity, false) && accepted == []
    {
      instructions := new AIInstruction[capacity](_ => AIInstruction(None, 0, 0));
      head, tail, count, shutdown := 0, 0, 0, false;
      accepted, delivered, items := [], [], [];
    }

    /** A capacity of zero is refused. */
    static method Create(capacity: nat) returns (q: AIInstructionQueue?)
      ensures q == null <==> capacity == 0
      ensures q != null ==> fresh(q) && q.Valid() && q.View() == Queue([], capacity, false) && q.accepted == []
    {
      if capacity == 0 { return null; }
      q := new AIInstructionQueue(capacity);
    }

    /** One pass of enqueue_instruction. The caller signals `not_empty` when it is Accepted and
        waits on `not_full` when it must. */
    method EnqueuePass(text: string, conversation: nat) returns (outcome: EnqueueOutcome)
      requires Valid()
      modifies this`head, this`count, this`items, this`accepted, instructions
      ensures Valid()
      ensures (View(), outcome) == Enqueue(old(View()), AIInstruction(Some(text), conversation, 0))
      ensures accepted == old(accepted) + if outcome == Accepted then [AIInstruction(Some(text), conversation, 0)] else []
    {
      if count == instructions.Length && !shutdown {
        return MustWait;
      }
      if shutdown {
        return Refused;
      }
      ghost var slots := instructions[..];
      var instr := AIInstruction(Some(text), conversation, 0);
      PushKeepsRing(slots, head, tail, count, instr);
      instructions[head] := instr;
      assert instructions[..] == slots[head := instr];
      IndexIsMod(head, 1, instructions.Length);
      head := (head + 1) % instructions.Length;
      count := count + 1;
      accepted, items := accepted + [instr], items + [instr];
      outcome := Accepted;
    }

    method TakeOldest() returns (src: AIInstruction)
      requires Valid() && count > 0
      modifies this`tail, this`count, this`items, this`delivered, instructions
      ensures Valid()
      ensures old(items) == [src] + items && delivered == old(delivered) + [src]
    {
      hide Window, Index;
      ghost var slots := instructions[..];
      src := instructions[tail];
      PopKeepsRing(slots, head, tail, count, src.(text := None));
      instructions[tail] := src.(text := None);
      assert instructions[..] == slots[tail := src.(text := None)];
      IndexIsMod(tail, 1, instructions.Length);
      tail := (tail + 1) % instructions.Length;
      count := count - 1;
      delivered, items := delivered + [src], items[1..];
    }

    /** One pass of dequeue_instruction; on Delivered the caller signals `not_full`. */
    method DequeuePass() returns (outcome: DequeueOutcome)
      requires Valid()
      modifies this`tail, this`count, this`items, this`delivered, instructions
      ensures Valid()
      ensures (View(), outcome) == Dequeue(old(View()))
      ensures delivered == old(delivered) + if outcome.Delivered? then [outcome.instruction] else []
    {
      if count == 0 && !shutdown {
        return Empty;
      }
      if shutdown && count == 0 {
        return Ended;
      }
      var src := TakeOldest();
      assert old(items)[0] == src && old(items)[1..] == items;
      outcome := Delivered(src);
    }

    method Shutdown()
      requires Valid()
      modifies this`shutdown
      ensures Valid() && View() == old(View()).(shutdown := true)
    {
      shutdown := true;
    }

    method Depth() returns (depth: nat)
      requires Valid()
      ensures depth == |View().items|
    {
      depth := count;
    }

    /** Walks over every slot and frees its text: exactly the texts of the accepted instructions
        that were not delivered, each once. */
    method FreeAll() returns (freed: seq<string>)
      requires Valid()
      ensures multiset(freed) == multiset(Texts(View().items))
      ensures accepted == delivered + View().items
    {
      freed := [];
      ghost var slots := instructions[..];
      for i := 0 to instructions.Length
        invariant freed == Texts(slots[..i])
      {
        HeldAppend(TextFields(slots[..i]), TextFields([slots[i]]));
        assert TextFields(slots[..i + 1]) == TextFields(slots[..i]) + TextFields([slots[i]]);
        if instructions[i].text.Some? {
          freed := freed + [instructions[i].text.value];
        }
      }
      assert slots[..|slots|] == slots;
      WindowHoldsAllTexts(slots, head, tail, count);
    }
  }
}
