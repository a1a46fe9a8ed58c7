/** The TUI message queue: a ring that drops its oldest message when it is full, and the
    ownership of the text buffers that pass through it. */
module TuiQueue {
  import opened Wrappers
  import opened Ring

  datatype MessageType = AddLine | Status | Clear | Error | TodoUpdate | TokenUpdate

  /** A heap-allocated copy of a text; `id` tells allocations with equal text apart. */
  datatype Buffer = Buffer(id: nat, text: string)

  datatype TUIMessage = TUIMessage(
    kind: MessageType, text: Option<Buffer>, priority: int,
    promptTokens: int, completionTokens: int, cachedTokens: int)

  /** What poll and wait copy out of a message: not the token counts. */
  datatype Received = Received(kind: MessageType, text: Option<Buffer>, priority: int)

  function Receive(m: TUIMessage): Received { Received(m.kind, m.text, m.priority) }

  datatype WaitOutcome = MustWait | ShutDown | Got(message: Received)

  /** The last n elements of s, or all of it. */
  function LastOf<T>(s: seq<T>, n: nat): seq<T> { if |s| <= n then s else s[|s| - n..] }

  function TextFields(slots: seq<TUIMessage>): seq<Option<Buffer>> {
    seq(|slots|, i requires 0 <= i < |slots| => slots[i].text)
  }

  /** The buffers owned by a sequence of messages. */
  function Texts(slots: seq<TUIMessage>): seq<Buffer> { Held(TextFields(slots)) }

  function AsSeq<T>(o: Option<T>): seq<T> { match o case Some(x) => [x] case None => [] }

  lemma TextsAppend(a: seq<TUIMessage>, b: seq<TUIMessage>)
    ensures Texts(a + b) == Texts(a) + Texts(b)
  {
    assert TextFields(a + b) == TextFields(a) + TextFields(b);
    HeldAppend(TextFields(a), TextFields(b));
  }

  lemma TextsOne(m: TUIMessage)
    ensures Texts([m]) == AsSeq(m.text)
  {
    assert TextFields([m]) == [m.text];
    assert Held([m.text]) == AsSeq(m.text) + Held<Buffer>([]);
  }

  lemma TextsPop(w: seq<TUIMessage>)
    requires w != []
    ensures Texts(w) == AsSeq(w[0].text) + Texts(w[1..])
  {
    assert w == [w[0]] + w[1..];
    TextsAppend([w[0]], w[1..]);
    TextsOne(w[0]);
  }

  /** The ring's indices agree, and no slot outside the live window holds a text. */
  ghost predicate RingOk(slots: seq<TUIMessage>, head: nat, tail: nat, count: nat) {
    && |slots| > 0 && tail < |slots| && count <= |slots|
    && head == Index(tail, count, |slots|)
    && forall j: nat :: j < |slots| && !InWindow(j, tail, count, |slots|) ==> slots[j].text.None?
  }

  lemma PushKeepsRing(slots: seq<TUIMessage>, head: nat, tail: nat, count: nat, x: TUIMessage)
    requires RingOk(slots, head, tail, count) && count < |slots|
    ensures RingOk(slots[head := x], Index(head, 1, |slots|), tail, count + 1)
    ensures Window(slots[head := x], tail, count + 1) == Window(slots, tail, count) + [x]
  {
    WindowPush(slots, tail, count, x);
  }

  lemma PopKeepsRing(slots: seq<TUIMessage>, head: nat, tail: nat, count: nat, x: TUIMessage)
    requires RingOk(slots, head, tail, count) && 0 < count && x.text.None?
    ensures RingOk(slots[tail := x], head, Index(tail, 1, |slots|), count - 1)
    ensures Window(slots, tail, count) == [slots[tail]] + Window(slots[tail := x], Index(tail, 1, |slots|), count - 1)
  {
    WindowPop(slots, tail, count, x);
  }

  /** Each issued buffer has exactly one owner: a live slot, a receiver, or the heap again. */
  ghost predicate Owned(issued: seq<Buffer>, live: seq<Buffer>, handedOut: seq<Buffer>, freed: seq<Buffer>) {
    && (forall k :: 0 <= k < |issued| ==> issued[k].id == k)
    && multiset(issued) == multiset(live) + multiset(handedOut) + multiset(freed)
  }

  lemma IssueKeepsOwned(issued: seq<Buffer>, live: seq<Buffer>, handedOut: seq<Buffer>, freed: seq<Buffer>, x: Option<Buffer>)
    requires Owned(issued, live, handedOut, freed) && (x.Some? ==> x.value.id == |issued|)
    ensures Owned(issued + AsSeq(x), live + AsSeq(x), handedOut, freed)
  {
  }

  lemma HandOverKeepsOwned(issued: seq<Buffer>, x: Option<Buffer>, live: seq<Buffer>, handedOut: seq<Buffer>, freed: seq<Buffer>)
    requires Owned(issued, AsSeq(x) + live, handedOut, freed)
    ensures Owned(issued, live, handedOut + AsSeq(x), freed)
    ensures Owned(issued, live, handedOut, freed + AsSeq(x))
  {
  }

  class TUIMessageQueue {
    const messages: array<TUIMessage>
    var head: nat
    var tail: nat
    var count: nat
    var shutdown: bool
    var nextBuffer: nat // stands for the address of the next allocation
    // Every text buffer ever copied for this queue, and where those went that are not queued.
    ghost var issued: seq<Buffer>
    ghost var handedOut: seq<Buffer>
    ghost var freed: seq<Buffer>

    ghost var contents: seq<TUIMessage> // the queued messages, oldest first

    ghost predicate Valid()
      reads this, messages
    {
      && RingOk(messages[..], head, tail, count)
      && contents == Window(messages[..], tail, count)
      && |issued| == nextBuffer
      && Owned(issued, Texts(contents), handedOut, freed)
    }

    constructor (capacity: nat)
      requires capacity > 0
      ensures Valid() && fresh(messages) && messages.Length == capacity
      ensures contents == [] && !shutdown && issued == handedOut == freed == []
    {
      messages := new TUIMessage[capacity](_ => TUIMessage(AddLine, None, 0, 0, 0, 0));
      head, tail, count, shutdown, nextBuffer := 0, 0, 0, false, 0;
      issued, handedOut, freed, contents := [], [], [], [];
      new;
      assert TextFields(contents) == [];
    }

    /** A capacity of zero is refused. */
    static method Create(capacity: nat) returns (q: TUIMessageQueue?)
      ensures q == null <==> capacity == 0
      ensures q != null ==> fresh(q) && q.Valid() && q.messages.Length == capacity && q.contents == []
    {
      if capacity == 0 { return null; }
      q := new TUIMessageQueue(capacity);
    }

    /** Takes the oldest message out of its slot; what becomes of its text is up to the caller. */
    method TakeOldest() returns (src: TUIMessage)
      requires RingOk(messages[..], head, tail, count) && contents == Window(messages[..], tail, count) && count > 0
      modifies this`tail, this`count, this`contents, messages
      ensures RingOk(messages[..], head, tail, count) && contents == Window(messages[..], tail, count)
      ensures old(contents) == [src] + contents
    {
      ghost var slots := messages[..];
      src := messages[tail];
      PopKeepsRing(slots, head, tail, count, src.(text := None));
      messages[tail] := src.(text := None);
      assert messages[..] == slots[tail := src.(text := None)];
      IndexIsMod(tail, 1, messages.Length);
      tail := (tail + 1) % messages.Length;
      count := count - 1;
      contents := contents[1..];
    }

    /** Frees the oldest message's text and forgets the message. */
    method DropOldest()
      requires Valid() && count > 0
      modifies this`tail, this`count, this`freed, this`contents, messages
      ensures Valid()
      ensures contents == old(contents)[1..]
      ensures freed == old(freed) + AsSeq(old(contents)[0].text)
    {
      hide Owned;
      TextsPop(contents);
      var oldest := TakeOldest();
      HandOverKeepsOwned(issued, oldest.text, Texts(contents), handedOut, freed);
      freed := freed + AsSeq(oldest.text);
    }

    method PutAtHead(m: TUIMessage)
      requires RingOk(messages[..], head, tail, count) && contents == Window(messages[..], tail, count) && count < messages.Length
      modifies this`head, this`count, this`contents, messages
      ensures RingOk(messages[..], head, tail, count) && contents == Window(messages[..], tail, count)
      ensures contents == old(contents) + [m]
    {
      ghost var slots := messages[..];
      PushKeepsRing(slots, head, tail, count, m);
      messages[head] := m;
      assert messages[..] == slots[head := m];
      IndexIsMod(head, 1, messages.Length);
      head := (head + 1) % messages.Length;
      count := count + 1;
      contents := contents + [m];
    }

    /** Appends a message whose text, if any, was just allocated. */
    method AddAtHead(m: TUIMessage)
      requires Valid() && count < messages.Length
      requires m.text.Some? ==> m.text.value.id == nextBuffer
      modifies this`head, this`count, this`contents, this`nextBuffer, this`issued, messages
      ensures Valid()
      ensures contents == old(contents) + [m] && issued == old(issued) + AsSeq(m.text)
    {
      hide Owned, RingOk, Texts;
      ghost var live := Texts(contents) + AsSeq(m.text);
      assert Texts(contents + [m]) == live by {
        TextsAppend(contents, [m]);
        TextsOne(m);
      }
      IssueKeepsOwned(issued, Texts(contents), handedOut, freed, m.text);
      PutAtHead(m);
      if m.text.Some? { nextBuffer := nextBuffer + 1; }
      issued := issued + AsSeq(m.text);
      assert Owned(issued, live, handedOut, freed);
    }

    /** The critical section shared by both kinds of post: make room, then append. */
    method Append(m: TUIMessage)
      requires Valid()
      requires m.text.Some? ==> m.text.value.id == nextBuffer
      modifies this`head, this`tail, this`count, this`contents, this`nextBuffer, this`issued, this`freed, messages
      ensures Valid()
      ensures contents == LastOf(old(contents) + [m], messages.Length)
      ensures contents == (if |old(contents)| == messages.Length then old(contents)[1..] else old(contents)) + [m]
      ensures issued == old(issued) + AsSeq(m.text)
      ensures freed == old(freed) +
                if |old(contents)| == messages.Length then AsSeq(old(contents)[0].text) else []
    {
      hide Owned;
      ghost var was := contents;
      if count == messages.Length {
        DropOldest();
        assert (was + [m])[1..] == was[1..] + [m];
      }
      AddAtHead(m);
    }

    /** post_tui_message: the text, if any, is copied into a new buffer. */
    method PostMessage(kind: MessageType, text: Option<string>)
      requires Valid()
      modifies this`head, this`tail, this`count, this`contents, this`nextBuffer, this`issued, this`freed, messages
      ensures Valid()
      ensures var copy := if text.Some? then Some(Buffer(|old(issued)|, text.value)) else None;
              && issued == old(issued) + AsSeq(copy)
              && contents == LastOf(old(contents) + [TUIMessage(kind, copy, 0, 0, 0, 0)], messages.Length)
              && contents == (if |old(contents)| == messages.Length then old(contents)[1..] else old(contents)) + [TUIMessage(kind, copy, 0, 0, 0, 0)]
      ensures freed == old(freed) +
                if |old(contents)| == messages.Length then AsSeq(old(contents)[0].text) else []
    {
      var copy := if text.Some? then Some(Buffer(nextBuffer, text.value)) else None;
      Append(TUIMessage(kind, copy, 0, 0, 0, 0));
    }

    /** post_token_update */
    method PostTokenUpdate(promptTokens: int, completionTokens: int, cachedTokens: int)
      requires Valid()
      modifies this`head, this`tail, this`count, this`contents, this`nextBuffer, this`issued, this`freed, messages
      ensures Valid() && issued == old(issued)
      ensures contents ==
              LastOf(old(contents) + [TUIMessage(TokenUpdate, None, 0, promptTokens, completionTokens, cachedTokens)], messages.Length)
      ensures contents == (if |old(contents)| == messages.Length then old(contents)[1..] else old(contents))
                          + [TUIMessage(TokenUpdate, None, 0, promptTokens, completionTokens, cachedTokens)]
      ensures freed == old(freed) +
                if |old(contents)| == messages.Length then AsSeq(old(contents)[0].text) else []
    {
      Append(TUIMessage(TokenUpdate, None, 0, promptTokens, completionTokens, cachedTokens));
    }

    /** poll_tui_message: the oldest message, whose text now belongs to the caller. */
    method Poll() returns (r: Option<Received>)
      requires Valid()
      modifies this`tail, this`count, this`contents, this`handedOut, messages
      ensures Valid()
      ensures old(contents) == [] ==> r == None && contents == [] && handedOut == old(handedOut)
      ensures old(contents) != [] ==>
                && r == Some(Receive(old(contents)[0]))
                && r.value.kind == old(contents)[0].kind && r.value.priority == old(contents)[0].priority
                && contents == old(contents)[1..]
                && AsSeq(r.value.text) == AsSeq(old(contents)[0].text)
                && handedOut == old(handedOut) + AsSeq(r.value.text)
    {
      if count == 0 { return None; }
      TextsPop(contents);
      var src := TakeOldest();
      HandOverKeepsOwned(issued, src.text, Texts(contents), handedOut, freed);
      handedOut := handedOut + AsSeq(src.text);
      r := Some(Received(src.kind, src.text, src.priority));
    }

    /** One pass of wait_tui_message; messages still queued at shutdown are delivered first. */
    method WaitPass() returns (outcome: WaitOutcome)
      requires Valid()
      modifies this`tail, this`count, this`contents, this`handedOut, messages
      ensures Valid()
      ensures old(contents) == [] ==> outcome == (if shutdown then ShutDown else MustWait) && contents == []
      ensures old(contents) != [] ==> outcome == Got(Receive(old(contents)[0])) && contents == old(contents)[1..]
      ensures old(contents) != [] ==> outcome.message.kind == old(contents)[0].kind && outcome.message.priority == old(contents)[0].priority
      ensures old(contents) != [] ==> AsSeq(outcome.message.text) == AsSeq(old(contents)[0].text)
      ensures handedOut == old(handedOut) + if outcome.Got? then AsSeq(outcome.message.text) else []
    {
      if count == 0 && !shutdown { return MustWait; }
      if shutdown && count == 0 { return ShutDown; }
      var r := Poll();
      outcome := Got(r.value);
    }

    method Shutdown()
      requires Valid()
      modifies this`shutdown
      ensures Valid() && shutdown && contents == old(contents)
    {
      shutdown := true;
    }

    /** tui_msg_queue_free: walks over every slot, live or not, and frees its text. Afterwards
        every buffer ever issued has been freed or handed out, once. */
    method FreeAll()
      requires Valid()
      modifies this`freed
      ensures multiset(issued) == multiset(handedOut) + multiset(freed)
      ensures multiset(freed) == multiset(old(freed)) + multiset(Texts(old(contents)))
    {
      ghost var slots, before := messages[..], freed;
      for i := 0 to messages.Length
        invariant messages[..] == slots
        invariant freed == before + Texts(slots[..i])
      {
        TextsAppend(slots[..i], [slots[i]]);
        TextsOne(slots[i]);
        assert slots[..i + 1] == slots[..i] + [slots[i]];
        freed := freed + AsSeq(messages[i].text);
      }
      assert slots[..|slots|] == slots;
      WindowHoldsAllTexts(slots, head, tail, count);
    }
  }

  lemma WindowHoldsAllTexts(slots: seq<TUIMessage>, head: nat, tail: nat, count: nat)
    requires RingOk(slots, head, tail, count)
    ensures multiset(Texts(slots)) == multiset(Texts(Window(slots, tail, count)))
  {
    WindowHoldsAll(TextFields(slots), tail, count);
    assert Window(TextFields(slots), tail, count) == TextFields(Window(slots, tail, count));
  }

  /** Ownership is exclusive: no buffer can be in two of the three places, nor twice in one. */
  lemma {:induction false} OneOwner(issued: seq<Buffer>, live: seq<Buffer>, handedOut: seq<Buffer>, freed: seq<Buffer>, b: Buffer)
    requires Owned(issued, live, handedOut, freed)
    ensures multiset(live)[b] + multiset(handedOut)[b] + multiset(freed)[b] == if b in issued then 1 else 0
  {
    AtMostOnce(issued, b);
  }

  lemma {:induction false} AtMostOnce(issued: seq<Buffer>, b: Buffer)
    requires forall k :: 0 <= k < |issued| ==> issued[k].id == k
    ensures multiset(issued)[b] == if b in issued then 1 else 0
  {
    if issued != [] {
      var front, last := issued[..|issued| - 1], issued[|issued| - 1];
      assert issued == front + [last];
      AtMostOnce(front, b);
      if b == last { assert b !in front; }
    }
  }
}
