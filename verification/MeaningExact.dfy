/** Exactly when a request says all that the history says, and the same for its translation. */
module MeaningExact {
  import opened Wrappers
  import opened Json
  import C = Conversation
  import opened OpenAiRequest
  import opened Translation
  import opened TranslationProofs

  predicate SomeText(c: C.Content) { c.Text? && c.text.Some? && c.text.value != "" }

  /** User messages of texts and tool results; assistant messages of texts and tool calls in which
      only texts without a value stand before a non-empty text, so that there is at most one. */
  predicate Sayable(m: C.Message) {
    match m.role
    case System => true
    case User => forall c :: c in m.contents ==> c.Text? || c.ToolResponse?
    case Assistant => AssistantSayable(m.contents)
  }

  predicate AssistantSayable(contents: seq<C.Content>) {
    && (forall c :: c in contents ==> c.Text? || c.ToolCall?)
    && (forall j :: 0 <= j < |contents| && SomeText(contents[j]) ==> forall i :: 0 <= i < j ==> contents[i] == C.Text(None))
  }

  // ---------------------------------------------------------------- user messages

  lemma {:induction false} ContentsAppend(codec: Codec, assistant: bool, a: seq<C.Content>, b: seq<C.Content>)
    ensures ContentsEvents(codec, assistant, a + b) == ContentsEvents(codec, assistant, a) + ContentsEvents(codec, assistant, b)
  {
    hide ContentEvent;
    if a == [] {
      assert a + b == b;
    } else {
      assert (a + b)[1..] == a[1..] + b;
      ContentsAppend(codec, assistant, a[1..], b);
    }
  }

  lemma OneContent(codec: Codec, assistant: bool, c: C.Content)
    ensures ContentsEvents(codec, assistant, [c]) == ContentEvent(codec, assistant, c)
  {
    hide ContentEvent;
    assert [c][1..] == [];
  }

  lemma UserBlockExact(codec: Codec, c: C.Content)
    ensures if c.Text? || c.ToolResponse? then UserBlockEvents(codec, c) == ContentEvent(codec, false, c)
            else UserBlockEvents(codec, c) == [] && |ContentEvent(codec, false, c)| == 1
  {
  }

  lemma {:induction false} UserExact(codec: Codec, contents: seq<C.Content>)
    ensures |UserEvents(codec, contents)| <= |ContentsEvents(codec, false, contents)|
    ensures UserEvents(codec, contents) == ContentsEvents(codec, false, contents) <==>
            forall c :: c in contents ==> c.Text? || c.ToolResponse?
    ensures UserEvents(codec, contents) != ContentsEvents(codec, false, contents) ==>
            |UserEvents(codec, contents)| < |ContentsEvents(codec, false, contents)|
  {
    hide ContentEvent, UserBlockEvents, ContentsEvents;
    if contents == [] {
      assert ContentsEvents(codec, false, []) == [] by { NoContents(codec, false); }
    } else {
      var front, c := contents[..|contents| - 1], contents[|contents| - 1];
      UserExact(codec, front);
      UserBlockExact(codec, c);
      ContentsAppend(codec, false, front, [c]);
      OneContent(codec, false, c);
      assert contents == front + [c];
    }
  }

  lemma NoContents(codec: Codec, assistant: bool)
    ensures ContentsEvents(codec, assistant, []) == []
  {
  }

  // ---------------------------------------------------------------- assistant messages

  lemma {:induction false} CallEventsAppend(a: seq<C.Content>, b: seq<C.Content>)
    ensures CallEvents(a + b) == CallEvents(a) + CallEvents(b)
  {
    if b == [] {
      assert a + b == a;
    } else {
      var front, c := b[..|b| - 1], b[|b| - 1];
      assert (a + b)[..|a + b| - 1] == a + front && (a + b)[|a + b| - 1] == c;
      CallEventsAppend(a, front);
    }
  }

  lemma CallEventsCons(c: C.Content, rest: seq<C.Content>)
    ensures CallEvents([c] + rest) == (if c.ToolCall? then [Uses(c.id, c.name, c.params)] else []) + CallEvents(rest)
  {
    hide CallEvents;
    CallEventsAppend([c], rest);
    assert CallEvents([c]) == (if c.ToolCall? then [Uses(c.id, c.name, c.params)] else []) by { OneCall(c); }
  }

  lemma OneCall(c: C.Content)
    ensures CallEvents([c]) == if c.ToolCall? then [Uses(c.id, c.name, c.params)] else []
  {
    assert [c][..0] == [];
  }

  /** Nothing but calls and texts that say nothing. */
  ghost predicate CallsOnly(contents: seq<C.Content>) {
    forall c :: c in contents ==> c.ToolCall? || (c.Text? && !SomeText(c))
  }

  lemma {:induction false} CallsExact(codec: Codec, contents: seq<C.Content>)
    ensures |CallEvents(contents)| <= |ContentsEvents(codec, true, contents)|
    ensures CallEvents(contents) == ContentsEvents(codec, true, contents) <==> CallsOnly(contents)
    ensures !CallsOnly(contents) ==> |CallEvents(contents)| < |ContentsEvents(codec, true, contents)|
  {
    if contents != [] {
      var c, rest := contents[0], contents[1..];
      CallsExact(codec, rest);
      assert contents == [c] + rest;
      CallEventsCons(c, rest);
      assert CallsOnly(contents) <==> (c.ToolCall? || (c.Text? && !SomeText(c))) && CallsOnly(rest) by {
        hide CallEvents, ContentsEvents;
      }
    }
  }

  function AssistantConveyed(contents: seq<C.Content>): seq<Event> {
    TextEvent(true, FirstText(contents).GetOr("")) + CallEvents(contents)
  }

  /** Sayability, block by block from the front. */
  lemma SayableCons(c: C.Content, rest: seq<C.Content>)
    ensures AssistantSayable([c] + rest) <==>
            if c == C.Text(None) then AssistantSayable(rest) else (c.Text? || c.ToolCall?) && CallsOnly(rest)
  {
    var contents := [c] + rest;
    if AssistantSayable(contents) {
      if c == C.Text(None) {
        forall x | x in rest ensures x.Text? || x.ToolCall? { assert x in contents; }
        forall j | 0 <= j < |rest| && SomeText(rest[j]) ensures forall i :: 0 <= i < j ==> rest[i] == C.Text(None) {
          assert contents[j + 1] == rest[j];
          forall i | 0 <= i < j ensures rest[i] == C.Text(None) { assert contents[i + 1] == rest[i]; }
        }
      } else {
        assert c in contents;
        forall x | x in rest ensures x.ToolCall? || (x.Text? && !SomeText(x)) {
          assert x in contents;
          var j :| 0 <= j < |rest| && rest[j] == x;
          assert contents[j + 1] == x && contents[0] == c;
        }
      }
    }
    if c == C.Text(None) && AssistantSayable(rest) {
      forall j | 0 <= j < |contents| && SomeText(contents[j]) ensures forall i :: 0 <= i < j ==> contents[i] == C.Text(None) {
        assert j > 0 && contents[j] == rest[j - 1];
        forall i | 0 <= i < j ensures contents[i] == C.Text(None) {
          if i > 0 { assert contents[i] == rest[i - 1]; }
        }
      }
    }
    if (c.Text? || c.ToolCall?) && CallsOnly(rest) {
      forall j | 0 < j < |contents| ensures !SomeText(contents[j]) { assert contents[j] == rest[j - 1] && rest[j - 1] in rest; }
    }
  }

  /** One block in front, for what is conveyed. */
  lemma ConveyedCons(c: C.Content, rest: seq<C.Content>)
    ensures AssistantConveyed([c] + rest) ==
            if c.Text? && c.text.Some? then TextEvent(true, c.text.value) + CallEvents(rest)
            else if c.ToolCall? then TextEvent(true, FirstText(rest).GetOr("")) + ([Uses(c.id, c.name, c.params)] + CallEvents(rest))
            else AssistantConveyed(rest)
  {
    hide CallEvents;
    CallEventsCons(c, rest);
    assert ([c] + rest)[1..] == rest;
    assert [] + CallEvents(rest) == CallEvents(rest);
  }

  /** A first text that is not empty stands somewhere in the message. */
  lemma {:induction false} FirstTextStands(contents: seq<C.Content>)
    requires FirstText(contents).GetOr("") != ""
    ensures !CallsOnly(contents)
  {
    if !(contents[0].Text? && contents[0].text.Some?) {
      FirstTextStands(contents[1..]);
      var c :| c in contents[1..] && !(c.ToolCall? || (c.Text? && !SomeText(c)));
      assert c in contents;
    } else {
      assert contents[0] in contents && SomeText(contents[0]);
    }
  }

  lemma {:induction false} ConveyedIsShorter(codec: Codec, contents: seq<C.Content>)
    ensures |AssistantConveyed(contents)| <= |ContentsEvents(codec, true, contents)|
  {
    hide CallEvents, AssistantConveyed, FirstText;
    if contents == [] {
      assert AssistantConveyed([]) == [] by { NothingConveyed(); }
    } else {
      var c, rest := contents[0], contents[1..];
      assert contents == [c] + rest;
      ConveyedIsShorter(codec, rest);
      CallsExact(codec, rest);
      ConveyedCons(c, rest);
      assert |AssistantConveyed(rest)| == |TextEvent(true, FirstText(rest).GetOr(""))| + |CallEvents(rest)| by { ConveyedLength(rest); }
    }
  }

  lemma NothingConveyed()
    ensures AssistantConveyed([]) == []
  {
  }

  lemma ConveyedLength(contents: seq<C.Content>)
    ensures |AssistantConveyed(contents)| == |TextEvent(true, FirstText(contents).GetOr(""))| + |CallEvents(contents)|
  {
  }

  lemma {:induction false} AssistantExact(codec: Codec, contents: seq<C.Content>)
    ensures AssistantConveyed(contents) == ContentsEvents(codec, true, contents) <==> AssistantSayable(contents)
  {
    hide CallEvents, AssistantConveyed, FirstText, AssistantSayable, CallsOnly;
    if contents == [] {
      NothingConveyed();
      assert AssistantSayable([]) by { NothingSayable(); }
    } else {
      var c, rest := contents[0], contents[1..];
      assert contents == [c] + rest;
      SayableCons(c, rest);
      ConveyedCons(c, rest);
      CallsExact(codec, rest);
      ConveyedIsShorter(codec, rest);
      match c
      case Text(text) => if text.None? { AssistantExact(codec, rest); }
      case ToolCall(_, _, _) => CallInFront(codec, c, rest);
      case _ =>
    }
  }

  lemma NothingSayable()
    ensures AssistantSayable([])
  {
  }

  /** A call in front of a text: the request would say the text first. */
  lemma CallInFront(codec: Codec, c: C.Content, rest: seq<C.Content>)
    requires c.ToolCall?
    ensures var use := [Uses(c.id, c.name, c.params)];
            TextEvent(true, FirstText(rest).GetOr("")) + (use + CallEvents(rest)) == use + ContentsEvents(codec, true, rest) <==> CallsOnly(rest)
  {
    hide CallEvents, ContentsEvents, CallsOnly, FirstText;
    CallsExact(codec, rest);
    var text, use := FirstText(rest).GetOr(""), Uses(c.id, c.name, c.params);
    if text == "" {
      assert ([use] + CallEvents(rest))[1..] == CallEvents(rest);
      assert ([use] + ContentsEvents(codec, true, rest))[1..] == ContentsEvents(codec, true, rest);
    } else {
      FirstTextStands(rest);
      assert ([AssistantSays(text)] + ([use] + CallEvents(rest)))[0] == AssistantSays(text);
      assert ([use] + ContentsEvents(codec, true, rest))[0] == use;
    }
  }

  // ---------------------------------------------------------------- whole histories

  lemma MessageExact(codec: Codec, m: C.Message)
    ensures |ConveyedOne(codec, m)| <= |MessageEvents(codec, m)|
    ensures ConveyedOne(codec, m) == MessageEvents(codec, m) <==> Sayable(m)
  {
    hide ContentsEvents, CallEvents, UserEvents, AssistantSayable;
    match m.role
    case System =>
    case User => UserExact(codec, m.contents);
    case Assistant =>
      AssistantExact(codec, m.contents);
      ConveyedIsShorter(codec, m.contents);
  }

  /** When no part on the left is longer than its counterpart, equality splits. */
  lemma PartsEqual(a: seq<Event>, b: seq<Event>, c: seq<Event>, d: seq<Event>)
    requires |a| <= |c| && |b| <= |d|
    ensures a + b == c + d <==> a == c && b == d
  {
    if a + b == c + d {
      assert |a| == |c| && (a + b)[..|a|] == a && (c + d)[..|c|] == c && (a + b)[|a|..] == b && (c + d)[|c|..] == d;
    }
  }

  lemma {:induction false} HistoryExact(codec: Codec, msgs: seq<C.Message>, i: nat)
    requires i <= |msgs|
    ensures |ConveyedFrom(codec, msgs, i)| <= |HistoryEvents(codec, msgs[i..])|
    ensures ConveyedFrom(codec, msgs, i) == HistoryEvents(codec, msgs[i..]) <==> forall k :: i <= k < |msgs| ==> Sayable(msgs[k])
    decreases |msgs| - i
  {
    hide ConveyedOne, MessageEvents, Sayable;
    if i < |msgs| {
      HistoryExact(codec, msgs, i + 1);
      MessageExact(codec, msgs[i]);
      assert msgs[i..][1..] == msgs[i + 1..];
      PartsEqual(ConveyedOne(codec, msgs[i]), ConveyedFrom(codec, msgs, i + 1), MessageEvents(codec, msgs[i]), HistoryEvents(codec, msgs[i + 1..]));
    }
  }

  /** The OpenAI request says exactly what the history says, in order, if and only if every message
      is sayable: no images, no blocks under the wrong role, and in an assistant message at most
      one non-empty text, in front. */
  lemma {:induction false} OpenAiPreservesMeaningExactly(codec: Codec, msgs: seq<C.Message>, caching: bool)
    requires Faithful(codec)
    ensures OpenAiEvents(codec, RequestMessages(codec, msgs, caching)) == HistoryEvents(codec, msgs) <==>
            forall k :: 0 <= k < |msgs| ==> Sayable(msgs[k])
  {
    hide OpenAiEvents, RequestMessages, HistoryEvents, ConveyedFrom, Sayable;
    OpenAiConveys(codec, msgs, caching);
    HistoryExact(codec, msgs, 0);
    assert msgs[0..] == msgs;
  }

  // ---------------------------------------------------------------- the translation

  /** All tool results have ids. */
  predicate ResultsHaveIds(m: C.Message) {
    m.role == C.System || forall c :: c in m.contents && c.ToolResponse? ==> c.id.Some?
  }

  lemma {:induction false} DeliverableIsShorter(events: seq<Event>)
    ensures |Deliverable(events)| <= |events|
    ensures Deliverable(events) == events <==> forall e :: e in events ==> Carried(e) == [e]
    ensures Deliverable(events) != events ==> |Deliverable(events)| < |events|
  {
    if events != [] {
      DeliverableIsShorter(events[1..]);
      assert events == [events[0]] + events[1..];
    }
  }

  lemma {:induction false} ContentsCarried(codec: Codec, assistant: bool, contents: seq<C.Content>)
    ensures (forall e :: e in ContentsEvents(codec, assistant, contents) ==> Carried(e) == [e]) <==>
            forall c :: c in contents && c.ToolResponse? ==> c.id.Some?
  {
    if contents != [] {
      var c, rest := contents[0], contents[1..];
      ContentsCarried(codec, assistant, rest);
      assert contents == [c] + rest;
      var one := ContentEvent(codec, assistant, c);
      assert (forall e :: e in one ==> Carried(e) == [e]) <==> (c.ToolResponse? ==> c.id.Some?) by {
        if c.ToolResponse? { assert one[0] in one; }
      }
      assert forall e :: e in ContentsEvents(codec, assistant, contents) <==> e in one || e in ContentsEvents(codec, assistant, rest);
    }
  }

  lemma {:induction false} HistoryCarried(codec: Codec, msgs: seq<C.Message>)
    ensures (forall e :: e in HistoryEvents(codec, msgs) ==> Carried(e) == [e]) <==>
            forall k :: 0 <= k < |msgs| ==> ResultsHaveIds(msgs[k])
  {
    hide ContentsEvents, ResultsHaveIds, Carried;
    if msgs != [] {
      var rest := msgs[1..];
      HistoryCarried(codec, rest);
      MessageCarried(codec, msgs[0]);
      assert forall e :: e in HistoryEvents(codec, msgs) <==> e in MessageEvents(codec, msgs[0]) || e in HistoryEvents(codec, rest);
      if forall k :: 0 <= k < |msgs| ==> ResultsHaveIds(msgs[k]) {
        forall k | 0 <= k < |rest| ensures ResultsHaveIds(rest[k]) { assert rest[k] == msgs[k + 1]; }
      }
      if ResultsHaveIds(msgs[0]) && forall k :: 0 <= k < |rest| ==> ResultsHaveIds(rest[k]) {
        forall k | 0 <= k < |msgs| ensures ResultsHaveIds(msgs[k]) { if k > 0 { assert rest[k - 1] == msgs[k]; } }
      }
    }
  }

  lemma MessageCarried(codec: Codec, m: C.Message)
    ensures (forall e :: e in MessageEvents(codec, m) ==> Carried(e) == [e]) <==> ResultsHaveIds(m)
  {
    hide ContentsEvents, Carried;
    ContentsCarried(codec, m.role == C.Assistant, m.contents);
  }

  /** The Anthropic translation of the request says exactly what the history says, in order, if and
      only if every message is sayable and every tool result has an id. */
  lemma {:induction false} AnthropicPreservesMeaningExactly(codec: Codec, msgs: seq<C.Message>, caching: bool)
    requires Faithful(codec)
    ensures AnthropicEvents(AnthropicMessages(codec, RequestMessages(codec, msgs, caching))) == HistoryEvents(codec, msgs) <==>
            forall k :: 0 <= k < |msgs| ==> Sayable(msgs[k]) && ResultsHaveIds(msgs[k])
  {
    hide AnthropicEvents, AnthropicMessages, RequestMessages, HistoryEvents, ConveyedFrom, Deliverable, Carried, Sayable, ResultsHaveIds;
    AnthropicConveys(codec, msgs, caching);
    HistoryExact(codec, msgs, 0);
    assert msgs[0..] == msgs;
    DeliverableIsShorter(Conveyed(codec, msgs));
    HistoryCarried(codec, msgs);
  }

  // ---------------------------------------------------------------- the messages that are stored

  /** Whatever the provider answers, the message stored for it is sayable. */
  lemma {:induction false} StoredMessageIsSayable(codec: Codec, message: Json)
    ensures Sayable(C.Message(C.Assistant, C.AssistantContents(codec, message)))
  {
    hide C.CallContents;
    var calls := C.CallContents(codec, GetArr(message, ToolCalls).GetOr([]));
    StoredCallsAreCalls(codec, GetArr(message, ToolCalls).GetOr([]));
    var all := C.AssistantContents(codec, message);
    var t := |all| - |calls|;
    forall j | t <= j < |all| ensures all[j].ToolCall? { assert all[j] == calls[j - t]; }
  }

  lemma {:induction false} StoredCallsAreCalls(codec: Codec, calls: seq<Json>)
    ensures forall j :: 0 <= j < |C.CallContents(codec, calls)| ==> C.CallContents(codec, calls)[j].ToolCall?
  {
    if calls != [] { StoredCallsAreCalls(codec, calls[..|calls| - 1]); }
  }

  /** Repair adds only what is sayable and has ids. */
  lemma {:induction false} RepairIsSayable(msgs: seq<C.Message>)
    ensures (forall k :: 0 <= k < |C.Repair(msgs)| ==> Sayable(C.Repair(msgs)[k]) && ResultsHaveIds(C.Repair(msgs)[k])) <==>
            forall k :: 0 <= k < |msgs| ==> Sayable(msgs[k]) && ResultsHaveIds(msgs[k])
  {
    hide Sayable, ResultsHaveIds, C.Scan, C.Missing;
    var after := C.Repair(msgs);
    assert msgs <= after;
    if after != msgs { SyntheticSayable(C.Scan(msgs)); }
    if forall k :: 0 <= k < |after| ==> Sayable(after[k]) && ResultsHaveIds(after[k]) {
      forall k | 0 <= k < |msgs| ensures Sayable(msgs[k]) && ResultsHaveIds(msgs[k]) { assert after[k] == msgs[k]; }
    }
  }

  lemma SyntheticSayable(infos: seq<C.CallInfo>)
    ensures Sayable(C.Message(C.User, C.Missing(infos))) && ResultsHaveIds(C.Message(C.User, C.Missing(infos)))
  {
    SyntheticResults(infos);
  }

  lemma {:induction false} SyntheticResults(infos: seq<C.CallInfo>)
    ensures forall c :: c in C.Missing(infos) ==> c.ToolResponse? && c.id.Some?
  {
    if infos != [] { SyntheticResults(infos[..|infos| - 1]); }
  }

  /** What a request loses: an uploaded image. */
  lemma {:induction false} ImageIsNotSent(codec: Codec, path: string, mimeType: string, data: string, caching: bool)
    requires Faithful(codec)
    ensures var msgs := [C.Message(C.User, [C.Image(path, mimeType, data)])];
            OpenAiEvents(codec, RequestMessages(codec, msgs, caching)) != HistoryEvents(codec, msgs)
  {
    var image := C.Image(path, mimeType, data);
    var msgs := [C.Message(C.User, [image])];
    assert msgs[0].contents[0] == image && image in msgs[0].contents;
    OpenAiPreservesMeaningExactly(codec, msgs, caching);
  }

  /** And a text behind an empty one. */
  lemma {:induction false} TextBehindEmptyIsLost(codec: Codec, caching: bool)
    requires Faithful(codec)
    ensures var msgs := [C.Message(C.Assistant, [C.Text(Some("")), C.Text(Some("hi"))])];
            OpenAiEvents(codec, RequestMessages(codec, msgs, caching)) != HistoryEvents(codec, msgs)
  {
    hide HistoryEvents, RequestMessages, OpenAiEvents;
    var contents := [C.Text(Some("")), C.Text(Some("hi"))];
    var msgs := [C.Message(C.Assistant, contents)];
    assert SomeText(contents[1]) && contents[0] != C.Text(None);
    assert !Sayable(msgs[0]);
    OpenAiPreservesMeaningExactly(codec, msgs, caching);
  }
}
