/** From the history to the wire: the Anthropic messages of every request return a result for each
    tool use they contain. */
module AnthropicAnswers {
  import opened Wrappers
  import opened Json
  import C = Conversation
  import R = ConversationRepair
  import Q = RequestProofs
  import opened Answering
  import opened OpenAiRequest
  import opened Translation
  import opened TranslationProofs

  function UseIds(e: Event): set<string> { if e.Uses? && e.id.Some? then {e.id.value} else {} }

  function ReturnIds(e: Event): set<string> { if e.Returns? && e.id.Some? then {e.id.value} else {} }

  /** What is said, as steps that use tools and return results. */
  function EventSteps(events: seq<Event>): (r: seq<Step>)
    ensures |r| == |events| && forall i :: 0 <= i < |r| ==> r[i] == Step(UseIds(events[i]), ReturnIds(events[i]))
  {
    if events == [] then [] else [Step(UseIds(events[0]), ReturnIds(events[0]))] + EventSteps(events[1..])
  }

  function UsesOf(events: seq<Event>): set<string> { AllCalls(EventSteps(events)) }

  function ReturnsOf(events: seq<Event>): set<string> { AllResults(EventSteps(events)) }

  lemma EventsAppend(a: seq<Event>, b: seq<Event>)
    ensures EventSteps(a + b) == EventSteps(a) + EventSteps(b)
    ensures UsesOf(a + b) == UsesOf(a) + UsesOf(b) && ReturnsOf(a + b) == ReturnsOf(a) + ReturnsOf(b)
  {
    hide UseIds, ReturnIds, AllCalls, AllResults;
    assert EventSteps(a + b) == EventSteps(a) + EventSteps(b);
    Append(EventSteps(a), EventSteps(b));
  }

  lemma OneEvent(e: Event)
    ensures UsesOf([e]) == UseIds(e) && ReturnsOf([e]) == ReturnIds(e) && UsesOf([]) == {} && ReturnsOf([]) == {}
  {
    hide UseIds, ReturnIds, AllCalls, AllResults;
    assert EventSteps([e]) == [Step(UseIds(e), ReturnIds(e))] && EventSteps([]) == [];
    OneStep(Step(UseIds(e), ReturnIds(e)));
  }

  /** Results without an id answer nothing. */
  lemma {:induction false} DeliverableAnswers(events: seq<Event>)
    ensures ReturnsOf(Deliverable(events)) == ReturnsOf(events)
    ensures AnsweredRec(EventSteps(Deliverable(events))) <==> AnsweredRec(EventSteps(events))
  {
    hide UseIds, ReturnIds, Carried;
    if events != [] {
      var e, rest := events[0], events[1..];
      DeliverableAnswers(rest);
      var step := Step(UseIds(e), ReturnIds(e));
      assert EventSteps(events) == [step] + EventSteps(rest);
      OneStepInFront(step, EventSteps(rest));
      OneStepInFront(step, EventSteps(Deliverable(rest)));
      DeliverableFront(e, Deliverable(rest));
    }
  }

  lemma OneStepInFront(s: Step, steps: seq<Step>)
    ensures AllResults([s] + steps) == s.results + AllResults(steps)
    ensures AnsweredRec([s] + steps) <==> s.calls <= AllResults(steps) && AnsweredRec(steps)
  {
    assert ([s] + steps)[1..] == steps;
  }

  lemma DeliverableFront(e: Event, rest: seq<Event>)
    ensures if Carried(e) == [] then UseIds(e) == {} && ReturnIds(e) == {} && Carried(e) + rest == rest
            else EventSteps(Carried(e) + rest) == [Step(UseIds(e), ReturnIds(e))] + EventSteps(rest)
  {
    if Carried(e) != [] { assert ([e] + rest)[1..] == rest; }
  }

  // ---------------------------------------------------------------- one message

  lemma {:induction false} UserEventIds(codec: Codec, contents: seq<C.Content>)
    ensures UsesOf(UserEvents(codec, contents)) == {}
    ensures ReturnsOf(UserEvents(codec, contents)) == R.ResultsIn(contents)
  {
    hide UsesOf, ReturnsOf;
    OneEvent(UserSays(""));
    if contents == [] {
      assert R.ResultsIn(contents) == {};
    } else {
      var front, c := contents[..|contents| - 1], contents[|contents| - 1];
      var before, last := UserEvents(codec, front), UserBlockEvents(codec, c);
      UserEventIds(codec, front);
      EventsAppend(before, last);
      if last != [] { OneEvent(last[0]); }
      assert c in [c];
      Q.ResultsSnoc(contents);
    }
  }

  lemma {:induction false} CallEventIds(contents: seq<C.Content>)
    ensures ReturnsOf(CallEvents(contents)) == {}
    ensures UsesOf(CallEvents(contents)) == R.CallsIn(contents)
  {
    hide UsesOf, ReturnsOf;
    OneEvent(UserSays(""));
    if contents == [] {
      assert R.CallsIn(contents) == {};
    } else {
      var front, c := contents[..|contents| - 1], contents[|contents| - 1];
      CallEventIds(front);
      assert c in [c];
      Q.ResultsSnoc(contents);
      if c.ToolCall? {
        var use := Uses(c.id, c.name, c.params);
        EventsAppend(CallEvents(front), [use]);
        OneEvent(use);
      } else {
        assert CallEvents(contents) == CallEvents(front);
      }
    }
  }

  lemma AssistantEventIds(contents: seq<C.Content>, events: seq<Event>)
    requires events == TextEvent(true, FirstText(contents).GetOr("")) + CallEvents(contents)
    ensures ReturnsOf(events) == {} && UsesOf(events) == R.CallsIn(contents)
  {
    hide UsesOf, ReturnsOf, CallEvents, FirstText;
    var text := TextEvent(true, FirstText(contents).GetOr(""));
    OneEvent(UserSays(""));
    if text != [] { OneEvent(text[0]); }
    CallEventIds(contents);
    EventsAppend(text, CallEvents(contents));
  }

  /** What a message conveys uses and returns the ids that the message calls and answers. */
  lemma MessageAgrees(codec: Codec, m: C.Message)
    ensures UsesOf(ConveyedOne(codec, m)) == C.CallIds(m) && ReturnsOf(ConveyedOne(codec, m)) == C.ResultIds(m)
    ensures C.CallIds(m) == {} || C.ResultIds(m) == {}
  {
    hide UsesOf, ReturnsOf, UserEvents, CallEvents, TextEvent, C.CallIds, C.ResultIds;
    R.MessageIds(m);
    match m.role
    case User => UserEventIds(codec, m.contents);
    case Assistant => AssistantEventIds(m.contents, ConveyedOne(codec, m));
    case System => OneEvent(UserSays(""));
  }

  // ---------------------------------------------------------------- whole histories

  lemma {:induction false} HistoryAndEventsAgree(codec: Codec, msgs: seq<C.Message>, i: nat)
    requires i <= |msgs|
    ensures ReturnsOf(ConveyedFrom(codec, msgs, i)) == AllResults(Q.HistorySteps(msgs[i..]))
    ensures AnsweredRec(EventSteps(ConveyedFrom(codec, msgs, i))) <==> AnsweredRec(Q.HistorySteps(msgs[i..]))
    decreases |msgs| - i
  {
    hide ConveyedOne, C.CallIds, C.ResultIds;
    if i < |msgs| {
      var part, rest := ConveyedOne(codec, msgs[i]), ConveyedFrom(codec, msgs, i + 1);
      HistoryAndEventsAgree(codec, msgs, i + 1);
      MessageAgrees(codec, msgs[i]);
      EventsAppend(part, rest);
      PartIsOneStep(EventSteps(part), EventSteps(rest));
      var step := Step(C.CallIds(msgs[i]), C.ResultIds(msgs[i]));
      assert msgs[i..][1..] == msgs[i + 1..];
      assert Q.HistorySteps(msgs[i..]) == [step] + Q.HistorySteps(msgs[i + 1..]);
      Q.OneStepInFront(step, EventSteps(rest), Q.HistorySteps(msgs[i + 1..]));
    }
  }

  /** For every history: after repair, conversion to a request and translation, each tool use in
      the Anthropic messages is followed by a tool result with its id, exactly when there was room
      for one more message or every call had its result already. */
  lemma {:induction false} AnthropicAnswersItsCalls(codec: Codec, msgs: seq<C.Message>, caching: bool)
    requires Faithful(codec)
    ensures Answered(EventSteps(AnthropicEvents(AnthropicMessages(codec, RequestMessages(codec, C.Repair(msgs), caching))))) <==>
            |msgs| < C.MAX_MESSAGES || C.Answered(msgs)
  {
    hide AnthropicEvents, AnthropicMessages, RequestMessages, AnsweredRec, Answered, C.Answered, C.Repair, EventSteps, Q.HistorySteps,
         ReturnsOf, Deliverable, ConveyedFrom;
    var repaired := C.Repair(msgs);
    R.RepairAnswers(msgs);
    Q.HistoryAnsweredIsSteps(repaired);
    AnthropicConveys(codec, repaired, caching);
    var events := Conveyed(codec, repaired);
    AnsweredIsRec(EventSteps(Deliverable(events)));
    DeliverableAnswers(events);
    HistoryAndEventsAgree(codec, repaired, 0);
    assert repaired[0..] == repaired;
  }
}
