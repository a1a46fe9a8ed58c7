/** Translation preserves meaning: what a history, an OpenAI request and an Anthropic request say,
    and what comes back through an Anthropic response. */
module TranslationProofs {
  import opened Wrappers
  import opened Json
  import C = Conversation
  import opened OpenAiRequest
  import opened Translation

  /** One thing that a conversation says. */
  datatype Event =
    | UserSays(text: string)
    | AssistantSays(text: string)
    | Uses(id: Option<string>, name: Option<string>, input: Json)
    | Returns(id: Option<string>, content: string)
    | Shows(mimeType: string, data: string)

  function TextEvent(assistant: bool, text: string): seq<Event> {
    if !assistant then [UserSays(text)] else if text == "" then [] else [AssistantSays(text)]
  }

  // ---------------------------------------------------------------- the meaning of a history

  /** What one block says, by itself. */
  function ContentEvent(codec: Codec, assistant: bool, c: C.Content): seq<Event> {
    match c
    case Text(text) => if text.Some? then TextEvent(assistant, text.value) else []
    case ToolCall(id, name, params) => [Uses(id, name, params)]
    case ToolResponse(id, _, output, _) => [Returns(id, codec.print_(output))]
    case Image(_, mimeType, data) => [Shows(mimeType, data)]
  }

  function ContentsEvents(codec: Codec, assistant: bool, contents: seq<C.Content>): seq<Event> {
    if contents == [] then [] else ContentEvent(codec, assistant, contents[0]) + ContentsEvents(codec, assistant, contents[1..])
  }

  /** The blocks of a message one by one; system messages are sent separately and say nothing here. */
  function MessageEvents(codec: Codec, m: C.Message): seq<Event> {
    if m.role == C.System then [] else ContentsEvents(codec, m.role == C.Assistant, m.contents)
  }

  function HistoryEvents(codec: Codec, msgs: seq<C.Message>): seq<Event> {
    if msgs == [] then [] else MessageEvents(codec, msgs[0]) + HistoryEvents(codec, msgs[1..])
  }

  // ---------------------------------------------------------------- what of it a request conveys

  function CallEvents(contents: seq<C.Content>): seq<Event> {
    if contents == [] then []
    else
      var front, c := contents[..|contents| - 1], contents[|contents| - 1];
      CallEvents(front) + if c.ToolCall? then [Uses(c.id, c.name, c.params)] else []
  }

  function UserBlockEvents(codec: Codec, c: C.Content): seq<Event> {
    if c.Text? && c.text.Some? then [UserSays(c.text.value)]
    else if c.ToolResponse? then [Returns(c.id, codec.print_(c.output))]
    else []
  }

  function UserEvents(codec: Codec, contents: seq<C.Content>): seq<Event> {
    if contents == [] then []
    else UserEvents(codec, contents[..|contents| - 1]) + UserBlockEvents(codec, contents[|contents| - 1])
  }

  /** User texts and tool results one by one; of an assistant message only its first text, when not
      empty, and then its tool calls. */
  function ConveyedOne(codec: Codec, m: C.Message): seq<Event> {
    match m.role
    case System => []
    case User => UserEvents(codec, m.contents)
    case Assistant => TextEvent(true, FirstText(m.contents).GetOr("")) + CallEvents(m.contents)
  }

  function ConveyedFrom(codec: Codec, msgs: seq<C.Message>, i: nat): seq<Event>
    requires i <= |msgs|
    decreases |msgs| - i
  {
    if i == |msgs| then [] else ConveyedOne(codec, msgs[i]) + ConveyedFrom(codec, msgs, i + 1)
  }

  function Conveyed(codec: Codec, msgs: seq<C.Message>): seq<Event> { ConveyedFrom(codec, msgs, 0) }

  // ---------------------------------------------------------------- the meaning of an OpenAI request

  function ParsedInput(codec: Codec, call: Json): Json {
    var function_ := Get(call, Function).GetOr(Null);
    match GetStr(function_, Arguments) case Some(text) => codec.parse(text).GetOr(EMPTY_OBJECT) case None => EMPTY_OBJECT
  }

  function OpenAiCallEvents(codec: Codec, calls: seq<Json>): seq<Event> {
    if calls == [] then []
    else
      var call := calls[0];
      [Uses(GetStr(call, Id), GetStr(Get(call, Function).GetOr(Null), NameOf), ParsedInput(codec, call))] + OpenAiCallEvents(codec, calls[1..])
  }

  /** The texts of a content array. */
  function ArrayTexts(assistant: bool, items: seq<Json>): seq<Event> {
    if items == [] then []
    else (match GetStr(items[0], TextOf) case Some(t) => TextEvent(assistant, t) case None => []) + ArrayTexts(assistant, items[1..])
  }

  function ContentEvents(assistant: bool, m: Json): seq<Event> {
    match Get(m, Content)
    case Some(Str(s)) => TextEvent(assistant, s)
    case Some(Arr(items)) => ArrayTexts(assistant, items)
    case _ => []
  }

  function OpenAiOneEvents(codec: Codec, m: Json): seq<Event> {
    if RoleIs(m, "user") then ContentEvents(false, m)
    else if RoleIs(m, "assistant") then ContentEvents(true, m) + OpenAiCallEvents(codec, GetArr(m, ToolCalls).GetOr([]))
    else if RoleIs(m, "tool") then [Returns(GetStr(m, ToolCallId), GetStr(m, Content).GetOr(""))]
    else []
  }

  function OpenAiEvents(codec: Codec, messages: seq<Json>): seq<Event> {
    if messages == [] then [] else OpenAiOneEvents(codec, messages[0]) + OpenAiEvents(codec, messages[1..])
  }

  // ---------------------------------------------------------------- the meaning of an Anthropic request

  function BlockEvents(assistant: bool, block: Json): seq<Event> {
    if TypeIs(block, "text") then
      match GetStr(block, TextOf) case Some(t) => TextEvent(assistant, t) case None => []
    else if TypeIs(block, "tool_use") then [Uses(GetStr(block, Id), GetStr(block, NameOf), Get(block, Input).GetOr(EMPTY_OBJECT))]
    else if TypeIs(block, "tool_result") then [Returns(GetStr(block, ToolUseId), GetStr(block, Content).GetOr(""))]
    else []
  }

  function BlocksEvents(assistant: bool, blocks: seq<Json>): seq<Event> {
    if blocks == [] then [] else BlockEvents(assistant, blocks[0]) + BlocksEvents(assistant, blocks[1..])
  }

  function AnthropicOneEvents(m: Json): seq<Event> {
    var assistant := RoleIs(m, "assistant");
    match Get(m, Content)
    case Some(Str(s)) => TextEvent(assistant, s)
    case Some(Arr(blocks)) => BlocksEvents(assistant, blocks)
    case _ => []
  }

  function AnthropicEvents(messages: seq<Json>): seq<Event> {
    if messages == [] then [] else AnthropicOneEvents(messages[0]) + AnthropicEvents(messages[1..])
  }

  /** The events that Anthropic form can carry: all but tool results without an id. */
  function Deliverable(events: seq<Event>): seq<Event> {
    if events == [] then []
    else Carried(events[0]) + Deliverable(events[1..])
  }

  function Carried(e: Event): seq<Event> { if e.Returns? && e.id.None? then [] else [e] }

  // ---------------------------------------------------------------- everything distributes over +

  lemma {:induction false} DeliverableAppend(a: seq<Event>, b: seq<Event>)
    ensures Deliverable(a + b) == Deliverable(a) + Deliverable(b)
  {
    hide Carried;
    if a == [] {
      assert a + b == b;
    } else {
      assert (a + b)[1..] == a[1..] + b;
      DeliverableAppend(a[1..], b);
    }
  }

  lemma DeliverableOne(e: Event)
    ensures Deliverable([e]) == Carried(e)
  {
    assert [e][1..] == [];
  }

  lemma {:induction false} OpenAiEventsAppend(codec: Codec, a: seq<Json>, b: seq<Json>)
    ensures OpenAiEvents(codec, a + b) == OpenAiEvents(codec, a) + OpenAiEvents(codec, b)
  {
    hide OpenAiOneEvents;
    if a == [] {
      assert a + b == b;
    } else {
      assert (a + b)[1..] == a[1..] + b;
      OpenAiEventsAppend(codec, a[1..], b);
    }
  }

  lemma {:induction false} AnthropicEventsAppend(a: seq<Json>, b: seq<Json>)
    ensures AnthropicEvents(a + b) == AnthropicEvents(a) + AnthropicEvents(b)
  {
    hide AnthropicOneEvents;
    if a == [] {
      assert a + b == b;
    } else {
      assert (a + b)[1..] == a[1..] + b;
      AnthropicEventsAppend(a[1..], b);
    }
  }

  lemma {:induction false} AnthropicMessagesAppend(codec: Codec, a: seq<Json>, b: seq<Json>)
    ensures AnthropicMessages(codec, a + b) == AnthropicMessages(codec, a) + AnthropicMessages(codec, b)
  {
    hide AnthropicOne;
    if a == [] {
      assert a + b == b;
    } else {
      assert (a + b)[1..] == a[1..] + b;
      AnthropicMessagesAppend(codec, a[1..], b);
    }
  }

  lemma {:induction false} BlocksEventsAppend(assistant: bool, a: seq<Json>, b: seq<Json>)
    ensures BlocksEvents(assistant, a + b) == BlocksEvents(assistant, a) + BlocksEvents(assistant, b)
  {
    hide BlockEvents;
    if a == [] {
      assert a + b == b;
    } else {
      assert (a + b)[1..] == a[1..] + b;
      BlocksEventsAppend(assistant, a[1..], b);
    }
  }

  lemma {:induction false} OpenAiCallEventsAppend(codec: Codec, a: seq<Json>, b: seq<Json>)
    ensures OpenAiCallEvents(codec, a + b) == OpenAiCallEvents(codec, a) + OpenAiCallEvents(codec, b)
  {
    hide ParsedInput;
    if a == [] {
      assert a + b == b;
    } else {
      assert (a + b)[1..] == a[1..] + b;
      OpenAiCallEventsAppend(codec, a[1..], b);
    }
  }

  lemma {:induction false} UseBlocksAppend(codec: Codec, a: seq<Json>, b: seq<Json>)
    ensures UseBlocks(codec, a + b) == UseBlocks(codec, a) + UseBlocks(codec, b)
  {
    hide UseBlock;
    if a == [] {
      assert a + b == b;
    } else {
      assert (a + b)[1..] == a[1..] + b;
      UseBlocksAppend(codec, a[1..], b);
    }
  }

  // ---------------------------------------------------------------- the role and type names

  lemma RolesDiffer()
    ensures "user" != "tool" && "user" != "assistant" && "tool" != "assistant"
    ensures "system" != "tool" && "system" != "assistant" && "system" != "user"
  {
    assert "user"[0] != "tool"[0];
  }

  lemma TypesDiffer()
    ensures "text" != "tool_use" && "text" != "tool_result" && "tool_use" != "tool_result"
  {
  }

  // ---------------------------------------------------------------- one user block

  lemma UserBlockToOpenAi(codec: Codec, c: C.Content, cached: bool)
    ensures OpenAiEvents(codec, UserBlock(codec, c, cached)) == UserBlockEvents(codec, c)
  {
    RolesDiffer();
    var out := UserBlock(codec, c, cached);
    if out != [] {
      var m := out[0];
      assert OpenAiEvents(codec, out) == OpenAiOneEvents(codec, m) + OpenAiEvents(codec, []);
      if c.Text? {
        assert RoleIs(m, "user");
        if cached {
          var items := [CachedText(c.text.value)];
          assert ArrayTexts(false, items) == TextEvent(false, c.text.value) + ArrayTexts(false, items[1..]);
        }
      }
    }
  }

  lemma UserBlockToAnthropic(codec: Codec, c: C.Content, cached: bool)
    ensures AnthropicEvents(AnthropicMessages(codec, UserBlock(codec, c, cached))) == Deliverable(UserBlockEvents(codec, c))
  {
    var out := UserBlock(codec, c, cached);
    if out != [] {
      var m := out[0];
      assert AnthropicMessages(codec, out) == AnthropicOne(codec, m) + AnthropicMessages(codec, []);
      if c.Text? { TextToAnthropic(codec, c.text.value, cached); } else { ToolToAnthropic(codec, c.id, c.output); }
    }
  }

  lemma TextToAnthropic(codec: Codec, text: string, cached: bool)
    ensures AnthropicEvents(AnthropicOne(codec, UserJson(text, cached))) == [UserSays(text)]
    ensures Deliverable([UserSays(text)]) == [UserSays(text)]
  {
    RolesDiffer();
    DeliverableOne(UserSays(text));
    var m := UserJson(text, cached);
    assert AnthropicOne(codec, m) == AnthropicUser(m) == [m];
    assert AnthropicEvents([m]) == AnthropicOneEvents(m) + AnthropicEvents([m][1..]);
    if cached {
      var items := [CachedText(text)];
      assert BlocksEvents(false, items) == BlockEvents(false, items[0]) + BlocksEvents(false, items[1..]);
    }
  }

  lemma ToolToAnthropic(codec: Codec, id: Option<string>, output: Json)
    ensures AnthropicEvents(AnthropicOne(codec, ToolJson(codec, id, output))) == Deliverable([Returns(id, codec.print_(output))])
  {
    hide AnthropicOneEvents;
    RolesDiffer();
    DeliverableOne(Returns(id, codec.print_(output)));
    var m := ToolJson(codec, id, output);
    assert AnthropicOne(codec, m) == AnthropicTool(codec, m);
    match id
    case None =>
      assert AnthropicTool(codec, m) == [RoleMessage("user", None)];
      EmptyUserSaysNothing();
    case Some(i) =>
      var out := RoleMessage("user", Some(Arr([ResultBlock(i, Str(codec.print_(output)))])));
      assert AnthropicTool(codec, m) == [out];
      ResultBlockEvents(i, codec.print_(output));
  }

  lemma ResultBlockEvents(id: string, content: string)
    ensures AnthropicOneEvents(RoleMessage("user", Some(Arr([ResultBlock(id, Str(content))])))) == [Returns(Some(id), content)]
  {
    TypesDiffer();
    RolesDiffer();
    var items := [ResultBlock(id, Str(content))];
    assert BlocksEvents(false, items) == BlockEvents(false, items[0]) + BlocksEvents(false, items[1..]);
  }

  lemma EmptyUserSaysNothing()
    ensures AnthropicOneEvents(RoleMessage("user", None)) == []
  {
  }

  lemma {:induction false} UserContents(codec: Codec, contents: seq<C.Content>, cached: bool)
    ensures OpenAiEvents(codec, UserMessages(codec, contents, cached)) == UserEvents(codec, contents)
    ensures AnthropicEvents(AnthropicMessages(codec, UserMessages(codec, contents, cached))) == Deliverable(UserEvents(codec, contents))
  {
    hide UserBlock, AnthropicMessages, AnthropicEvents, OpenAiEvents, UserBlockEvents;
    if contents == [] {
      NothingSaysNothing(codec);
    } else {
      var front, c := contents[..|contents| - 1], contents[|contents| - 1];
      var before, last := UserMessages(codec, front, cached), UserBlock(codec, c, cached);
      UserContents(codec, front, cached);
      UserBlockToOpenAi(codec, c, cached);
      UserBlockToAnthropic(codec, c, cached);
      OpenAiEventsAppend(codec, before, last);
      AnthropicMessagesAppend(codec, before, last);
      AnthropicEventsAppend(AnthropicMessages(codec, before), AnthropicMessages(codec, last));
      DeliverableAppend(UserEvents(codec, front), UserBlockEvents(codec, c));
    }
  }

  lemma NothingSaysNothing(codec: Codec)
    ensures OpenAiEvents(codec, []) == [] && AnthropicMessages(codec, []) == [] && AnthropicEvents([]) == []
  {
  }

  // ---------------------------------------------------------------- one assistant message

  /** A tool call of the history as OpenAI call, and as block of either converter. */
  lemma CallParts(codec: Codec, id: Option<string>, name: Option<string>, params: Json)
    ensures var call := CallJson(codec, id, name, params);
            && GetStr(call, Id) == id && Get(call, Function).Some?
            && GetStr(Get(call, Function).value, NameOf) == name
            && GetStr(Get(call, Function).value, Arguments) == Some(codec.print_(params))
  {
  }

  lemma BlockParts(codec: Codec, id: Option<string>, name: Option<string>, params: Json)
    requires Faithful(codec)
    ensures var block := UseBlock(codec, CallJson(codec, id, name, params));
            && TypeIs(block, "tool_use") && GetStr(block, Id) == id && GetStr(block, NameOf) == name && Get(block, Input) == Some(params)
  {
    hide CallJson;
    CallParts(codec, id, name, params);
  }

  lemma CallPreserved(codec: Codec, id: Option<string>, name: Option<string>, params: Json)
    requires Faithful(codec)
    ensures var call := CallJson(codec, id, name, params);
            && OpenAiCallEvents(codec, [call]) == [Uses(id, name, params)]
            && BlocksEvents(true, [UseBlock(codec, call)]) == [Uses(id, name, params)]
  {
    hide CallJson, UseBlock;
    TypesDiffer();
    CallParts(codec, id, name, params);
    BlockParts(codec, id, name, params);
    var call := CallJson(codec, id, name, params);
    var block := UseBlock(codec, call);
    assert [call][1..] == [] && [block][1..] == [];
  }

  lemma {:induction false} CallsPreserved(codec: Codec, contents: seq<C.Content>)
    requires Faithful(codec)
    ensures OpenAiCallEvents(codec, CallsJson(codec, contents)) == CallEvents(contents)
    ensures BlocksEvents(true, UseBlocks(codec, CallsJson(codec, contents))) == CallEvents(contents)
  {
    hide UseBlock, CallJson, BlockEvents, ParsedInput;
    if contents != [] {
      var front, c := contents[..|contents| - 1], contents[|contents| - 1];
      CallsPreserved(codec, front);
      if c.ToolCall? {
        var call := CallJson(codec, c.id, c.name, c.params);
        var before := CallsJson(codec, front);
        CallPreserved(codec, c.id, c.name, c.params);
        OpenAiCallEventsAppend(codec, before, [call]);
        UseBlocksAppend(codec, before, [call]);
        assert UseBlocks(codec, [call]) == [UseBlock(codec, call)] + UseBlocks(codec, [call][1..]);
        BlocksEventsAppend(true, UseBlocks(codec, before), UseBlocks(codec, [call]));
      } else {
        assert CallsJson(codec, contents) == CallsJson(codec, front);
      }
    }
  }

  /** The parts of an assistant message in OpenAI form. */
  lemma AssistantParts(codec: Codec, contents: seq<C.Content>)
    ensures var m := AssistantJson(codec, contents);
            && RoleIs(m, "assistant")
            && Get(m, Content) == Some(match FirstText(contents) case Some(t) => Str(t) case None => Null)
            && GetArr(m, ToolCalls) == if CallsJson(codec, contents) == [] then None else Some(CallsJson(codec, contents))
  {
  }

  lemma {:induction false} CallsDeliverable(contents: seq<C.Content>)
    ensures Deliverable(CallEvents(contents)) == CallEvents(contents)
  {
    if contents != [] {
      var front, c := contents[..|contents| - 1], contents[|contents| - 1];
      CallsDeliverable(front);
      if c.ToolCall? {
        DeliverableAppend(CallEvents(front), [Uses(c.id, c.name, c.params)]);
        DeliverableOne(Uses(c.id, c.name, c.params));
      } else {
        assert CallEvents(contents) == CallEvents(front);
      }
    }
  }

  lemma AssistantToOpenAi(codec: Codec, contents: seq<C.Content>)
    requires Faithful(codec)
    ensures OpenAiEvents(codec, [AssistantJson(codec, contents)]) == ConveyedOne(codec, C.Message(C.Assistant, contents))
  {
    hide AssistantJson, CallsJson, CallEvents;
    RolesDiffer();
    AssistantParts(codec, contents);
    CallsPreserved(codec, contents);
    var m := AssistantJson(codec, contents);
    assert OpenAiEvents(codec, [m]) == OpenAiOneEvents(codec, m) + OpenAiEvents(codec, []);
  }

  lemma AssistantToAnthropic(codec: Codec, contents: seq<C.Content>)
    requires Faithful(codec)
    ensures AnthropicEvents(AnthropicMessages(codec, [AssistantJson(codec, contents)])) ==
            Deliverable(ConveyedOne(codec, C.Message(C.Assistant, contents)))
  {
    hide AssistantJson, CallsJson, CallEvents, UseBlocks, AnthropicAssistant;
    RolesDiffer();
    AssistantParts(codec, contents);
    var m := AssistantJson(codec, contents);
    var text := FirstText(contents).GetOr("");
    assert AnthropicMessages(codec, [m]) == AnthropicOne(codec, m) + AnthropicMessages(codec, []);
    assert AnthropicOne(codec, m) == AnthropicAssistant(codec, m);
    AssistantToEvents(codec, contents);
    CallsDeliverable(contents);
    DeliverableAppend(TextEvent(true, text), CallEvents(contents));
    assert Deliverable(TextEvent(true, text)) == TextEvent(true, text) by { DeliverableOne(AssistantSays(text)); }
    var out := AnthropicAssistant(codec, m);
    assert out + [] == out;
  }

  lemma AssistantToEvents(codec: Codec, contents: seq<C.Content>)
    requires Faithful(codec)
    ensures AnthropicEvents(AnthropicAssistant(codec, AssistantJson(codec, contents))) ==
            TextEvent(true, FirstText(contents).GetOr("")) + CallEvents(contents)
  {
    hide AssistantJson, CallsJson, CallEvents, UseBlocks, OpenAiCallEvents;
    AssistantParts(codec, contents);
    CallsPreserved(codec, contents);
    NoCallsNoBlocks(codec);
    var m := AssistantJson(codec, contents);
    var text := FirstText(contents).GetOr("");
    assert GetStr(m, Content).GetOr("") == text;
    var out := AnthropicAssistant(codec, m);
    if out != [] { assert AnthropicEvents(out) == AnthropicOneEvents(out[0]) + AnthropicEvents(out[1..]); }
    if CallsJson(codec, contents) != [] {
      var uses := UseBlocks(codec, CallsJson(codec, contents));
      var texts := if text == "" then [] else [TextBlock(text)];
      assert AssistantBlocks(codec, m, CallsJson(codec, contents)) == texts + uses;
      BlocksEventsAppend(true, texts, uses);
      TextBlockEvents(text);
    }
  }

  lemma NoCallsNoBlocks(codec: Codec)
    ensures OpenAiCallEvents(codec, []) == [] && UseBlocks(codec, []) == []
  {
  }

  lemma TextBlockEvents(text: string)
    ensures BlocksEvents(true, if text == "" then [] else [TextBlock(text)]) == TextEvent(true, text)
  {
    if text != "" {
      var blocks := [TextBlock(text)];
      assert BlocksEvents(true, blocks) == BlockEvents(true, blocks[0]) + BlocksEvents(true, blocks[1..]);
    }
  }

  // ---------------------------------------------------------------- whole requests

  lemma SystemSaysNothing(codec: Codec, contents: seq<C.Content>, caching: bool)
    ensures OpenAiEvents(codec, [SystemJson(contents, caching)]) == []
    ensures AnthropicMessages(codec, [SystemJson(contents, caching)]) == []
  {
    RolesDiffer();
    var m := SystemJson(contents, caching);
    assert RoleIs(m, "system");
    assert OpenAiEvents(codec, [m]) == OpenAiOneEvents(codec, m) + OpenAiEvents(codec, []);
    assert AnthropicMessages(codec, [m]) == AnthropicOne(codec, m) + AnthropicMessages(codec, []);
  }

  lemma MessagePreserved(codec: Codec, m: C.Message, caching: bool, newest: bool)
    requires Faithful(codec)
    ensures OpenAiEvents(codec, MessageJson(codec, m, caching, newest)) == ConveyedOne(codec, m)
    ensures AnthropicEvents(AnthropicMessages(codec, MessageJson(codec, m, caching, newest))) == Deliverable(ConveyedOne(codec, m))
  {
    hide UserMessages, SystemJson, AssistantJson, AnthropicMessages, OpenAiEvents, CallEvents, UserEvents, AnthropicEvents;
    match m.role
    case System =>
      SystemSaysNothing(codec, m.contents, caching);
      NothingSaysNothing(codec);
    case User => UserContents(codec, m.contents, caching && newest);
    case Assistant =>
      assert m == C.Message(C.Assistant, m.contents);
      AssistantToOpenAi(codec, m.contents);
      AssistantToAnthropic(codec, m.contents);
  }

  lemma {:induction false} RequestPreservesFrom(codec: Codec, msgs: seq<C.Message>, caching: bool, i: nat)
    requires Faithful(codec) && i <= |msgs|
    ensures OpenAiEvents(codec, MessagesFrom(codec, msgs, caching, i)) == ConveyedFrom(codec, msgs, i)
    ensures AnthropicEvents(AnthropicMessages(codec, MessagesFrom(codec, msgs, caching, i))) == Deliverable(ConveyedFrom(codec, msgs, i))
    decreases |msgs| - i
  {
    hide MessageJson, AnthropicMessages, OpenAiEvents, ConveyedOne, AnthropicEvents;
    if i == |msgs| {
      NothingSaysNothing(codec);
    } else {
      var part, rest := MessageJson(codec, msgs[i], caching, i + 1 == |msgs|), MessagesFrom(codec, msgs, caching, i + 1);
      MessagePreserved(codec, msgs[i], caching, i + 1 == |msgs|);
      RequestPreservesFrom(codec, msgs, caching, i + 1);
      OpenAiEventsAppend(codec, part, rest);
      AnthropicMessagesAppend(codec, part, rest);
      AnthropicEventsAppend(AnthropicMessages(codec, part), AnthropicMessages(codec, rest));
      DeliverableAppend(ConveyedOne(codec, msgs[i]), ConveyedFrom(codec, msgs, i + 1));
    }
  }

  lemma {:induction false} OpenAiConveys(codec: Codec, msgs: seq<C.Message>, caching: bool)
    requires Faithful(codec)
    ensures OpenAiEvents(codec, RequestMessages(codec, msgs, caching)) == Conveyed(codec, msgs)
  {
    RequestPreservesFrom(codec, msgs, caching, 0);
  }

  lemma {:induction false} AnthropicConveys(codec: Codec, msgs: seq<C.Message>, caching: bool)
    requires Faithful(codec)
    ensures AnthropicEvents(AnthropicMessages(codec, RequestMessages(codec, msgs, caching))) == Deliverable(Conveyed(codec, msgs))
  {
    RequestPreservesFrom(codec, msgs, caching, 0);
  }
}
