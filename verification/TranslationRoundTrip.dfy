/** An assistant message sent out and echoed back, and the two Anthropic translations compared. */
module TranslationRoundTrip {
  import opened Wrappers
  import opened Json
  import C = Conversation
  import opened OpenAiRequest
  import opened Translation
  import opened BedrockTranslation
  import P = TranslationProofs

  // ---------------------------------------------------------------- out and back

  /** The assistant message goes through OpenAI form to Anthropic blocks; the model echoes them,
      and the response becomes history content again. */
  function Echo(codec: Codec, contents: seq<C.Content>): seq<C.Content> {
    var sent := AnthropicOne(codec, AssistantJson(codec, contents));
    if sent == [] then [] else C.AssistantContents(codec, FirstMessage(OpenAiResponse(codec, sent[0])).GetOr(Null))
  }

  lemma WrappedMessage(codec: Codec, response: Json)
    ensures FirstMessage(OpenAiResponse(codec, response)) == Some(ResponseMessage(codec, response))
  {
    hide ResponseMessage;
  }

  /** At most one text, in front and not empty, and then tool calls with ids. */
  predicate Canonical(contents: seq<C.Content>) {
    var k := if contents != [] && contents[0].Text? && contents[0].text.Some? && contents[0].text.value != "" then 1 else 0;
    forall j :: k <= j < |contents| ==> contents[j].ToolCall? && contents[j].id.Some?
  }

  function IdCalls(contents: seq<C.Content>): seq<C.Content> {
    if contents == [] then []
    else
      var c := contents[|contents| - 1];
      IdCalls(contents[..|contents| - 1]) + if c.ToolCall? && c.id.Some? then [c] else []
  }

  function TextPart(contents: seq<C.Content>): seq<C.Content> {
    var text := FirstText(contents).GetOr("");
    if text == "" then [] else [C.Text(Some(text))]
  }

  lemma CallEchoed(codec: Codec, id: Option<string>, name: Option<string>, params: Json)
    requires Faithful(codec)
    ensures var call := CallJson(codec, id, name, params);
            CallOfUse(codec, UseBlock(codec, call)) == call
  {
    hide UseBlock;
    P.BlockParts(codec, id, name, params);
  }

  lemma CallStored(codec: Codec, id: Option<string>, name: Option<string>, params: Json)
    requires Faithful(codec)
    ensures var call := CallJson(codec, id, name, params);
            && (C.WellFormedCall(call) <==> id.Some?)
            && C.CallContent(codec, call) == C.ToolCall(id, name, params)
  {
    hide CallJson;
    P.CallParts(codec, id, name, params);
  }

  lemma {:induction false} CallsOfUsesAppend(codec: Codec, a: seq<Json>, b: seq<Json>)
    ensures CallsOfUses(codec, a + b) == CallsOfUses(codec, a) + CallsOfUses(codec, b)
  {
    hide CallOfUse;
    if a == [] {
      assert a + b == b;
    } else {
      assert (a + b)[1..] == a[1..] + b;
      CallsOfUsesAppend(codec, a[1..], b);
    }
  }

  lemma OneUse(codec: Codec, call: Json, block: Json)
    requires TypeIs(block, "tool_use") && CallOfUse(codec, block) == call
    ensures CallsOfUses(codec, [block]) == [call]
  {
    assert CallsOfUses(codec, [block]) == [call] + CallsOfUses(codec, [block][1..]);
  }

  /** The tool calls survive the trip, and the blocks they become hold no text. */
  lemma {:induction false} CallsEchoed(codec: Codec, contents: seq<C.Content>)
    requires Faithful(codec)
    ensures var blocks := UseBlocks(codec, CallsJson(codec, contents));
            && CallsOfUses(codec, blocks) == CallsJson(codec, contents)
            && forall b :: b in blocks ==> TypeIs(b, "tool_use")
  {
    hide UseBlock, CallJson, CallOfUse;
    if contents != [] {
      var front, c := contents[..|contents| - 1], contents[|contents| - 1];
      CallsEchoed(codec, front);
      if c.ToolCall? {
        var call := CallJson(codec, c.id, c.name, c.params);
        var block := UseBlock(codec, call);
        P.UseBlocksAppend(codec, CallsJson(codec, front), [call]);
        OneBlock(codec, call);
        CallEchoed(codec, c.id, c.name, c.params);
        P.BlockParts(codec, c.id, c.name, c.params);
        OneUse(codec, call, block);
        CallsOfUsesAppend(codec, UseBlocks(codec, CallsJson(codec, front)), [block]);
      } else {
        assert CallsJson(codec, contents) == CallsJson(codec, front);
      }
    }
  }

  lemma OneBlock(codec: Codec, call: Json)
    ensures UseBlocks(codec, [call]) == [UseBlock(codec, call)]
  {
    hide UseBlock;
    assert [call][1..] == [];
  }

  lemma {:induction false} CallsStored(codec: Codec, contents: seq<C.Content>)
    requires Faithful(codec)
    ensures C.CallContents(codec, CallsJson(codec, contents)) == IdCalls(contents)
  {
    hide CallJson, C.WellFormedCall, C.CallContent;
    if contents != [] {
      var front, c := contents[..|contents| - 1], contents[|contents| - 1];
      CallsStored(codec, front);
      if c.ToolCall? {
        CallStored(codec, c.id, c.name, c.params);
        var all := CallsJson(codec, contents);
        assert all[..|all| - 1] == CallsJson(codec, front);
      } else {
        assert CallsJson(codec, contents) == CallsJson(codec, front);
      }
    }
  }

  lemma {:induction false} NoTextInUses(blocks: seq<Json>)
    requires forall b :: b in blocks ==> TypeIs(b, "tool_use")
    ensures FirstBlockText(blocks) == None
  {
    P.TypesDiffer();
    if blocks != [] {
      assert blocks[0] in blocks;
      NoTextInUses(blocks[1..]);
    }
  }

  /** What the response message of an echoed assistant message holds. */
  lemma EchoedMessage(codec: Codec, contents: seq<C.Content>)
    requires Faithful(codec)
    ensures var sent := AnthropicOne(codec, AssistantJson(codec, contents));
            var text, calls := FirstText(contents).GetOr(""), CallsJson(codec, contents);
            && (sent == [] <==> text == "" && calls == [])
            && (sent != [] ==> ResponseMessage(codec, sent[0]) == AssistantMessage(if text == "" then None else Some(text), calls))
  {
    hide AssistantJson, CallsJson, UseBlocks, AssistantMessage;
    P.RolesDiffer();
    P.AssistantParts(codec, contents);
    var m := AssistantJson(codec, contents);
    var text, calls := FirstText(contents).GetOr(""), CallsJson(codec, contents);
    assert GetStr(m, Content).GetOr("") == text;
    if calls != [] {
      var uses := UseBlocks(codec, calls);
      assert uses != [] by { SomeBlocks(codec, calls); }
      var blocks := (if text == "" then [] else [TextBlock(text)]) + uses;
      assert AnthropicOne(codec, m) == [RoleMessage("assistant", Some(Arr(blocks)))];
      BlocksEchoed(codec, contents, text);
    }
  }

  lemma SomeBlocks(codec: Codec, calls: seq<Json>)
    requires calls != []
    ensures UseBlocks(codec, calls) != []
  {
  }

  lemma BlocksEchoed(codec: Codec, contents: seq<C.Content>, text: string)
    requires Faithful(codec)
    ensures var blocks := (if text == "" then [] else [TextBlock(text)]) + UseBlocks(codec, CallsJson(codec, contents));
            && FirstBlockText(blocks) == (if text == "" then None else Some(text))
            && CallsOfUses(codec, blocks) == CallsJson(codec, contents)
  {
    hide UseBlocks, CallOfUse;
    P.TypesDiffer();
    CallsEchoed(codec, contents);
    var uses := UseBlocks(codec, CallsJson(codec, contents));
    NoTextInUses(uses);
    if text == "" {
      assert [] + uses == uses;
    } else {
      assert ([TextBlock(text)] + uses)[1..] == uses;
    }
  }

  lemma NoCallsStored(codec: Codec)
    ensures C.CallContents(codec, []) == []
  {
  }

  /** What comes back: the first text, when not empty, and then the tool calls with an id. */
  lemma {:induction false} EchoIs(codec: Codec, contents: seq<C.Content>)
    requires Faithful(codec)
    ensures Echo(codec, contents) == TextPart(contents) + IdCalls(contents)
  {
    hide CallsJson, AnthropicOne, AssistantJson, ResponseMessage, OpenAiResponse, FirstMessage, C.CallContents, IdCalls;
    EchoedMessage(codec, contents);
    var sent := AnthropicOne(codec, AssistantJson(codec, contents));
    if sent != [] { WrappedMessage(codec, sent[0]); }
    CallsStored(codec, contents);
    NoCallsStored(codec);
    var text, calls := FirstText(contents).GetOr(""), CallsJson(codec, contents);
    var m := AssistantMessage(if text == "" then None else Some(text), calls);
    assert GetStr(m, Content) == (if text == "" then None else Some(text));
    assert GetArr(m, ToolCalls).GetOr([]) == calls;
  }

  lemma {:induction false} IdCallsAreCalls(contents: seq<C.Content>)
    ensures forall c :: c in IdCalls(contents) ==> c.ToolCall? && c.id.Some?
  {
    if contents != [] { IdCallsAreCalls(contents[..|contents| - 1]); }
  }

  lemma {:induction false} IdCallsKeeps(contents: seq<C.Content>, k: nat)
    requires k <= |contents| && forall j :: k <= j < |contents| ==> contents[j].ToolCall? && contents[j].id.Some?
    requires forall j :: 0 <= j < k ==> !contents[j].ToolCall?
    ensures IdCalls(contents) == contents[k..]
  {
    if contents != [] {
      var n := |contents| - 1;
      if k <= n {
        IdCallsKeeps(contents[..n], k);
        assert contents[k..] == contents[..n][k..] + [contents[n]];
      } else {
        IdCallsKeeps(contents[..n], n);
      }
    }
  }

  lemma {:induction false} NoFirstText(contents: seq<C.Content>)
    requires forall c :: c in contents ==> c.ToolCall?
    ensures FirstText(contents) == None
  {
    if contents != [] {
      assert contents[0] in contents;
      NoFirstText(contents[1..]);
    }
  }

  /** The round trip changes nothing exactly for canonical messages. */
  lemma {:induction false} EchoUnchangedExactly(codec: Codec, contents: seq<C.Content>)
    requires Faithful(codec)
    ensures Echo(codec, contents) == contents <==> Canonical(contents)
  {
    hide Echo;
    EchoIs(codec, contents);
    if Canonical(contents) {
      var k := if contents != [] && contents[0].Text? && contents[0].text.Some? && contents[0].text.value != "" then 1 else 0;
      IdCallsKeeps(contents, k);
      if k == 0 {
        NoFirstText(contents);
      } else {
        assert contents == [contents[0]] + contents[1..];
      }
    } else if Echo(codec, contents) == contents {
      EchoIsCanonical(codec, contents);
    }
  }

  /** Whatever is echoed is canonical, so a second trip changes nothing. */
  lemma {:induction false} EchoIsCanonical(codec: Codec, contents: seq<C.Content>)
    requires Faithful(codec)
    ensures Canonical(Echo(codec, contents))
  {
    hide Echo, IdCalls, FirstText;
    EchoIs(codec, contents);
    IdCallsAreCalls(contents);
    var echo := Echo(codec, contents);
    var t := |TextPart(contents)|;
    forall j | t <= j < |echo| ensures echo[j].ToolCall? && echo[j].id.Some? {
      assert echo[j] == IdCalls(contents)[j - t];
    }
  }

  /** What the history stores of any provider message is canonical, unless its text is empty. */
  lemma {:induction false} StoredIsCanonical(codec: Codec, message: Json)
    ensures Canonical(C.AssistantContents(codec, message)) <==> GetStr(message, Content) != Some("")
  {
    hide C.CallContents;
    var calls := C.CallContents(codec, GetArr(message, ToolCalls).GetOr([]));
    StoredCalls(codec, GetArr(message, ToolCalls).GetOr([]));
    var all := C.AssistantContents(codec, message);
    var t := |all| - |calls|;
    forall j | t <= j < |all| ensures all[j].ToolCall? && all[j].id.Some? {
      assert all[j] == calls[j - t];
    }
  }

  lemma {:induction false} StoredCalls(codec: Codec, calls: seq<Json>)
    ensures forall c :: c in C.CallContents(codec, calls) ==> c.ToolCall? && c.id.Some?
  {
    if calls != [] { StoredCalls(codec, calls[..|calls| - 1]); }
  }

  // ---------------------------------------------------------------- Anthropic against Bedrock

  /** A request message that Bedrock drops and Anthropic keeps: a plain empty user text, or a tool
      result without an id. */
  predicate Dropped(m: Json) {
    (RoleIs(m, "user") && GetStr(m, Content) == Some("")) || (RoleIs(m, "tool") && GetStr(m, ToolCallId).None?)
  }

  /** The two converters agree on m, or m is dropped by one of them. */
  predicate Agree(codec: Codec, m: Json) {
    if Dropped(m) then BedrockOne(codec, m) == [] && |AnthropicOne(codec, m)| == 1
    else BedrockOne(codec, m) == AnthropicOne(codec, m)
  }

  lemma UserBlockAgrees(codec: Codec, c: C.Content, cached: bool)
    ensures forall m :: m in UserBlock(codec, c, cached) ==> Agree(codec, m)
  {
    P.RolesDiffer();
    var out := UserBlock(codec, c, cached);
    if out != [] {
      if c.Text? { UserTextAgrees(codec, c.text.value, cached); } else { ToolAgrees(codec, c.id, c.output); }
    }
  }

  lemma UserTextAgrees(codec: Codec, text: string, cached: bool)
    ensures Agree(codec, UserJson(text, cached))
  {
    hide BedrockUser, AnthropicUser, UserJson;
    P.RolesDiffer();
    var m := UserJson(text, cached);
    UserJsonParts(text, cached);
    assert AnthropicOne(codec, m) == AnthropicUser(m) && BedrockOne(codec, m) == BedrockUser(m);
    UserTextTo(text, cached);
  }

  lemma UserJsonParts(text: string, cached: bool)
    ensures RoleIs(UserJson(text, cached), "user") && Get(UserJson(text, cached), Content) == Some(TextContent(text, cached))
  {
  }

  lemma UserTextTo(text: string, cached: bool)
    ensures |AnthropicUser(UserJson(text, cached))| == 1
    ensures BedrockUser(UserJson(text, cached)) == if !cached && text == "" then [] else AnthropicUser(UserJson(text, cached))
  {
    hide UserJson;
    UserJsonParts(text, cached);
    if cached { CachedTextKept(text); }
  }

  lemma CachedTextKept(text: string)
    ensures ContentBlocks([CachedText(text)]) == [CachedText(text)]
  {
    hide CachedText, ImageOf;
    assert GetStr(CachedText(text), Type) == Some("text") by { CachedType(text); }
    assert "text" != "image_url";
    assert [CachedText(text)][1..] == [];
  }

  lemma CachedType(text: string)
    ensures GetStr(CachedText(text), Type) == Some("text")
  {
  }

  lemma ToolAgrees(codec: Codec, id: Option<string>, output: Json)
    ensures Agree(codec, ToolJson(codec, id, output))
  {
    P.RolesDiffer();
    var m := ToolJson(codec, id, output);
    assert GetStr(m, ToolCallId) == id && Get(m, Content) == Some(Str(codec.print_(output)));
    assert AnthropicOne(codec, m) == AnthropicTool(codec, m) && BedrockOne(codec, m) == BedrockTool(codec, m);
  }

  lemma {:induction false} UserMessagesAgree(codec: Codec, contents: seq<C.Content>, cached: bool)
    ensures forall m :: m in UserMessages(codec, contents, cached) ==> Agree(codec, m)
  {
    hide Agree, UserBlock;
    if contents != [] {
      UserMessagesAgree(codec, contents[..|contents| - 1], cached);
      UserBlockAgrees(codec, contents[|contents| - 1], cached);
    }
  }

  /** The arguments that the builder prints always parse, so both converters make the same block. */
  lemma ToolUseAgrees(codec: Codec, id: Option<string>, name: Option<string>, params: Json)
    requires Faithful(codec)
    ensures var call := CallJson(codec, id, name, params); ToolUseBlock(codec, call) == UseBlock(codec, call)
  {
    hide CallJson;
    P.CallParts(codec, id, name, params);
  }

  lemma {:induction false} ToolUsesAppend(codec: Codec, a: seq<Json>, b: seq<Json>)
    ensures ToolUseBlocks(codec, a + b) == ToolUseBlocks(codec, a) + ToolUseBlocks(codec, b)
  {
    hide ToolUseBlock;
    if a == [] {
      assert a + b == b;
    } else {
      assert (a + b)[1..] == a[1..] + b;
      ToolUsesAppend(codec, a[1..], b);
    }
  }

  lemma {:induction false} ToolUsesAgree(codec: Codec, contents: seq<C.Content>)
    requires Faithful(codec)
    ensures ToolUseBlocks(codec, CallsJson(codec, contents)) == UseBlocks(codec, CallsJson(codec, contents))
  {
    hide CallJson, UseBlock, ToolUseBlock;
    if contents != [] {
      var front, c := contents[..|contents| - 1], contents[|contents| - 1];
      ToolUsesAgree(codec, front);
      if c.ToolCall? {
        var call := CallJson(codec, c.id, c.name, c.params);
        ToolUseAgrees(codec, c.id, c.name, c.params);
        P.UseBlocksAppend(codec, CallsJson(codec, front), [call]);
        ToolUsesAppend(codec, CallsJson(codec, front), [call]);
        assert [call][1..] == [];
      } else {
        assert CallsJson(codec, contents) == CallsJson(codec, front);
      }
    }
  }

  lemma AssistantAgrees(codec: Codec, contents: seq<C.Content>)
    requires Faithful(codec)
    ensures Agree(codec, AssistantJson(codec, contents))
  {
    hide AssistantJson, CallsJson, UseBlocks, ToolUseBlocks;
    P.RolesDiffer();
    P.AssistantParts(codec, contents);
    ToolUsesAgree(codec, contents);
    var m, calls := AssistantJson(codec, contents), CallsJson(codec, contents);
    assert AnthropicOne(codec, m) == AnthropicAssistant(codec, m) && BedrockOne(codec, m) == BedrockAssistant(codec, m);
    assert LeadingText(Get(m, Content)) == (var text := GetStr(m, Content).GetOr(""); if text == "" then [] else [TextBlock(text)]);
    if calls != [] {
      assert AssistantBlocks(codec, m, calls) == LeadingText(Get(m, Content)) + ToolUseBlocks(codec, calls);
    }
  }

  lemma SystemAgrees(codec: Codec, contents: seq<C.Content>, caching: bool)
    ensures Agree(codec, SystemJson(contents, caching))
  {
    P.RolesDiffer();
    assert RoleIs(SystemJson(contents, caching), "system");
  }

  lemma MessageAgrees(codec: Codec, msg: C.Message, caching: bool, newest: bool)
    requires Faithful(codec)
    ensures forall m :: m in MessageJson(codec, msg, caching, newest) ==> Agree(codec, m)
  {
    hide Agree, AssistantJson, UserMessages, SystemJson;
    match msg.role
    case System => SystemAgrees(codec, msg.contents, caching);
    case User => UserMessagesAgree(codec, msg.contents, caching && newest);
    case Assistant => AssistantAgrees(codec, msg.contents);
  }

  lemma {:induction false} RequestAgrees(codec: Codec, msgs: seq<C.Message>, caching: bool, i: nat)
    requires Faithful(codec) && i <= |msgs|
    ensures forall m :: m in MessagesFrom(codec, msgs, caching, i) ==> Agree(codec, m)
    decreases |msgs| - i
  {
    hide Agree, MessageJson;
    if i < |msgs| {
      RequestAgrees(codec, msgs, caching, i + 1);
      MessageAgrees(codec, msgs[i], caching, i + 1 == |msgs|);
    }
  }

  lemma {:induction false} AgreeingLists(codec: Codec, req: seq<Json>)
    requires forall m :: m in req ==> Agree(codec, m)
    ensures |BedrockMessages(codec, req)| <= |AnthropicMessages(codec, req)|
    ensures BedrockMessages(codec, req) == AnthropicMessages(codec, req) <==> forall m :: m in req ==> !Dropped(m)
    ensures (exists m :: m in req && Dropped(m)) ==> |BedrockMessages(codec, req)| < |AnthropicMessages(codec, req)|
  {
    hide Dropped, BedrockOne, AnthropicOne;
    if req != [] {
      assert req == [req[0]] + req[1..] && req[0] in req;
      AgreeingLists(codec, req[1..]);
      forall m | m in req ensures m == req[0] || m in req[1..] {
      }
      if Dropped(req[0]) {
        assert |BedrockMessages(codec, req)| < |AnthropicMessages(codec, req)|;
      }
    }
  }

  /** On every request that the builder emits, Bedrock sends the very message list that Anthropic
      sends exactly when no plain user text is empty and every tool result has an id. */
  lemma {:induction false} BedrockAgreesExactly(codec: Codec, msgs: seq<C.Message>, caching: bool)
    requires Faithful(codec)
    ensures var req := RequestMessages(codec, msgs, caching);
            BedrockMessages(codec, req) == AnthropicMessages(codec, req) <==> forall m :: m in req ==> !Dropped(m)
  {
    RequestAgrees(codec, msgs, caching, 0);
    AgreeingLists(codec, RequestMessages(codec, msgs, caching));
  }

  /** A request on which they differ: an empty line from the user. */
  lemma {:induction false} EmptyLineIsDropped(codec: Codec)
    requires Faithful(codec)
    ensures var req := RequestMessages(codec, [C.Message(C.User, [C.Text(Some(""))])], false);
            BedrockMessages(codec, req) != AnthropicMessages(codec, req)
  {
    var contents := [C.Text(Some(""))];
    var msgs := [C.Message(C.User, contents)];
    var m := UserJson("", false);
    assert contents[..0] == [] && UserMessages(codec, contents, false) == UserMessages(codec, [], false) + UserBlock(codec, contents[0], false);
    var req := RequestMessages(codec, msgs, false);
    assert req == MessageJson(codec, msgs[0], false, true) + MessagesFrom(codec, msgs, false, 1) == [m];
    assert Dropped(m) && req[0] in req;
    BedrockAgreesExactly(codec, msgs, false);
  }

  /** A message that does not survive the trip: an empty answer, as the history stores it. */
  lemma {:induction false} EmptyAnswerIsLost(codec: Codec)
    requires Faithful(codec)
    ensures var stored := C.AssistantContents(codec, Obj(map[Content := Str("")]));
            stored == [C.Text(Some(""))] && Echo(codec, stored) != stored
  {
    hide Echo;
    var message := Obj(map[Content := Str("")]);
    assert GetArr(message, ToolCalls).GetOr([]) == [];
    NoCallsStored(codec);
    var stored := C.AssistantContents(codec, message);
    StoredIsCanonical(codec, message);
    EchoUnchangedExactly(codec, stored);
  }

  /** A response whose content is a plain string is stored as that text; one without content leaves
      nothing to store. */
  lemma {:induction false} PlainAnswerIsStored(codec: Codec, response: Json)
    ensures var stored := C.AssistantContents(codec, FirstMessage(OpenAiResponse(codec, response)).GetOr(Null));
            && (Get(response, Content).Some? && Get(response, Content).value.Str? ==> stored == [C.Text(Some(Get(response, Content).value.s))])
            && (Get(response, Content).None? ==> stored == [])
  {
    WrappedMessage(codec, response);
    NoCallsStored(codec);
    var message := ResponseMessage(codec, response);
    if Get(response, Content).None? || Get(response, Content).value.Str? { assert GetArr(message, ToolCalls).GetOr([]) == []; }
  }
}
