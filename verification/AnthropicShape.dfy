/** What the Anthropic translation of a well-formed request looks like: roles, blocks, and what is
    passed on unchanged. */
module AnthropicShape {
  import opened Wrappers
  import opened Json
  import C = Conversation
  import opened OpenAiRequest
  import opened Translation
  import opened RequestShape

  predicate TextBlockShape(block: Json) { TypeIs(block, "text") && GetStr(block, TextOf).Some? }

  predicate ResultShape(block: Json) {
    TypeIs(block, "tool_result") && GetStr(block, ToolUseId).Some? && GetStr(block, Content).Some?
  }

  predicate UseShape(block: Json) { TypeIs(block, "tool_use") && Get(block, Input).Some? }

  /** User messages hold a text, text blocks or a tool result; they lack content for a result
      without an id. */
  predicate UserShape(m: Json) {
    && RoleIs(m, "user")
    && match Get(m, Content)
       case None => true
       case Some(Str(_)) => true
       case Some(Arr(blocks)) => blocks != [] && forall b :: b in blocks ==> TextBlockShape(b) || ResultShape(b)
       case _ => false
  }

  /** Assistant messages are never empty: a text, or text before tool uses that all have an input. */
  predicate AssistantShape(m: Json) {
    && RoleIs(m, "assistant")
    && match Get(m, Content)
       case Some(Str(s)) => s != ""
       case Some(Arr(blocks)) =>
         && blocks != []
         && (TextBlockShape(blocks[0]) ==> GetStr(blocks[0], TextOf) != Some(""))
         && forall j :: 0 <= j < |blocks| ==> UseShape(blocks[j]) || (j == 0 && TextBlockShape(blocks[0]))
       case _ => false
  }

  lemma BlockHasUseShape(codec: Codec, call: Json)
    requires CallShape(call)
    ensures UseShape(UseBlock(codec, call))
  {
  }

  lemma {:induction false} UsesHaveShape(codec: Codec, calls: seq<Json>)
    requires forall c :: c in calls ==> CallShape(c)
    ensures |UseBlocks(codec, calls)| == |calls|
    ensures forall j :: 0 <= j < |calls| ==> UseShape(UseBlocks(codec, calls)[j])
  {
    hide CallShape, UseShape, UseBlock;
    if calls != [] {
      assert calls[0] in calls;
      BlockHasUseShape(codec, calls[0]);
      UsesHaveShape(codec, calls[1..]);
    }
  }

  /** Text, when there is any, and then the tool uses. */
  lemma BlocksHaveShape(codec: Codec, m: Json, calls: seq<Json>)
    requires calls != [] && forall c :: c in calls ==> CallShape(c)
    ensures AssistantShape(RoleMessage("assistant", Some(Arr(AssistantBlocks(codec, m, calls)))))
  {
    hide CallShape, UseShape, TextBlockShape, UseBlocks;
    UsesHaveShape(codec, calls);
    var text, uses := GetStr(m, Content).GetOr(""), UseBlocks(codec, calls);
    var blocks := AssistantBlocks(codec, m, calls);
    if text == "" {
      assert blocks == uses && UseShape(blocks[0]);
      UseIsNoText(blocks[0]);
    } else {
      TextHasShape(text);
      assert blocks[0] == TextBlock(text) && blocks[1..] == uses;
      forall j | 0 < j < |blocks| ensures UseShape(blocks[j]) { assert blocks[j] == uses[j - 1]; }
    }
    RoleIsThere(blocks);
  }

  lemma TextHasShape(text: string)
    ensures TextBlockShape(TextBlock(text)) && GetStr(TextBlock(text), TextOf) == Some(text)
  {
  }

  lemma RoleIsThere(blocks: seq<Json>)
    ensures var a := RoleMessage("assistant", Some(Arr(blocks))); RoleIs(a, "assistant") && Get(a, Content) == Some(Arr(blocks))
  {
  }

  lemma AssistantKeepsShape(codec: Codec, m: Json)
    requires MessageShape(m) && RoleIs(m, "assistant")
    ensures forall a :: a in AnthropicAssistant(codec, m) ==> AssistantShape(a)
  {
    hide CallShape, UseShape, AssistantBlocks;
    RoleNames();
    match GetArr(m, ToolCalls)
    case Some(calls) => BlocksHaveShape(codec, m, calls);
    case None =>
  }

  lemma UseIsNoText(block: Json)
    requires UseShape(block)
    ensures !TextBlockShape(block)
  {
    assert "tool_use"[1] != "text"[1];
  }

  lemma RoleNames()
    ensures "assistant" != "user" && "assistant" != "tool" && "user" != "tool"
    ensures "system" != "assistant" && "system" != "user" && "system" != "tool"
  {
    assert "assistant"[0] == 'a' && "user"[0] == 'u' && "tool"[0] == 't' && "system"[0] == 's';
  }

  /** A user message is passed on with the very same content, cache marks included. */
  lemma UserPassesUnchanged(codec: Codec, m: Json)
    requires RoleIs(m, "user") && TextShape(m)
    ensures AnthropicOne(codec, m) == [Obj(map[Role := Str("user"), Content := Get(m, Content).GetOr(Null)])]
  {
    RoleNames();
  }

  lemma UserKeepsShape(codec: Codec, m: Json)
    requires RoleIs(m, "user") && TextShape(m)
    ensures forall a :: a in AnthropicOne(codec, m) ==> UserShape(a)
  {
    UserPassesUnchanged(codec, m);
    var a := Obj(map[Role := Str("user"), Content := Get(m, Content).GetOr(Null)]);
    assert Get(a, Content) == Get(m, Content) && RoleIs(a, "user");
  }

  lemma ToolKeepsShape(codec: Codec, m: Json)
    requires RoleIs(m, "tool")
    ensures forall a :: a in AnthropicTool(codec, m) ==> UserShape(a)
  {
    match GetStr(m, ToolCallId)
    case Some(id) =>
      var block := ResultBlock(id, Str(ContentText(codec, Get(m, Content))));
      assert ResultShape(block);
      assert RoleIs(RoleMessage("user", Some(Arr([block]))), "user");
    case None => assert RoleIs(RoleMessage("user", None), "user");
  }

  lemma MessageKeepsShape(codec: Codec, m: Json)
    requires MessageShape(m)
    ensures forall a :: a in AnthropicOne(codec, m) ==> UserShape(a) || AssistantShape(a)
  {
    hide UserShape, AssistantShape, AnthropicAssistant, AnthropicUser, AnthropicTool, TextShape;
    RoleNames();
    if RoleIs(m, "assistant") {
      AssistantKeepsShape(codec, m);
    } else if RoleIs(m, "user") {
      UserKeepsShape(codec, m);
    } else if RoleIs(m, "tool") {
      ToolKeepsShape(codec, m);
    }
  }

  lemma {:induction false} MessagesKeepShape(codec: Codec, messages: seq<Json>)
    requires forall m :: m in messages ==> MessageShape(m)
    ensures forall a :: a in AnthropicMessages(codec, messages) ==> UserShape(a) || AssistantShape(a)
  {
    hide MessageShape, UserShape, AssistantShape, AnthropicOne;
    if messages != [] {
      assert messages[0] in messages;
      MessageKeepsShape(codec, messages[0]);
      MessagesKeepShape(codec, messages[1..]);
    }
  }

  /** Whatever the history, every message of the Anthropic translation of its request is well
      formed: tool uses stand only in assistant messages, tool results only in user messages. */
  lemma {:induction false} TranslationsAreWellFormed(codec: Codec, msgs: seq<C.Message>, caching: bool)
    ensures forall a :: a in AnthropicMessages(codec, RequestMessages(codec, msgs, caching)) ==> UserShape(a) || AssistantShape(a)
  {
    hide MessageShape, UserShape, AssistantShape;
    RequestsAreWellFormed(codec, msgs, caching);
    MessagesKeepShape(codec, RequestMessages(codec, msgs, caching));
  }
}
