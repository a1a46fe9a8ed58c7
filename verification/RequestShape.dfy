/** Every message of a request has the members that the chat format asks for. */
module RequestShape {
  import opened Wrappers
  import opened Json
  import C = Conversation
  import opened OpenAiRequest

  /** A tool call: its type, and a function with printed arguments. */
  predicate CallShape(call: Json) {
    && GetStr(call, Type) == Some("function")
    && Get(call, Function).Some? && GetStr(Get(call, Function).value, Arguments).Some?
  }

  /** A text, or one text block. */
  predicate TextShape(m: Json) {
    || GetStr(m, Content).Some?
    || (GetArr(m, Content).Some? && |GetArr(m, Content).value| == 1 &&
        (var block := GetArr(m, Content).value[0]; GetStr(block, Type) == Some("text") && GetStr(block, TextOf).Some?))
  }

  /** Content is never missing, except in a system message without a text, and `tool_calls` is
      never an empty array. */
  predicate MessageShape(m: Json) {
    || (RoleIs(m, "system") && (TextShape(m) || Get(m, Content).None?))
    || (RoleIs(m, "user") && TextShape(m))
    || (RoleIs(m, "tool") && GetStr(m, Content).Some?)
    || (RoleIs(m, "assistant") && (GetStr(m, Content).Some? || Get(m, Content) == Some(Null)) &&
        match Get(m, ToolCalls)
        case None => true
        case Some(Arr(calls)) => calls != [] && forall c :: c in calls ==> CallShape(c)
        case _ => false)
  }

  lemma {:induction false} CallsHaveShape(codec: Codec, contents: seq<C.Content>)
    ensures forall c :: c in CallsJson(codec, contents) ==> CallShape(c)
  {
    hide CallShape, CallJson;
    if contents != [] {
      var n := |contents| - 1;
      CallsHaveShape(codec, contents[..n]);
      if contents[n].ToolCall? { OneCallHasShape(codec, contents[n].id, contents[n].name, contents[n].params); }
    }
  }

  lemma OneCallHasShape(codec: Codec, id: Option<string>, name: Option<string>, params: Json)
    ensures CallShape(CallJson(codec, id, name, params))
  {
  }

  lemma {:induction false} UserMessagesHaveShape(codec: Codec, contents: seq<C.Content>, cached: bool)
    ensures forall m :: m in UserMessages(codec, contents, cached) ==> MessageShape(m)
  {
    hide MessageShape, UserBlock;
    if contents != [] {
      var n := |contents| - 1;
      UserMessagesHaveShape(codec, contents[..n], cached);
      UserBlockHasShape(codec, contents[n], cached);
    }
  }

  lemma UserBlockHasShape(codec: Codec, c: C.Content, cached: bool)
    ensures forall m :: m in UserBlock(codec, c, cached) ==> MessageShape(m)
  {
    if c.Text? && c.text.Some? {
      assert GetStr(UserJson(c.text.value, cached), Role) == Some("user");
    } else if c.ToolResponse? {
      assert GetStr(ToolJson(codec, c.id, c.output), Role) == Some("tool");
    }
  }

  lemma AssistantHasShape(codec: Codec, contents: seq<C.Content>)
    ensures MessageShape(AssistantJson(codec, contents))
  {
    hide CallsJson, FirstText, CallShape;
    CallsHaveShape(codec, contents);
    assert GetStr(AssistantJson(codec, contents), Role) == Some("assistant");
  }

  lemma SystemHasShape(contents: seq<C.Content>, caching: bool)
    ensures MessageShape(SystemJson(contents, caching))
  {
    hide FirstText;
    assert GetStr(SystemJson(contents, caching), Role) == Some("system");
  }

  lemma {:induction false} MessagesHaveShape(codec: Codec, msgs: seq<C.Message>, caching: bool, i: nat)
    requires i <= |msgs|
    ensures forall m :: m in MessagesFrom(codec, msgs, caching, i) ==> MessageShape(m)
    decreases |msgs| - i
  {
    hide MessageShape, SystemJson, AssistantJson, UserMessages;
    if i < |msgs| {
      MessagesHaveShape(codec, msgs, caching, i + 1);
      match msgs[i].role
      case System => SystemHasShape(msgs[i].contents, caching);
      case User => UserMessagesHaveShape(codec, msgs[i].contents, caching && i + 1 == |msgs|);
      case Assistant => AssistantHasShape(codec, msgs[i].contents);
    }
  }

  /** Whatever the history, every message of its request is well formed. */
  lemma {:induction false} RequestsAreWellFormed(codec: Codec, msgs: seq<C.Message>, caching: bool)
    ensures forall m :: m in RequestMessages(codec, msgs, caching) ==> MessageShape(m)
  {
    MessagesHaveShape(codec, msgs, caching, 0);
  }
}
