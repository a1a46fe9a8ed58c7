/** Building the message list of an OpenAI request from the conversation history. */
module OpenAiRequest {
  import opened Wrappers
  import opened Json
  import C = Conversation

  const EPHEMERAL := Obj(map[Type := Str("ephemeral")])

  /** A text block carrying a cache checkpoint. */
  function CachedText(text: string): Json {
    Obj(map[Type := Str("text"), TextOf := Str(text), CacheControl := EPHEMERAL])
  }

  function TextContent(text: string, cached: bool): Json {
    if cached then Arr([CachedText(text)]) else Str(text)
  }

  function FirstText(contents: seq<C.Content>): Option<string> {
    if contents == [] then None
    else if contents[0].Text? && contents[0].text.Some? then contents[0].text
    else FirstText(contents[1..])
  }

  function SystemJson(contents: seq<C.Content>, caching: bool): Json {
    match FirstText(contents)
    case Some(t) => Obj(map[Role := Str("system"), Content := TextContent(t, caching)])
    case None => Obj(map[Role := Str("system")])
  }

  function UserJson(text: string, cached: bool): Json {
    Obj(map[Role := Str("user"), Content := TextContent(text, cached)])
  }

  function ToolJson(codec: Codec, id: Option<string>, output: Json): Json {
    Obj(AddStr(map[Role := Str("tool"), Content := Str(codec.print_(output))], ToolCallId, id))
  }

  /** The messages that one block of a user message becomes; images become none. */
  function UserBlock(codec: Codec, c: C.Content, cached: bool): seq<Json> {
    if c.Text? && c.text.Some? then [UserJson(c.text.value, cached)]
    else if c.ToolResponse? then [ToolJson(codec, c.id, c.output)]
    else []
  }

  function UserMessages(codec: Codec, contents: seq<C.Content>, cached: bool): seq<Json> {
    if contents == [] then []
    else UserMessages(codec, contents[..|contents| - 1], cached) + UserBlock(codec, contents[|contents| - 1], cached)
  }

  function CallJson(codec: Codec, id: Option<string>, name: Option<string>, params: Json): Json {
    var function_ := Obj(AddStr(map[Arguments := Str(codec.print_(params))], NameOf, name));
    Obj(AddStr(map[Type := Str("function"), Function := function_], Id, id))
  }

  function CallsJson(codec: Codec, contents: seq<C.Content>): seq<Json> {
    if contents == [] then []
    else
      var front, c := contents[..|contents| - 1], contents[|contents| - 1];
      CallsJson(codec, front) + if c.ToolCall? then [CallJson(codec, c.id, c.name, c.params)] else []
  }

  function AssistantJson(codec: Codec, contents: seq<C.Content>): Json {
    var text := match FirstText(contents) case Some(t) => Str(t) case None => Null;
    var calls := CallsJson(codec, contents);
    if calls == [] then Obj(map[Role := Str("assistant"), Content := text])
    else Obj(map[Role := Str("assistant"), Content := text, ToolCalls := Arr(calls)])
  }

  /** The request messages of one history message; only the newest one may carry a cache mark. */
  function MessageJson(codec: Codec, m: C.Message, caching: bool, newest: bool): seq<Json> {
    match m.role
    case System => [SystemJson(m.contents, caching)]
    case User => UserMessages(codec, m.contents, caching && newest)
    case Assistant => [AssistantJson(codec, m.contents)]
  }

  /** The request messages of the history from message i on. */
  function MessagesFrom(codec: Codec, msgs: seq<C.Message>, caching: bool, i: nat): seq<Json>
    requires i <= |msgs|
    decreases |msgs| - i
  {
    if i == |msgs| then []
    else MessageJson(codec, msgs[i], caching, i + 1 == |msgs|) + MessagesFrom(codec, msgs, caching, i + 1)
  }

  function RequestMessages(codec: Codec, msgs: seq<C.Message>, caching: bool): seq<Json> {
    MessagesFrom(codec, msgs, caching, 0)
  }

  /** build_openai_request: repair the history, then convert it message by message. */
  method BuildRequest(state: C.ConversationState, codec: Codec, caching: bool) returns (messages: seq<Json>)
    modifies state
    ensures state.messages == C.Repair(old(state.messages))
    ensures messages == RequestMessages(codec, state.messages, caching)
  {
    hide C.Repair, MessageJson;
    state.EnsureToolResults();
    var msgs := state.messages;
    messages := [];
    for i := 0 to |msgs|
      invariant state.messages == msgs
      invariant RequestMessages(codec, msgs, caching) == messages + MessagesFrom(codec, msgs, caching, i)
    {
      var part := ConvertMessage(codec, msgs, i, caching);
      messages := messages + part;
    }
  }

  /** The body of the conversion loop: the cache mark goes to the newest message only. */
  method ConvertMessage(codec: Codec, msgs: seq<C.Message>, i: nat, caching: bool) returns (part: seq<Json>)
    requires i < |msgs|
    ensures part == MessageJson(codec, msgs[i], caching, i + 1 == |msgs|)
  {
    var isRecent := i + 3 >= |msgs| && caching;
    match msgs[i].role {
      case System => part := [SystemJson(msgs[i].contents, caching)];
      case User => part := ConvertUser(codec, msgs[i].contents, isRecent && i + 1 == |msgs|);
      case Assistant => part := ConvertAssistant(codec, msgs[i].contents);
    }
  }

  method ConvertUser(codec: Codec, contents: seq<C.Content>, cached: bool) returns (out: seq<Json>)
    ensures out == UserMessages(codec, contents, cached)
  {
    out := [];
    for j := 0 to |contents|
      invariant out == UserMessages(codec, contents[..j], cached)
    {
      assert contents[..j + 1][..j] == contents[..j];
      var c := contents[j];
      if c.Text? && c.text.Some? {
        out := out + [UserJson(c.text.value, cached)];
      } else if c.ToolResponse? {
        out := out + [ToolJson(codec, c.id, c.output)];
      }
    }
    assert contents[..|contents|] == contents;
  }

  method ConvertAssistant(codec: Codec, contents: seq<C.Content>) returns (out: seq<Json>)
    ensures out == [AssistantJson(codec, contents)]
  {
    var text := FirstTextOf(contents);
    var calls := [];
    for j := 0 to |contents|
      invariant calls == CallsJson(codec, contents[..j])
    {
      assert contents[..j + 1][..j] == contents[..j];
      var c := contents[j];
      if c.ToolCall? {
        calls := calls + [CallJson(codec, c.id, c.name, c.params)];
      }
    }
    assert contents[..|contents|] == contents;
    var members := map[Role := Str("assistant")];
    members := members[Content := if text.Some? then Str(text.value) else Null];
    if |calls| > 0 {
      members := members[ToolCalls := Arr(calls)];
    }
    out := [Obj(members)];
  }

  method FirstTextOf(contents: seq<C.Content>) returns (text: Option<string>)
    ensures text == FirstText(contents)
  {
    for j := 0 to |contents|
      invariant FirstText(contents) == FirstText(contents[j..])
    {
      assert contents[j..][1..] == contents[j + 1..];
      var c := contents[j];
      if c.Text? && c.text.Some? { return c.text; }
    }
    text := None;
  }

  // ---------------------------------------------------------------- calls and results in a request

  predicate RoleIs(m: Json, role: string) { GetStr(m, Role) == Some(role) }

  function IdsOfCalls(calls: seq<Json>): set<string> {
    if calls == [] then {}
    else
      IdsOfCalls(calls[..|calls| - 1]) +
      match GetStr(calls[|calls| - 1], Id) case Some(id) => {id} case None => {}
  }

  /** The ids of the tool calls that a request message emits. */
  function RequestCallIds(m: Json): set<string> {
    if RoleIs(m, "assistant") then IdsOfCalls(GetArr(m, ToolCalls).GetOr([])) else {}
  }

  /** The id that a `tool` message answers. */
  function RequestResultIds(m: Json): set<string> {
    if !RoleIs(m, "tool") then {}
    else match GetStr(m, ToolCallId) case Some(id) => {id} case None => {}
  }

  /** Each emitted call id is followed by a later `tool` message with that id. */
  ghost predicate RequestAnswered(req: seq<Json>) {
    forall p: nat, id :: p < |req| && id in RequestCallIds(req[p]) ==>
      exists q :: p < q < |req| && id in RequestResultIds(req[q])
  }
}
