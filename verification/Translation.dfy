/** The converter from OpenAI request messages to Anthropic messages, and the converter of an
    Anthropic response back to an OpenAI one. */
module Translation {
  import opened Wrappers
  import opened Json

  const EMPTY_OBJECT := Obj(map[])

  function TextBlock(text: string): Json { Obj(map[Type := Str("text"), TextOf := Str(text)]) }

  /** A tool_use block for an OpenAI tool call; arguments that do not parse become an empty object. */
  function UseBlock(codec: Codec, call: Json): Json {
    var function_ := Get(call, Function).GetOr(Null);
    var members := AddStr(AddStr(map[Type := Str("tool_use")], Id, GetStr(call, Id)), NameOf, GetStr(function_, NameOf));
    match GetStr(function_, Arguments)
    case None => Obj(members)
    case Some(text) => Obj(members[Input := codec.parse(text).GetOr(EMPTY_OBJECT)])
  }

  function UseBlocks(codec: Codec, calls: seq<Json>): seq<Json> {
    if calls == [] then [] else [UseBlock(codec, calls[0])] + UseBlocks(codec, calls[1..])
  }

  /** The content blocks of an assistant message with tool calls. */
  function AssistantBlocks(codec: Codec, m: Json, calls: seq<Json>): seq<Json> {
    var text := GetStr(m, Content).GetOr("");
    (if text == "" then [] else [TextBlock(text)]) + UseBlocks(codec, calls)
  }

  function RoleMessage(role: string, content: Option<Json>): Json {
    match content
    case Some(c) => Obj(map[Role := Str(role), Content := c])
    case None => Obj(map[Role := Str(role)])
  }

  /** Assistant messages: blocks when there are tool calls, plain text otherwise, nothing when both
      are missing. */
  function AnthropicAssistant(codec: Codec, m: Json): seq<Json> {
    match GetArr(m, ToolCalls)
    case Some(calls) =>
      var blocks := AssistantBlocks(codec, m, calls);
      if blocks == [] then [] else [RoleMessage("assistant", Some(Arr(blocks)))]
    case None =>
      var text := GetStr(m, Content).GetOr("");
      if text == "" then [] else [RoleMessage("assistant", Some(Str(text)))]
  }

  function ResultBlock(id: string, content: Json): Json {
    Obj(map[Type := Str("tool_result"), ToolUseId := Str(id), Content := content])
  }

  /** A tool result's content as a string, printed when it is something else. */
  function ContentText(codec: Codec, content: Option<Json>): string {
    match content
    case None => ""
    case Some(Str(s)) => s
    case Some(j) => codec.print_(j)
  }

  function AnthropicUser(m: Json): seq<Json> {
    match Get(m, Content)
    case Some(Str(s)) => [RoleMessage("user", Some(Str(s)))]
    case Some(Arr(items)) => [RoleMessage("user", Some(Arr(items)))]
    case _ => [RoleMessage("user", None)]
  }

  function AnthropicTool(codec: Codec, m: Json): seq<Json> {
    match GetStr(m, ToolCallId)
    case Some(id) => [RoleMessage("user", Some(Arr([ResultBlock(id, Str(ContentText(codec, Get(m, Content))))])))]
    case None => [RoleMessage("user", None)]
  }

  /** What one request message becomes: nothing or one Anthropic message. */
  function AnthropicOne(codec: Codec, m: Json): seq<Json> {
    match GetStr(m, Role)
    case None => []
    case Some(role) =>
      if role == "assistant" then AnthropicAssistant(codec, m)
      else if role == "user" then AnthropicUser(m)
      else if role == "tool" then AnthropicTool(codec, m)
      else []
  }

  function AnthropicMessages(codec: Codec, messages: seq<Json>): seq<Json> {
    if messages == [] then [] else AnthropicOne(codec, messages[0]) + AnthropicMessages(codec, messages[1..])
  }

  // ---------------------------------------------------------------- the loops

  /** The blocks of an assistant message, grown one by one. */
  method BuildBlocks(codec: Codec, m: Json, calls: seq<Json>) returns (blocks: seq<Json>)
    ensures blocks == AssistantBlocks(codec, m, calls)
  {
    hide UseBlock;
    blocks := [];
    var text := GetStr(m, Content).GetOr("");
    if text != "" {
      blocks := blocks + [TextBlock(text)];
    }
    for i := 0 to |calls|
      invariant blocks + UseBlocks(codec, calls[i..]) == AssistantBlocks(codec, m, calls)
    {
      assert calls[i..][1..] == calls[i + 1..];
      blocks := blocks + [UseBlock(codec, calls[i])];
    }
  }

  method ConvertAssistant(codec: Codec, m: Json) returns (out: seq<Json>)
    ensures out == AnthropicAssistant(codec, m)
  {
    hide AssistantBlocks;
    var calls := GetArr(m, ToolCalls);
    if calls.Some? {
      var blocks := BuildBlocks(codec, m, calls.value);
      if |blocks| > 0 { return [RoleMessage("assistant", Some(Arr(blocks)))]; }
    } else {
      var text := GetStr(m, Content).GetOr("");
      if text != "" { return [RoleMessage("assistant", Some(Str(text)))]; }
    }
    out := [];
  }

  method AnthropicStep(codec: Codec, m: Json) returns (out: seq<Json>)
    ensures out == AnthropicOne(codec, m)
  {
    hide AnthropicAssistant, AnthropicUser, AnthropicTool;
    out := [];
    var role := GetStr(m, Role);
    if role.None? { return; }
    if role.value == "assistant" {
      out := ConvertAssistant(codec, m);
    } else if role.value == "user" {
      out := AnthropicUser(m);
    } else if role.value == "tool" {
      out := AnthropicTool(codec, m);
    }
  }

  /** The message loop of openai_to_anthropic_request. */
  method ToAnthropic(codec: Codec, messages: seq<Json>) returns (out: seq<Json>)
    ensures out == AnthropicMessages(codec, messages)
  {
    hide AnthropicOne;
    out := [];
    for i := 0 to |messages|
      invariant out + AnthropicMessages(codec, messages[i..]) == AnthropicMessages(codec, messages)
    {
      assert messages[i..][1..] == messages[i + 1..];
      var part := AnthropicStep(codec, messages[i]);
      out := out + part;
    }
  }

  // ---------------------------------------------------------------- responses

  predicate TypeIs(block: Json, t: string) { GetStr(block, Type) == Some(t) }

  /** The text of the first text block that has one. */
  function FirstBlockText(blocks: seq<Json>): Option<string> {
    if blocks == [] then None
    else if TypeIs(blocks[0], "text") && GetStr(blocks[0], TextOf).Some? then GetStr(blocks[0], TextOf)
    else FirstBlockText(blocks[1..])
  }

  function CallOfUse(codec: Codec, block: Json): Json {
    var text := match Get(block, Input) case Some(input) => codec.print_(input) case None => "{}";
    var function_ := Obj(AddStr(map[Arguments := Str(text)], NameOf, GetStr(block, NameOf)));
    Obj(AddStr(map[Type := Str("function"), Function := function_], Id, GetStr(block, Id)))
  }

  function CallsOfUses(codec: Codec, blocks: seq<Json>): seq<Json> {
    if blocks == [] then []
    else (if TypeIs(blocks[0], "tool_use") then [CallOfUse(codec, blocks[0])] else []) + CallsOfUses(codec, blocks[1..])
  }

  function AssistantMessage(text: Option<string>, calls: seq<Json>): Json {
    var content := match text case Some(t) => Str(t) case None => Null;
    if calls == [] then Obj(map[Content := content]) else Obj(map[Content := content, ToolCalls := Arr(calls)])
  }

  /** The message inside the OpenAI form of an Anthropic response. */
  function ResponseMessage(codec: Codec, response: Json): Json {
    match Get(response, Content)
    case Some(Arr(blocks)) => AssistantMessage(FirstBlockText(blocks), CallsOfUses(codec, blocks))
    case Some(Str(s)) => AssistantMessage(Some(s), [])
    case _ => AssistantMessage(None, [])
  }

  function AddNumber(members: map<Name, Json>, name: Name, j: Option<Json>): map<Name, Json> {
    if j.Some? && j.value.Number? then members[name := j.value] else members
  }

  /** The token counts under their OpenAI names. */
  function UsageOf(usage: Json): Json {
    Obj(AddNumber(AddNumber(map[], PromptTokens, Get(usage, InputTokens)), CompletionTokens, Get(usage, OutputTokens)))
  }

  /** The whole OpenAI response. */
  function OpenAiResponse(codec: Codec, response: Json): Json {
    var choices := Arr([Obj(map[MessageOf := ResponseMessage(codec, response)])]);
    match Get(response, Usage)
    case Some(usage) => Obj(map[Choices := choices, Usage := UsageOf(usage)])
    case None => Obj(map[Choices := choices])
  }

  /** The message of the first choice of an OpenAI response. */
  function FirstMessage(response: Json): Option<Json> {
    match GetArr(response, Choices)
    case None => None
    case Some(choices) => if choices == [] then None else Get(choices[0], MessageOf)
  }

  /** anthropic_to_openai_response: the two passes over the blocks, and the wrapping. */
  method FromAnthropic(codec: Codec, response: Json) returns (r: Json)
    ensures r == OpenAiResponse(codec, response)
  {
    hide FirstBlockText, CallsOfUses, AssistantMessage;
    var content := Get(response, Content);
    var text := None;
    var calls := [];
    if content.Some? && content.value.Arr? {
      text := FindText(content.value.items);
      calls := FindCalls(codec, content.value.items);
    } else if content.Some? && content.value.Str? {
      text := Some(content.value.s);
    }
    var members := map[Choices := Arr([Obj(map[MessageOf := AssistantMessage(text, calls)])])];
    var usage := Get(response, Usage);
    if usage.Some? { members := members[Usage := UsageOf(usage.value)]; }
    r := Obj(members);
  }

  method FindCalls(codec: Codec, blocks: seq<Json>) returns (calls: seq<Json>)
    ensures calls == CallsOfUses(codec, blocks)
  {
    hide CallOfUse;
    calls := [];
    for i := 0 to |blocks|
      invariant calls + CallsOfUses(codec, blocks[i..]) == CallsOfUses(codec, blocks)
    {
      assert blocks[i..][1..] == blocks[i + 1..];
      if TypeIs(blocks[i], "tool_use") {
        calls := calls + [CallOfUse(codec, blocks[i])];
      }
    }
  }

  method FindText(blocks: seq<Json>) returns (text: Option<string>)
    ensures text == FirstBlockText(blocks)
  {
    for i := 0 to |blocks|
      invariant FirstBlockText(blocks) == FirstBlockText(blocks[i..])
    {
      assert blocks[i..][1..] == blocks[i + 1..];
      if TypeIs(blocks[i], "text") && GetStr(blocks[i], TextOf).Some? { return GetStr(blocks[i], TextOf); }
    }
    text := None;
  }

  /** The usage of a response is passed on under its other names, as far as it is numbers. */
  lemma {:induction false} UsageIsPassedOn(codec: Codec, response: Json)
    ensures var out := OpenAiResponse(codec, response);
            match Get(response, Usage)
            case None => Get(out, Usage) == None
            case Some(usage) =>
              && Get(out, Usage).Some?
              && (match Get(usage, InputTokens)
                  case Some(Number(n)) => Get(Get(out, Usage).value, PromptTokens) == Some(Number(n))
                  case _ => Get(Get(out, Usage).value, PromptTokens) == None)
              && (match Get(usage, OutputTokens)
                  case Some(Number(n)) => Get(Get(out, Usage).value, CompletionTokens) == Some(Number(n))
                  case _ => Get(Get(out, Usage).value, CompletionTokens) == None)
  {
  }
}
