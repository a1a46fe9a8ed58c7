/** The conversation history: appending, clearing, and repairing tool calls without a result. */
module Conversation {
  import opened Wrappers
  import opened Json

  const MAX_MESSAGES: nat := 10000

  datatype Role = User | Assistant | System

  datatype Content =
    | Text(text: Option<string>)
    | ToolCall(id: Option<string>, name: Option<string>, params: Json)
    | ToolResponse(id: Option<string>, name: Option<string>, output: Json, isError: bool)
    | Image(path: string, mimeType: string, data: string)

  datatype Message = Message(role: Role, contents: seq<Content>)

  /** The ids that a message asks results for, and those it gives results for. */
  function CallIds(m: Message): set<string> {
    set i | m.role == Assistant && 0 <= i < |m.contents| && m.contents[i].ToolCall? && m.contents[i].id.Some? :: m.contents[i].id.value
  }

  function ResultIds(m: Message): set<string> {
    set i | m.role == User && 0 <= i < |m.contents| && m.contents[i].ToolResponse? && m.contents[i].id.Some? :: m.contents[i].id.value
  }

  /** A result for `id` stands in one of the messages from..to-1. */
  predicate HasResult(msgs: seq<Message>, id: string, from: nat, to: nat) {
    exists j :: from <= j < to && j < |msgs| && id in ResultIds(msgs[j])
  }

  /** Every tool call is followed, in a later message, by a result with its id. */
  ghost predicate Answered(msgs: seq<Message>) {
    forall i: nat, id :: i < |msgs| && id in CallIds(msgs[i]) ==> HasResult(msgs, id, i + 1, |msgs|)
  }

  // ---------------------------------------------------------------- the scan

  /** An entry of the scan's table; `at` is the message the call stands in, which only the
      specification looks at. */
  datatype CallInfo = CallInfo(id: string, name: Option<string>, hasResult: bool, at: nat)

  function CollectCalls(infos: seq<CallInfo>, contents: seq<Content>, at: nat): seq<CallInfo> {
    if contents == [] then infos
    else
      var front, c := contents[..|contents| - 1], contents[|contents| - 1];
      var before := CollectCalls(infos, front, at);
      if c.ToolCall? && c.id.Some? then before + [CallInfo(c.id.value, c.name, false, at)] else before
  }

  /** Marks the first entry with this id. */
  function MarkFirst(infos: seq<CallInfo>, id: string): (r: seq<CallInfo>)
    ensures |r| == |infos|
  {
    if infos == [] then []
    else if infos[0].id == id then [infos[0].(hasResult := true)] + infos[1..]
    else [infos[0]] + MarkFirst(infos[1..], id)
  }

  function MarkResults(infos: seq<CallInfo>, contents: seq<Content>): seq<CallInfo> {
    if contents == [] then infos
    else
      var front, c := contents[..|contents| - 1], contents[|contents| - 1];
      var before := MarkResults(infos, front);
      if c.ToolResponse? && c.id.Some? then MarkFirst(before, c.id.value) else before
  }

  function ScanMessage(infos: seq<CallInfo>, m: Message, at: nat): seq<CallInfo> {
    match m.role
    case Assistant => CollectCalls(infos, m.contents, at)
    case User => MarkResults(infos, m.contents)
    case System => infos
  }

  function Scan(msgs: seq<Message>): seq<CallInfo> {
    if msgs == [] then []
    else ScanMessage(Scan(msgs[..|msgs| - 1]), msgs[|msgs| - 1], |msgs| - 1)
  }

  function Synthetic(c: CallInfo): Content {
    ToolResponse(Some(c.id), Some(c.name.GetOr("unknown")), Obj(map[ErrorOf := Str("Tool execution was interrupted")]), true)
  }

  /** One synthetic result for each unmarked entry, in order. */
  function Missing(infos: seq<CallInfo>): seq<Content> {
    if infos == [] then []
    else
      var front, c := infos[..|infos| - 1], infos[|infos| - 1];
      Missing(front) + if c.hasResult then [] else [Synthetic(c)]
  }

  /** What ensure_tool_results makes of a history. */
  function Repair(msgs: seq<Message>): seq<Message> {
    var missing := Missing(Scan(msgs));
    if missing == [] || |msgs| >= MAX_MESSAGES then msgs else msgs + [Message(User, missing)]
  }

  // ---------------------------------------------------------------- the history as an object

  /** An assistant message in OpenAI form, as history content. */
  function AssistantContents(codec: Codec, message: Json): seq<Content> {
    var text := match GetStr(message, Content) case Some(t) => [Text(Some(t))] case None => [];
    text + CallContents(codec, GetArr(message, ToolCalls).GetOr([]))
  }

  predicate WellFormedCall(call: Json) { Get(call, Function).Some? && GetStr(call, Id).Some? }

  function CallContent(codec: Codec, call: Json): Content {
    var function_ := Get(call, Function).GetOr(Null);
    var params := match GetStr(function_, Arguments)
      case Some(text) => codec.parse(text).GetOr(Obj(map[]))
      case None => Obj(map[]);
    ToolCall(GetStr(call, Id), GetStr(function_, NameOf), params)
  }

  /** The well-formed tool calls of a message, in order; malformed ones are skipped. */
  function CallContents(codec: Codec, calls: seq<Json>): seq<Content> {
    if calls == [] then []
    else
      var front, call := calls[..|calls| - 1], calls[|calls| - 1];
      CallContents(codec, front) + if WellFormedCall(call) then [CallContent(codec, call)] else []
  }

  class ConversationState {
    var messages: seq<Message>

    constructor ()
      ensures messages == []
    {
      messages := [];
    }

    /** Appends unless the history is full. */
    method Append(m: Message)
      modifies this
      ensures messages == if |old(messages)| >= MAX_MESSAGES then old(messages) else old(messages) + [m]
    {
      if |messages| >= MAX_MESSAGES { return; }
      messages := messages + [m];
    }

    method AddUserMessage(text: string)
      modifies this
      ensures messages == if |old(messages)| >= MAX_MESSAGES then old(messages)
                          else old(messages) + [Message(User, [Text(Some(text))])]
    {
      Append(Message(User, [Text(Some(text))]));
    }

    method AddToolResults(results: seq<Content>)
      modifies this
      ensures messages == if |old(messages)| >= MAX_MESSAGES then old(messages) else old(messages) + [Message(User, results)]
    {
      Append(Message(User, results));
    }

    /** add_assistant_message_openai: a message without text and well-formed calls is not added. */
    method AddAssistantMessage(codec: Codec, message: Json)
      modifies this
      ensures var contents := AssistantContents(codec, message);
              messages == if |old(messages)| >= MAX_MESSAGES || contents == [] then old(messages)
                          else old(messages) + [Message(Assistant, contents)]
    {
      if |messages| >= MAX_MESSAGES { return; }
      var contents := [];
      var text := GetStr(message, Content);
      if text.Some? {
        contents := [Text(text)];
      }
      ghost var textPart := contents;
      var calls := GetArr(message, ToolCalls).GetOr([]);
      for i := 0 to |calls|
        invariant contents == textPart + CallContents(codec, calls[..i])
      {
        assert calls[..i + 1][..i] == calls[..i];
        if WellFormedCall(calls[i]) {
          contents := contents + [CallContent(codec, calls[i])];
        }
      }
      assert calls[..|calls|] == calls;
      if |contents| > 0 {
        messages := messages + [Message(Assistant, contents)];
      }
    }

    /** clear_conversation: only a leading system message survives. */
    method Clear()
      modifies this
      ensures messages == if |old(messages)| > 0 && old(messages)[0].role == System then old(messages)[..1] else []
    {
      if |messages| > 0 && messages[0].role == System {
        messages := messages[..1];
      } else {
        messages := [];
      }
    }

    /** ensure_tool_results, with its table of calls. */
    method EnsureToolResults()
      modifies this
      ensures messages == Repair(old(messages))
    {
      var toolCalls: seq<CallInfo> := [];
      for i := 0 to |messages|
        invariant messages == old(messages)
        invariant toolCalls == Scan(messages[..i])
      {
        assert messages[..i + 1][..i] == messages[..i];
        var msg := messages[i];
        if msg.role == Assistant {
          toolCalls := CollectInto(toolCalls, msg.contents, i);
        } else if msg.role == User {
          toolCalls := MarkInto(toolCalls, msg.contents);
        }
      }
      assert messages[..|messages|] == messages;
      var synthetic := [];
      for i := 0 to |toolCalls|
        invariant messages == old(messages)
        invariant synthetic == Missing(toolCalls[..i])
      {
        assert toolCalls[..i + 1][..i] == toolCalls[..i];
        if !toolCalls[i].hasResult {
          synthetic := synthetic + [Synthetic(toolCalls[i])];
        }
      }
      assert toolCalls[..|toolCalls|] == toolCalls;
      if |synthetic| > 0 && |messages| < MAX_MESSAGES {
        messages := messages + [Message(User, synthetic)];
      }
    }
  }

  method CollectInto(infos: seq<CallInfo>, contents: seq<Content>, at: nat) returns (r: seq<CallInfo>)
    ensures r == CollectCalls(infos, contents, at)
  {
    r := infos;
    for j := 0 to |contents|
      invariant r == CollectCalls(infos, contents[..j], at)
    {
      assert contents[..j + 1][..j] == contents[..j];
      var c := contents[j];
      if c.ToolCall? && c.id.Some? {
        r := r + [CallInfo(c.id.value, c.name, false, at)];
      }
    }
    assert contents[..|contents|] == contents;
  }

  method MarkInto(infos: seq<CallInfo>, contents: seq<Content>) returns (r: seq<CallInfo>)
    ensures r == MarkResults(infos, contents)
  {
    r := infos;
    for j := 0 to |contents|
      invariant r == MarkResults(infos, contents[..j])
    {
      assert contents[..j + 1][..j] == contents[..j];
      var c := contents[j];
      if c.ToolResponse? && c.id.Some? {
        r := MarkOne(r, c.id.value);
      }
    }
    assert contents[..|contents|] == contents;
  }

  /** The inner search loop, which stops at the first entry with the id. */
  method MarkOne(infos: seq<CallInfo>, id: string) returns (r: seq<CallInfo>)
    ensures r == MarkFirst(infos, id)
  {
    r := infos;
    var k := 0;
    while k < |infos|
      invariant k <= |infos|
      invariant r == infos && MarkFirst(infos, id) == infos[..k] + MarkFirst(infos[k..], id)
    {
      assert infos[k..][1..] == infos[k + 1..];
      if r[k].id == id {
        r := r[k := r[k].(hasResult := true)];
        return;
      }
      k := k + 1;
    }
  }
}
