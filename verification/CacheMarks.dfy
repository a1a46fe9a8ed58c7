/** Which messages of a request carry a cache mark, and what the mark changes. */
module CacheMarks {
  import opened Wrappers
  import opened Json
  import C = Conversation
  import opened OpenAiRequest

  /** A cache mark stands somewhere in a JSON value. */
  ghost predicate Marked(j: Json) {
    match j
    case Obj(members) => CacheControl in members || exists k :: k in members && Marked(members[k])
    case Arr(items) => exists i :: 0 <= i < |items| && Marked(items[i])
    case _ => false
  }

  /** The second message says in one marked text block what the first says as a string. */
  predicate MarkedFormOf(plain: Json, marked: Json) {
    match plain
    case Obj(members) =>
      && Content in members && members[Content].Str?
      && marked == Obj(members[Content := Arr([Obj(map[Type := Str("text"), TextOf := members[Content],
                                                       CacheControl := Obj(map[Type := Str("ephemeral")])])])])
    case _ => false
  }

  /** System texts are marked, and the user texts of the newest message; nothing else changes. */
  predicate GetsMark(plain: Json, newest: bool) {
    Get(plain, Content).Some? && (RoleIs(plain, "system") || (newest && RoleIs(plain, "user")))
  }

  ghost predicate PairOk(plain: Json, cached: Json, newest: bool) {
    && !Marked(plain)
    && if GetsMark(plain, newest) then Marked(cached) && MarkedFormOf(plain, cached) else cached == plain
  }

  ghost predicate PairsOk(plain: seq<Json>, cached: seq<Json>, newest: bool) {
    |plain| == |cached| && forall p :: 0 <= p < |plain| ==> PairOk(plain[p], cached[p], newest)
  }

  // ---------------------------------------------------------------- one message

  lemma TextPair(role: string, text: string, newest: bool)
    requires role == "system" || (role == "user" && newest)
    ensures var plain, cached := Obj(map[Role := Str(role), Content := Str(text)]),
                                 Obj(map[Role := Str(role), Content := Arr([CachedText(text)])]);
            PairOk(plain, cached, newest)
  {
    var block := CachedText(text);
    assert Marked(block);
    var content := Arr([block]);
    assert content.items[0] == block && Marked(content);
    var plain, cached := Obj(map[Role := Str(role), Content := Str(text)]), Obj(map[Role := Str(role), Content := content]);
    assert Content in cached.members && cached.members[Content] == content;
    assert cached.members == plain.members[Content := content];
  }

  /** A message with no array or object in it holds no mark unless it is one itself. */
  lemma FlatUnmarked(members: map<Name, Json>)
    requires CacheControl !in members && forall k :: k in members ==> !Marked(members[k])
    ensures !Marked(Obj(members))
  {
  }

  lemma PlainTextPair(text: string)
    ensures PairOk(UserJson(text, false), UserJson(text, false), false)
  {
    FlatUnmarked(UserJson(text, false).members);
  }

  lemma ToolPair(codec: Codec, id: Option<string>, output: Json, newest: bool)
    ensures PairOk(ToolJson(codec, id, output), ToolJson(codec, id, output), newest)
  {
    var m := ToolJson(codec, id, output);
    assert GetStr(m, Role) == Some("tool");
    FlatUnmarked(m.members);
    assert "tool"[0] != "system"[0] && "tool"[0] != "user"[0];
  }

  lemma BlockPair(codec: Codec, c: C.Content, newest: bool)
    ensures PairsOk(UserBlock(codec, c, false), UserBlock(codec, c, newest), newest)
  {
    hide Marked, PairOk;
    if c.Text? && c.text.Some? {
      if newest { TextPair("user", c.text.value, true); } else { PlainTextPair(c.text.value); }
    } else if c.ToolResponse? {
      ToolPair(codec, c.id, c.output, newest);
    }
  }

  lemma PairsAppend(a: seq<Json>, a': seq<Json>, b: seq<Json>, b': seq<Json>, newest: bool)
    requires PairsOk(a, a', newest) && PairsOk(b, b', newest)
    ensures PairsOk(a + b, a' + b', newest)
  {
    hide PairOk;
  }

  lemma {:induction false} UserPairs(codec: Codec, contents: seq<C.Content>, newest: bool)
    ensures PairsOk(UserMessages(codec, contents, false), UserMessages(codec, contents, newest), newest)
  {
    hide PairOk, UserBlock;
    if contents != [] {
      var n := |contents| - 1;
      UserPairs(codec, contents[..n], newest);
      BlockPair(codec, contents[n], newest);
      PairsAppend(UserMessages(codec, contents[..n], false), UserMessages(codec, contents[..n], newest),
                  UserBlock(codec, contents[n], false), UserBlock(codec, contents[n], newest), newest);
    }
  }

  lemma CallUnmarked(codec: Codec, id: Option<string>, name: Option<string>, params: Json)
    ensures !Marked(CallJson(codec, id, name, params))
  {
    var call := CallJson(codec, id, name, params);
    FlatUnmarked(call.members[Function].members);
    FlatUnmarked(call.members);
  }

  lemma {:induction false} CallsUnmarked(codec: Codec, contents: seq<C.Content>)
    ensures forall p :: 0 <= p < |CallsJson(codec, contents)| ==> !Marked(CallsJson(codec, contents)[p])
  {
    hide Marked, CallJson;
    if contents != [] {
      var n := |contents| - 1;
      CallsUnmarked(codec, contents[..n]);
      if contents[n].ToolCall? { CallUnmarked(codec, contents[n].id, contents[n].name, contents[n].params); }
    }
  }

  lemma AssistantPair(codec: Codec, contents: seq<C.Content>, newest: bool)
    ensures PairOk(AssistantJson(codec, contents), AssistantJson(codec, contents), newest)
  {
    hide CallsJson, FirstText;
    CallsUnmarked(codec, contents);
    var m := AssistantJson(codec, contents);
    assert GetStr(m, Role) == Some("assistant");
    assert "assistant"[0] != "system"[0] && "assistant"[0] != "user"[0];
    FlatUnmarked(m.members);
  }

  lemma SystemPair(contents: seq<C.Content>, newest: bool)
    ensures PairOk(SystemJson(contents, false), SystemJson(contents, true), newest)
  {
    match FirstText(contents)
    case Some(t) => TextPair("system", t, newest);
    case None => FlatUnmarked(SystemJson(contents, false).members);
  }

  lemma MessagePairs(codec: Codec, m: C.Message, newest: bool)
    ensures PairsOk(MessageJson(codec, m, false, newest), MessageJson(codec, m, true, newest), newest)
  {
    hide PairOk, SystemJson, AssistantJson, UserMessages;
    match m.role
    case System => SystemPair(m.contents, newest);
    case User => UserPairs(codec, m.contents, newest);
    case Assistant => AssistantPair(codec, m.contents, newest);
  }

  // ---------------------------------------------------------------- whole requests

  /** The messages of a history when a newer message follows it. */
  function OlderFrom(codec: Codec, msgs: seq<C.Message>, caching: bool, i: nat): seq<Json>
    requires i <= |msgs|
    decreases |msgs| - i
  {
    if i == |msgs| then []
    else MessageJson(codec, msgs[i], caching, false) + OlderFrom(codec, msgs, caching, i + 1)
  }

  lemma {:induction false} RequestParts(codec: Codec, msgs: seq<C.Message>, m: C.Message, caching: bool, i: nat)
    requires i <= |msgs|
    ensures MessagesFrom(codec, msgs + [m], caching, i) == OlderFrom(codec, msgs, caching, i) + MessageJson(codec, m, caching, true)
    decreases |msgs| - i
  {
    hide MessageJson;
    if i == |msgs| {
      assert MessagesFrom(codec, msgs + [m], caching, i + 1) == [];
    } else {
      RequestParts(codec, msgs, m, caching, i + 1);
      assert (msgs + [m])[i] == msgs[i];
    }
  }

  /** Without caching it does not matter whether a newer message follows. */
  lemma {:induction false} PlainIsOlder(codec: Codec, msgs: seq<C.Message>, i: nat)
    requires i <= |msgs|
    ensures MessagesFrom(codec, msgs, false, i) == OlderFrom(codec, msgs, false, i)
    decreases |msgs| - i
  {
    if i < |msgs| { PlainIsOlder(codec, msgs, i + 1); }
  }

  lemma {:induction false} OlderPairs(codec: Codec, msgs: seq<C.Message>, i: nat)
    requires i <= |msgs|
    ensures PairsOk(OlderFrom(codec, msgs, false, i), OlderFrom(codec, msgs, true, i), false)
    decreases |msgs| - i
  {
    hide PairOk, MessageJson;
    if i < |msgs| {
      OlderPairs(codec, msgs, i + 1);
      MessagePairs(codec, msgs[i], false);
      PairsAppend(MessageJson(codec, msgs[i], false, false), MessageJson(codec, msgs[i], true, false),
                  OlderFrom(codec, msgs, false, i + 1), OlderFrom(codec, msgs, true, i + 1), false);
    }
  }

  /** What caching does to a request, exactly. A request without caching holds no mark. With it, the
      system texts and the user texts of the newest message are turned into one marked block each;
      every other message, in particular all user and tool messages of the older history, is the
      same as without. */
  lemma {:induction false} MarksExactly(codec: Codec, msgs: seq<C.Message>, m: C.Message, p: nat)
    requires p < |RequestMessages(codec, msgs + [m], false)|
    ensures |RequestMessages(codec, msgs + [m], true)| == |RequestMessages(codec, msgs + [m], false)|
    ensures RequestMessages(codec, msgs, false) <= RequestMessages(codec, msgs + [m], false)
    ensures var plain, cached := RequestMessages(codec, msgs + [m], false)[p], RequestMessages(codec, msgs + [m], true)[p];
            && !Marked(plain)
            && if Get(plain, Content).Some? &&
                  (RoleIs(plain, "system") || (RoleIs(plain, "user") && p >= |RequestMessages(codec, msgs, false)|))
               then Marked(cached) && MarkedFormOf(plain, cached)
               else cached == plain
  {
    hide Marked, MarkedFormOf, MessageJson;
    RequestParts(codec, msgs, m, false, 0);
    RequestParts(codec, msgs, m, true, 0);
    PlainIsOlder(codec, msgs, 0);
    OlderPairs(codec, msgs, 0);
    MessagePairs(codec, m, true);
    var front, n := OlderFrom(codec, msgs, false, 0), |OlderFrom(codec, msgs, false, 0)|;
    var older, newest := OlderFrom(codec, msgs, true, 0), MessageJson(codec, m, true, true);
    if p < n {
      assert PairOk(front[p], older[p], false);
    } else {
      assert PairOk(MessageJson(codec, m, false, true)[p - n], newest[p - n], true);
    }
  }

  /** The system prompt that is sent is the first text with a value. */
  lemma {:induction false} SystemTextIsSent(codec: Codec, before: seq<C.Content>, text: string, after: seq<C.Content>)
    requires forall c :: c in before ==> !(c.Text? && c.text.Some?)
    ensures RequestMessages(codec, [C.Message(C.System, before + [C.Text(Some(text))] + after)], false) ==
            [Obj(map[Role := Str("system"), Content := Str(text)])]
  {
    FirstTextBehind(before, text, after);
    var msgs := [C.Message(C.System, before + [C.Text(Some(text))] + after)];
    assert MessagesFrom(codec, msgs, false, 1) == [];
  }

  lemma {:induction false} FirstTextBehind(before: seq<C.Content>, text: string, after: seq<C.Content>)
    requires forall c :: c in before ==> !(c.Text? && c.text.Some?)
    ensures FirstText(before + [C.Text(Some(text))] + after) == Some(text)
  {
    var all := before + [C.Text(Some(text))] + after;
    if before != [] {
      assert all[1..] == before[1..] + [C.Text(Some(text))] + after;
      FirstTextBehind(before[1..], text, after);
    }
  }
}
