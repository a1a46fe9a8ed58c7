/** Every request answers its tool calls, whatever history led to it. */
module RequestProofs {
  import opened Wrappers
  import opened Json
  import C = Conversation
  import R = ConversationRepair
  import opened OpenAiRequest
  import opened Answering

  /** A request, and a history, as steps that make calls and give results. */
  function RequestSteps(req: seq<Json>): (r: seq<Step>)
    ensures |r| == |req| && forall i :: 0 <= i < |r| ==> r[i] == Step(RequestCallIds(req[i]), RequestResultIds(req[i]))
  {
    if req == [] then [] else [Step(RequestCallIds(req[0]), RequestResultIds(req[0]))] + RequestSteps(req[1..])
  }

  function HistorySteps(msgs: seq<C.Message>): (r: seq<Step>)
    ensures |r| == |msgs| && forall i :: 0 <= i < |r| ==> r[i] == Step(C.CallIds(msgs[i]), C.ResultIds(msgs[i]))
  {
    if msgs == [] then [] else [Step(C.CallIds(msgs[0]), C.ResultIds(msgs[0]))] + HistorySteps(msgs[1..])
  }

  lemma RequestAnsweredIsSteps(req: seq<Json>)
    ensures RequestAnswered(req) <==> AnsweredRec(RequestSteps(req))
  {
    hide RequestCallIds, RequestResultIds, AnsweredRec;
    var steps := RequestSteps(req);
    AnsweredIsRec(steps);
    if RequestAnswered(req) {
      forall p: nat, id | p < |steps| && id in steps[p].calls ensures exists q :: p < q < |steps| && id in steps[q].results {
        var q :| p < q < |req| && id in RequestResultIds(req[q]);
        assert id in steps[q].results;
      }
    }
    if Answered(steps) {
      forall p: nat, id | p < |req| && id in RequestCallIds(req[p])
        ensures exists q :: p < q < |req| && id in RequestResultIds(req[q])
      {
        assert id in steps[p].calls;
        var q :| p < q < |steps| && id in steps[q].results;
        assert id in RequestResultIds(req[q]);
      }
    }
  }

  lemma HistoryAnsweredIsSteps(msgs: seq<C.Message>)
    ensures C.Answered(msgs) <==> AnsweredRec(HistorySteps(msgs))
  {
    hide C.CallIds, C.ResultIds, AnsweredRec;
    var steps := HistorySteps(msgs);
    AnsweredIsRec(steps);
    if C.Answered(msgs) {
      forall p: nat, id | p < |steps| && id in steps[p].calls ensures exists q :: p < q < |steps| && id in steps[q].results {
        assert C.HasResult(msgs, id, p + 1, |msgs|);
        var q :| p + 1 <= q < |msgs| && id in C.ResultIds(msgs[q]);
        assert id in steps[q].results;
      }
    }
    if Answered(steps) {
      forall p: nat, id | p < |msgs| && id in C.CallIds(msgs[p]) ensures C.HasResult(msgs, id, p + 1, |msgs|) {
        assert id in steps[p].calls;
        var q :| p < q < |steps| && id in steps[q].results;
        assert id in C.ResultIds(msgs[q]);
      }
    }
  }

  lemma {:induction false} RequestStepsAppend(a: seq<Json>, b: seq<Json>)
    ensures RequestSteps(a + b) == RequestSteps(a) + RequestSteps(b)
  {
    hide RequestCallIds, RequestResultIds;
  }

  // ---------------------------------------------------------------- one message

  /** What a part of a request calls and answers. */
  function Calls(req: seq<Json>): set<string> { AllCalls(RequestSteps(req)) }

  function Results(req: seq<Json>): set<string> { AllResults(RequestSteps(req)) }

  lemma PartsAppend(a: seq<Json>, b: seq<Json>)
    ensures Calls(a + b) == Calls(a) + Calls(b) && Results(a + b) == Results(a) + Results(b)
  {
    hide RequestSteps, AllCalls, AllResults;
    RequestStepsAppend(a, b);
    Append(RequestSteps(a), RequestSteps(b));
  }

  lemma OneMessage(m: Json)
    ensures Calls([m]) == RequestCallIds(m) && Results([m]) == RequestResultIds(m) && Calls([]) == {} && Results([]) == {}
  {
    hide RequestCallIds, RequestResultIds, AllCalls, AllResults;
    assert RequestSteps([m]) == [Step(RequestCallIds(m), RequestResultIds(m))];
    OneStep(Step(RequestCallIds(m), RequestResultIds(m)));
    assert RequestSteps([]) == [];
  }

  lemma TextIsNoAnswer(text: string, cached: bool)
    ensures RequestCallIds(UserJson(text, cached)) == {} && RequestResultIds(UserJson(text, cached)) == {}
  {
    assert "user"[0] != "tool"[0];
  }

  lemma ToolAnswers(codec: Codec, id: Option<string>, output: Json)
    ensures RequestCallIds(ToolJson(codec, id, output)) == {}
    ensures RequestResultIds(ToolJson(codec, id, output)) == if id.Some? then {id.value} else {}
  {
    assert GetStr(ToolJson(codec, id, output), ToolCallId) == id;
  }

  lemma BlockFacts(codec: Codec, c: C.Content, cached: bool)
    ensures Calls(UserBlock(codec, c, cached)) == {} && Results(UserBlock(codec, c, cached)) == R.ResultsIn([c])
  {
    hide Calls, Results, RequestCallIds, RequestResultIds, UserJson, ToolJson;
    assert c in [c];
    OneMessage(Null);
    if c.Text? && c.text.Some? {
      TextIsNoAnswer(c.text.value, cached);
      OneMessage(UserJson(c.text.value, cached));
    } else if c.ToolResponse? {
      ToolAnswers(codec, c.id, c.output);
      OneMessage(ToolJson(codec, c.id, c.output));
    }
  }

  lemma {:induction false} UserMessagesFacts(codec: Codec, contents: seq<C.Content>, cached: bool)
    ensures Calls(UserMessages(codec, contents, cached)) == {}
    ensures Results(UserMessages(codec, contents, cached)) == R.ResultsIn(contents)
  {
    hide Calls, Results, UserBlock;
    if contents == [] {
      OneMessage(Null);
      assert R.ResultsIn(contents) == {};
    } else {
      var front, last := contents[..|contents| - 1], contents[|contents| - 1];
      UserMessagesFacts(codec, front, cached);
      BlockFacts(codec, last, cached);
      PartsAppend(UserMessages(codec, front, cached), UserBlock(codec, last, cached));
      ResultsSnoc(contents);
    }
  }

  lemma ResultsSnoc(contents: seq<C.Content>)
    requires contents != []
    ensures var n := |contents| - 1;
            && R.ResultsIn(contents) == R.ResultsIn(contents[..n]) + R.ResultsIn([contents[n]])
            && R.CallsIn(contents) == R.CallsIn(contents[..n]) + R.CallsIn([contents[n]])
  {
    var n := |contents| - 1;
    assert contents == contents[..n] + [contents[n]];
  }

  lemma {:induction false} CallsJsonIds(codec: Codec, contents: seq<C.Content>)
    ensures IdsOfCalls(CallsJson(codec, contents)) == R.CallsIn(contents)
  {
    if contents == [] {
      assert R.CallsIn(contents) == {};
    } else {
      var front, c := contents[..|contents| - 1], contents[|contents| - 1];
      CallsJsonIds(codec, front);
      assert contents == front + [c] && c in [c];
      assert R.CallsIn(contents) == R.CallsIn(front) + R.CallsIn([c]);
      if c.ToolCall? {
        assert CallsJson(codec, contents)[..|CallsJson(codec, front)|] == CallsJson(codec, front);
        assert GetStr(CallJson(codec, c.id, c.name, c.params), Id) == c.id;
      } else {
        assert R.CallsIn([c]) == {};
        assert CallsJson(codec, contents) == CallsJson(codec, front);
      }
    }
  }

  lemma AssistantFacts(codec: Codec, contents: seq<C.Content>)
    ensures RequestCallIds(AssistantJson(codec, contents)) == R.CallsIn(contents)
    ensures RequestResultIds(AssistantJson(codec, contents)) == {}
  {
    CallsJsonIds(codec, contents);
    assert GetArr(AssistantJson(codec, contents), ToolCalls).GetOr([]) == CallsJson(codec, contents);
  }

  lemma SystemAnswersNothing(contents: seq<C.Content>, caching: bool)
    ensures RequestCallIds(SystemJson(contents, caching)) == {} && RequestResultIds(SystemJson(contents, caching)) == {}
  {
    assert "system" != "tool" && "system" != "assistant";
    assert RoleIs(SystemJson(contents, caching), "system");
  }

  /** The request messages of one history message call and answer what it does. */
  lemma MessageAgrees(codec: Codec, m: C.Message, caching: bool, newest: bool)
    ensures Calls(MessageJson(codec, m, caching, newest)) == C.CallIds(m)
    ensures Results(MessageJson(codec, m, caching, newest)) == C.ResultIds(m)
    ensures C.CallIds(m) == {} || C.ResultIds(m) == {}
  {
    hide Calls, Results, RequestCallIds, RequestResultIds, UserMessages, AssistantJson, SystemJson, C.CallIds, C.ResultIds;
    R.MessageIds(m);
    match m.role
    case User => UserMessagesFacts(codec, m.contents, caching && newest);
    case Assistant =>
      AssistantFacts(codec, m.contents);
      OneMessage(AssistantJson(codec, m.contents));
    case System =>
      SystemAnswersNothing(m.contents, caching);
      OneMessage(SystemJson(m.contents, caching));
  }

  // ---------------------------------------------------------------- the whole request

  lemma {:induction false} HistoryAndRequestAgree(codec: Codec, msgs: seq<C.Message>, caching: bool, i: nat)
    requires i <= |msgs|
    ensures Results(MessagesFrom(codec, msgs, caching, i)) == AllResults(HistorySteps(msgs[i..]))
    ensures AnsweredRec(RequestSteps(MessagesFrom(codec, msgs, caching, i))) <==> AnsweredRec(HistorySteps(msgs[i..]))
    decreases |msgs| - i
  {
    hide MessageJson, C.CallIds, C.ResultIds;
    if i < |msgs| {
      var part, rest := MessageJson(codec, msgs[i], caching, i + 1 == |msgs|), MessagesFrom(codec, msgs, caching, i + 1);
      HistoryAndRequestAgree(codec, msgs, caching, i + 1);
      MessageAgrees(codec, msgs[i], caching, i + 1 == |msgs|);
      RequestStepsAppend(part, rest);
      PartIsOneStep(RequestSteps(part), RequestSteps(rest));
      var step := Step(C.CallIds(msgs[i]), C.ResultIds(msgs[i]));
      assert msgs[i..][1..] == msgs[i + 1..];
      assert HistorySteps(msgs[i..]) == [step] + HistorySteps(msgs[i + 1..]);
      OneStepInFront(step, RequestSteps(rest), HistorySteps(msgs[i + 1..]));
    }
  }

  lemma OneStepInFront(s: Step, a: seq<Step>, b: seq<Step>)
    requires AllResults(a) == AllResults(b) && (AnsweredRec(a) <==> AnsweredRec(b))
    ensures AllResults([s] + a) == AllResults([s] + b) && (AnsweredRec([s] + a) <==> AnsweredRec([s] + b))
  {
    assert ([s] + a)[1..] == a && ([s] + b)[1..] == b;
  }

  /** For every history: the request built from it (after its repair) follows each emitted call
      id by a later `tool` message with that id, exactly when there is room for one more
      message or every call had its result already. */
  lemma {:induction false} EveryRequestAnswersItsCalls(codec: Codec, msgs: seq<C.Message>, caching: bool)
    ensures RequestAnswered(RequestMessages(codec, C.Repair(msgs), caching)) <==> |msgs| < C.MAX_MESSAGES || C.Answered(msgs)
  {
    hide C.Repair, C.Answered, RequestAnswered, AnsweredRec, RequestSteps, HistorySteps, Results;
    var repaired := C.Repair(msgs);
    R.RepairAnswers(msgs);
    HistoryAnsweredIsSteps(repaired);
    HistoryAndRequestAgree(codec, repaired, caching, 0);
    assert repaired[0..] == repaired;
    RequestAnsweredIsSteps(RequestMessages(codec, repaired, caching));
  }
}
