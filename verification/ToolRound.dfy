/** One tool round seen from the conversation: the results that the protocol leaves become a user
    message behind the assistant message that made the calls. */
module ToolRound {
  import opened Wrappers
  import opened Json
  import opened ToolProtocol
  import T = ToolProtocolTheorems
  import R = ToolProtocolResults
  import I = ToolProtocolInvariant
  import C = Conversation

  /** What a result slot holds beyond its protocol state. */
  datatype Payload = Payload(name: Option<string>, output: Json, path: string, mimeType: string, data: string)

  function SlotContent(slot: Slot, p: Payload): C.Content {
    match slot
    case Response(id, _, isError) => C.ToolResponse(Some(id), p.name, p.output, isError)
    case Image => C.Image(p.path, p.mimeType, p.data)
    case Pending => C.ToolResponse(None, None, Null, false)
    case Untouched => C.Text(None)
  }

  /** The results of a round as message content. */
  function RoundResults(slots: seq<Slot>, payloads: seq<Payload>): (r: seq<C.Content>)
    requires |slots| == |payloads|
    ensures |r| == |slots|
    ensures forall i :: 0 <= i < |r| ==> r[i] == SlotContent(slots[i], payloads[i])
  {
    if slots == [] then []
    else
      var n := |slots| - 1;
      RoundResults(slots[..n], payloads[..n]) + [SlotContent(slots[n], payloads[n])]
  }

  /** Some call with this id has a result other than an image. */
  ghost predicate HasTextResult(calls: seq<ToolCall>, slots: seq<Slot>, id: string)
    requires |calls| == |slots|
  {
    exists i :: 0 <= i < |calls| && slots[i] != Image && IdOr(calls[i]) == id
  }

  /** A final slot becomes a result with the id of its call, or an image. */
  lemma FinalSlotContent(s: State, i: nat, p: Payload)
    requires i < |s.calls| && i < |s.slots| && T.FinalSlot(s, i)
    ensures var content := SlotContent(s.slots[i], p);
            if s.slots[i] == Image then content.Image? else content.ToolResponse? && content.id == Some(IdOr(s.calls[i]))
  {
  }

  /** After a finished round, the ids in the results are exactly the calls' own ids, without those
      of image results. */
  lemma {:induction false} ResultIdsOfRound(calls: seq<ToolCall>, trace: seq<State>, events: seq<Event>, k: nat, payloads: seq<Payload>, id: string)
    requires IsProtocolRun(calls, trace, events) && k < |trace| && trace[k].main == Done && |payloads| == |calls|
    ensures |trace[k].slots| == |calls|
    ensures id in C.ResultIds(C.Message(C.User, RoundResults(trace[k].slots, payloads))) <==> HasTextResult(calls, trace[k].slots, id)
  {
    T.FinalResults(calls, trace, events, k);
    var s := trace[k];
    var results := RoundResults(s.slots, payloads);
    forall i: nat | i < |calls|
      ensures if s.slots[i] == Image then results[i].Image? else results[i].ToolResponse? && results[i].id == Some(IdOr(calls[i]))
    {
      assert T.FinalSlot(s, i);
      FinalSlotContent(s, i, payloads[i]);
    }
    hide SlotContent, T.FinalSlot;
    if HasTextResult(calls, s.slots, id) {
      var i: nat :| i < |calls| && s.slots[i] != Image && IdOr(calls[i]) == id;
      assert results[i].ToolResponse? && results[i].id == Some(id);
    }
    if id in C.ResultIds(C.Message(C.User, results)) {
      var i: nat :| i < |results| && results[i].ToolResponse? && results[i].id == Some(id);
      assert s.slots[i] != Image && IdOr(calls[i]) == id;
    }
  }

  /** A round on an answered history leaves an answered history if and only if each call id of the
      assistant message got a result that is no image: only images make the repair add something. */
  lemma {:induction false} RoundKeepsAnsweredExactly(msgs: seq<C.Message>, assistant: C.Message, calls: seq<ToolCall>,
                                  trace: seq<State>, events: seq<Event>, k: nat, payloads: seq<Payload>)
    requires IsProtocolRun(calls, trace, events) && k < |trace| && trace[k].main == Done && |payloads| == |calls|
    requires C.Answered(msgs)
    ensures |trace[k].slots| == |calls|
    ensures C.Answered(msgs + [assistant, C.Message(C.User, RoundResults(trace[k].slots, payloads))]) <==>
            forall id :: id in C.CallIds(assistant) ==> HasTextResult(calls, trace[k].slots, id)
  {
    T.FinalResults(calls, trace, events, k);
    var results := C.Message(C.User, RoundResults(trace[k].slots, payloads));
    AnsweredWithRound(msgs, assistant, results);
    forall id ensures id in C.ResultIds(results) <==> HasTextResult(calls, trace[k].slots, id) {
      ResultIdsOfRound(calls, trace, events, k, payloads, id);
    }
  }

  /** Two messages behind an answered history: the calls of the first need results in the second. */
  lemma AnsweredWithRound(msgs: seq<C.Message>, assistant: C.Message, results: C.Message)
    requires C.Answered(msgs) && results.role == C.User
    ensures C.Answered(msgs + [assistant, results]) <==> C.CallIds(assistant) <= C.ResultIds(results)
  {
    var n, after := |msgs|, msgs + [assistant, results];
    assert after[n] == assistant && after[n + 1] == results;
    if C.CallIds(assistant) <= C.ResultIds(results) {
      forall m: nat, id | m < |after| && id in C.CallIds(after[m]) ensures C.HasResult(after, id, m + 1, |after|) {
        if m < n {
          assert C.HasResult(msgs, id, m + 1, n);
          var j :| m + 1 <= j < n && id in C.ResultIds(msgs[j]);
          assert id in C.ResultIds(after[j]);
        } else {
          assert m == n && id in C.ResultIds(after[n + 1]);
        }
      }
    }
    if C.Answered(after) {
      forall id | id in C.CallIds(assistant) ensures id in C.ResultIds(results) {
        assert id in C.CallIds(after[n]);
        assert C.HasResult(after, id, n + 1, |after|);
      }
    }
  }

  /** The message of a finished round passes on what a tool that was not cut off came back with: its
      output under the call's own id with its error status, or its image. */
  lemma {:induction false} RoundReportsTools(calls: seq<ToolCall>, trace: seq<State>, events: seq<Event>, k: nat,
                            payloads: seq<Payload>, t: nat, r: ToolResult)
    requires IsProtocolRun(calls, trace, events) && k < |trace| && trace[k].main == Done && |payloads| == |calls|
    requires t < |trace[k].threads| && R.CameBack(events, k, t, r) && !R.WasCutOff(trace, events, k, t)
    ensures |trace[k].slots| == |calls| && t < |trace[k].args| && trace[k].args[t].slot < |calls|
    ensures var i := trace[k].args[t].slot;
            RoundResults(trace[k].slots, payloads)[i] ==
            match r
            case ImageResult => C.Image(payloads[i].path, payloads[i].mimeType, payloads[i].data)
            case JsonResult(hasError) => C.ToolResponse(Some(IdOr(calls[i])), payloads[i].name, payloads[i].output, hasError)
  {
    hide R.CameBack, R.WasCutOff, R.LaunchedFor, IsRun, T.FinalSlot;
    T.FinalResults(calls, trace, events, k);
    ThreadsHaveArgs(calls, trace, events, k);
    R.ThreadLeavesItsResult(calls, trace, events, k, t);
    var i := trace[k].args[t].slot;
    assert R.Reports(trace[k].slots[i], IdOr(calls[i]), r);
    assert RoundResults(trace[k].slots, payloads)[i] == SlotContent(trace[k].slots[i], payloads[i]);
  }

  lemma ThreadsHaveArgs(calls: seq<ToolCall>, trace: seq<State>, events: seq<Event>, k: nat)
    requires IsProtocolRun(calls, trace, events) && k < |trace|
    ensures |trace[k].threads| <= |trace[k].args|
  {
    I.InitInv(calls);
    I.RunKeepsInv(trace, events, k);
    R.ArgsOfThreads(trace[k]);
  }
}
