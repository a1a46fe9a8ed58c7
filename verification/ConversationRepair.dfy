/** What repairing a history guarantees, for every history. */
module ConversationRepair {
  import opened Wrappers
  import opened Json
  import opened Conversation

  /** The ids that still have an unmarked entry. */
  function Open(infos: seq<CallInfo>): set<string> { set c | c in infos && !c.hasResult :: c.id }

  // ---------------------------------------------------------------- single steps of the scan

  lemma {:induction false} MarkFirstOpen(infos: seq<CallInfo>, id: string)
    ensures forall x :: x != id ==> (x in Open(MarkFirst(infos, id)) <==> x in Open(infos))
  {
    if infos != [] && infos[0].id != id {
      MarkFirstOpen(infos[1..], id);
      OpenCons(infos[0], infos[1..]);
      OpenCons(infos[0], MarkFirst(infos[1..], id));
      assert infos == [infos[0]] + infos[1..];
    } else if infos != [] {
      OpenCons(infos[0], infos[1..]);
      OpenCons(infos[0].(hasResult := true), infos[1..]);
      assert infos == [infos[0]] + infos[1..];
    }
  }

  lemma OpenCons(c: CallInfo, rest: seq<CallInfo>)
    ensures Open([c] + rest) == (if c.hasResult then {} else {c.id}) + Open(rest)
  {
  }

  lemma OpenSnoc(front: seq<CallInfo>, c: CallInfo)
    ensures Open(front + [c]) == Open(front) + if c.hasResult then {} else {c.id}
  {
    forall x | x in Open(front) + (if c.hasResult then {} else {c.id}) ensures x in Open(front + [c]) {
      if x in Open(front) {
        var y :| y in front && !y.hasResult && y.id == x;
        assert y in front + [c];
      } else {
        assert (front + [c])[|front|] == c;
      }
    }
  }

  function CallsIn(contents: seq<Content>): set<string> {
    set c | c in contents && c.ToolCall? && c.id.Some? :: c.id.value
  }

  function ResultsIn(contents: seq<Content>): set<string> {
    set c | c in contents && c.ToolResponse? && c.id.Some? :: c.id.value
  }

  lemma MessageIds(m: Message)
    ensures CallIds(m) == if m.role == Assistant then CallsIn(m.contents) else {}
    ensures ResultIds(m) == if m.role == User then ResultsIn(m.contents) else {}
  {
    forall x | x in CallsIn(m.contents) && m.role == Assistant ensures x in CallIds(m) {
      var c :| c in m.contents && c.ToolCall? && c.id.Some? && c.id.value == x;
      var i :| 0 <= i < |m.contents| && m.contents[i] == c;
    }
    forall x | x in ResultsIn(m.contents) && m.role == User ensures x in ResultIds(m) {
      var c :| c in m.contents && c.ToolResponse? && c.id.Some? && c.id.value == x;
      var i :| 0 <= i < |m.contents| && m.contents[i] == c;
    }
  }

  lemma {:induction false} CollectOpens(infos: seq<CallInfo>, contents: seq<Content>, at: nat)
    ensures Open(CollectCalls(infos, contents, at)) == Open(infos) + CallsIn(contents)
  {
    if contents == [] {
      assert CallsIn(contents) == {};
    } else {
      var front, c := contents[..|contents| - 1], contents[|contents| - 1];
      CollectOpens(infos, front, at);
      if c.ToolCall? && c.id.Some? { OpenSnoc(CollectCalls(infos, front, at), CallInfo(c.id.value, c.name, false, at)); }
      assert contents == front + [c];
      assert CallsIn(contents) == CallsIn(front) + CallsIn([c]);
      assert c in [c];
    }
  }

  lemma {:induction false} MarkResultsOpen(infos: seq<CallInfo>, contents: seq<Content>)
    ensures forall x :: x !in ResultsIn(contents) ==> (x in Open(MarkResults(infos, contents)) <==> x in Open(infos))
  {
    if contents != [] {
      var front, c := contents[..|contents| - 1], contents[|contents| - 1];
      MarkResultsOpen(infos, front);
      if c.ToolResponse? && c.id.Some? { MarkFirstOpen(MarkResults(infos, front), c.id.value); }
      assert contents == front + [c];
      assert c in contents && ResultsIn(front) <= ResultsIn(contents);
    }
  }

  // ---------------------------------------------------------------- the scan as a whole

  /** After the scan every call has a later result or still has an open entry. */
  lemma {:induction false} ScanMissesNothing(msgs: seq<Message>, i: nat, id: string)
    requires i < |msgs| && id in CallIds(msgs[i])
    ensures HasResult(msgs, id, i + 1, |msgs|) || id in Open(Scan(msgs))
  {
    var n := |msgs| - 1;
    var front, m := msgs[..n], msgs[n];
    MessageIds(m);
    if i < n { ScanMissesNothing(front, i, id); }
    if i < n && HasResult(front, id, i + 1, n) {
      var j :| i + 1 <= j < n && id in ResultIds(front[j]);
      assert id in ResultIds(msgs[j]);
    } else if m.role == Assistant {
      CollectOpens(Scan(front), m.contents, n);
    } else if m.role == User {
      MarkResultsOpen(Scan(front), m.contents);
      if id in ResultsIn(m.contents) { assert id in ResultIds(msgs[n]); }
    }
  }

  lemma {:induction false} MissingCoversOpen(infos: seq<CallInfo>)
    ensures ResultsIn(Missing(infos)) == Open(infos)
    ensures CallsIn(Missing(infos)) == {}
    ensures Missing(infos) == [] <==> Open(infos) == {}
  {
    if infos == [] {
      assert Open(infos) == {};
    } else {
      var front, c := infos[..|infos| - 1], infos[|infos| - 1];
      MissingCoversOpen(front);
      OpenSnoc(front, c);
      assert infos == front + [c];
      if !c.hasResult {
        assert Missing(infos) == Missing(front) + [Synthetic(c)];
        assert ResultsIn(Missing(infos)) == ResultsIn(Missing(front)) + ResultsIn([Synthetic(c)]);
        assert Synthetic(c) in [Synthetic(c)];
        assert ResultsIn([Synthetic(c)]) == {c.id};
      }
    }
  }

  /** The central guarantee: when there is room for one more message, the repaired history
      answers every tool call; when there is not, it does so exactly if the history did
      already. */
  lemma {:induction false} RepairAnswers(msgs: seq<Message>)
    ensures Answered(Repair(msgs)) <==> |msgs| < MAX_MESSAGES || Answered(msgs)
  {
    var infos := Scan(msgs);
    var missing := Missing(infos);
    MissingCoversOpen(infos);
    var after := Repair(msgs);
    if |msgs| < MAX_MESSAGES {
      MessageIds(Message(User, missing));
      forall i: nat, id | i < |after| && id in CallIds(after[i]) ensures HasResult(after, id, i + 1, |after|) {
        assert i < |msgs|;
        ScanMissesNothing(msgs, i, id);
        if id in Open(infos) {
          assert id in ResultIds(after[|msgs|]);
        } else {
          var j :| i + 1 <= j < |msgs| && id in ResultIds(msgs[j]);
          assert id in ResultIds(after[j]);
        }
      }
    }
  }

  /** Repair only appends, and at most one message of results to tool calls of the history. */
  lemma {:induction false} RepairExtends(msgs: seq<Message>)
    ensures msgs <= Repair(msgs) && |Repair(msgs)| <= |msgs| + 1
    ensures |Repair(msgs)| <= MAX_MESSAGES || Repair(msgs) == msgs
  {
  }

  // ---------------------------------------------------------------- which calls get a synthetic result

  /** All calls of the history with an id, in order, none marked. */
  function AllCalls(msgs: seq<Message>): seq<CallInfo> {
    if msgs == [] then []
    else
      var n := |msgs| - 1;
      var before := AllCalls(msgs[..n]);
      if msgs[n].role == Assistant then CollectCalls(before, msgs[n].contents, n) else before
  }

  /** Call entry c has a result in a message after its own. */
  predicate AnsweredLater(msgs: seq<Message>, c: CallInfo) { HasResult(msgs, c.id, c.at + 1, |msgs|) }

  ghost predicate DistinctIds(infos: seq<CallInfo>) {
    forall a, b :: 0 <= a < b < |infos| ==> infos[a].id != infos[b].id
  }

  /** Entry k is the first one with its id. */
  ghost predicate FirstWithId(infos: seq<CallInfo>, k: nat)
    requires k < |infos|
  {
    forall j :: 0 <= j < k ==> infos[j].id != infos[k].id
  }

  lemma {:induction false} CollectAppends(infos: seq<CallInfo>, contents: seq<Content>, at: nat)
    ensures |infos| <= |CollectCalls(infos, contents, at)| && CollectCalls(infos, contents, at)[..|infos|] == infos
    ensures forall k :: |infos| <= k < |CollectCalls(infos, contents, at)| ==>
              CollectCalls(infos, contents, at)[k].at == at && !CollectCalls(infos, contents, at)[k].hasResult
  {
    if contents != [] { CollectAppends(infos, contents[..|contents| - 1], at); }
  }

  /** Collecting behind tables that differ only in their marks appends the same entries. */
  lemma {:induction false} CollectSameTail(a: seq<CallInfo>, b: seq<CallInfo>, contents: seq<Content>, at: nat)
    requires |a| == |b|
    ensures |CollectCalls(a, contents, at)| == |CollectCalls(b, contents, at)|
    ensures forall k :: |a| <= k < |CollectCalls(a, contents, at)| ==> CollectCalls(a, contents, at)[k] == CollectCalls(b, contents, at)[k]
  {
    if contents != [] { CollectSameTail(a, b, contents[..|contents| - 1], at); }
  }

  /** MarkFirst marks exactly the first entry with the id. */
  lemma {:induction false} MarkFirstExactly(infos: seq<CallInfo>, id: string, k: nat)
    requires k < |infos|
    ensures MarkFirst(infos, id)[k] ==
            infos[k].(hasResult := infos[k].hasResult || (infos[k].id == id && FirstWithId(infos, k)))
  {
    if infos[0].id == id {
      if k > 0 && infos[k].id == id { assert infos[0].id == infos[k].id; }
    } else if k > 0 {
      var rest := infos[1..];
      MarkFirstExactly(rest, id, k - 1);
      assert infos[k].id == id ==> (FirstWithId(infos, k) <==> FirstWithId(rest, k - 1)) by {
        if infos[k].id == id && FirstWithId(rest, k - 1) {
          forall j | 0 <= j < k ensures infos[j].id != infos[k].id {
            if j > 0 { assert infos[j] == rest[j - 1]; }
          }
        }
      }
    }
  }

  /** Marking the results of a message marks the first entry of each of its ids. */
  lemma {:induction false} MarkResultsExactly(infos: seq<CallInfo>, contents: seq<Content>)
    ensures |MarkResults(infos, contents)| == |infos|
    ensures forall k :: 0 <= k < |infos| ==>
              MarkResults(infos, contents)[k] ==
              infos[k].(hasResult := infos[k].hasResult || (infos[k].id in ResultsIn(contents) && FirstWithId(infos, k)))
  {
    if contents != [] {
      var front, c := contents[..|contents| - 1], contents[|contents| - 1];
      MarkResultsExactly(infos, front);
      assert contents == front + [c];
      var before := MarkResults(infos, front);
      assert ResultsIn(contents) == ResultsIn(front) + ResultsIn([c]) && c in [c];
      forall k | 0 <= k < |infos|
        ensures MarkResults(infos, contents)[k] ==
                infos[k].(hasResult := infos[k].hasResult || (infos[k].id in ResultsIn(contents) && FirstWithId(infos, k)))
      {
        assert FirstWithId(before, k) <==> FirstWithId(infos, k);
        if c.ToolResponse? && c.id.Some? { MarkFirstExactly(before, c.id.value, k); }
      }
    }
  }

  /** Call k of the history is the first with its id and has a result in a later message. */
  ghost predicate Recognised(msgs: seq<Message>, k: nat)
    requires k < |AllCalls(msgs)|
  {
    FirstWithId(AllCalls(msgs), k) && AnsweredLater(msgs, AllCalls(msgs)[k])
  }

  /** The scan's table lists the calls of the history, and marks exactly those that are the first
      with their id and have a later result. */
  lemma {:induction false} ScanIsExact(msgs: seq<Message>)
    ensures |Scan(msgs)| == |AllCalls(msgs)|
    ensures forall k :: 0 <= k < |AllCalls(msgs)| ==>
              && AllCalls(msgs)[k].at < |msgs|
              && Scan(msgs)[k] == AllCalls(msgs)[k].(hasResult := Recognised(msgs, k))
  {
    if msgs != [] {
      var n := |msgs| - 1;
      var front, m := msgs[..n], msgs[n];
      var calls, before := AllCalls(front), Scan(front);
      ScanIsExact(front);
      MessageIds(m);
      if m.role == Assistant {
        CollectAppends(calls, m.contents, n);
        CollectAppends(before, m.contents, n);
        CollectSameTail(calls, before, m.contents, n);
      } else if m.role == User {
        MarkResultsExactly(before, m.contents);
      }
      assert calls <= AllCalls(msgs);
      forall k | 0 <= k < |AllCalls(msgs)|
        ensures AllCalls(msgs)[k].at < |msgs|
        ensures Scan(msgs)[k] == AllCalls(msgs)[k].(hasResult := Recognised(msgs, k))
      {
        LastMessageDecides(msgs, AllCalls(msgs)[k]);
        if k < |calls| {
          SameFirst(before, calls, k);
          SameFirst(calls, AllCalls(msgs), k);
        }
      }
    }
  }

  /** Being the first with an id depends only on the ids up to there. */
  lemma SameFirst(a: seq<CallInfo>, b: seq<CallInfo>, k: nat)
    requires k < |a| <= |b| && forall j :: 0 <= j <= k ==> a[j].id == b[j].id
    ensures FirstWithId(a, k) <==> FirstWithId(b, k)
  {
    if FirstWithId(a, k) {
      forall j | 0 <= j < k ensures b[j].id != b[k].id { assert a[j].id == b[j].id; }
    }
    if FirstWithId(b, k) {
      forall j | 0 <= j < k ensures a[j].id != a[k].id { assert a[j].id == b[j].id; }
    }
  }

  lemma LastMessageDecides(msgs: seq<Message>, c: CallInfo)
    requires msgs != []
    ensures c.at < |msgs| - 1 ==>
              (AnsweredLater(msgs, c) <==> AnsweredLater(msgs[..|msgs| - 1], c) || c.id in ResultIds(msgs[|msgs| - 1]))
    ensures c.at == |msgs| - 1 ==> !AnsweredLater(msgs, c)
  {
    var n := |msgs| - 1;
    if c.at < n && AnsweredLater(msgs, c) && c.id !in ResultIds(msgs[n]) {
      var j :| c.at + 1 <= j < |msgs| && c.id in ResultIds(msgs[j]);
      assert c.id in ResultIds(msgs[..n][j]);
    }
    if c.at < n && AnsweredLater(msgs[..n], c) {
      var j :| c.at + 1 <= j < n && c.id in ResultIds(msgs[..n][j]);
      assert c.id in ResultIds(msgs[j]);
    }
  }

  /** The synthetic results that unanswered calls call for: one each, in call order. */
  function ResultsFor(msgs: seq<Message>, calls: seq<CallInfo>): seq<Content> {
    if calls == [] then []
    else
      var front, c := calls[..|calls| - 1], calls[|calls| - 1];
      ResultsFor(msgs, front) + if AnsweredLater(msgs, c) then [] else [Synthetic(c)]
  }

  lemma {:induction false} MissingIsAtLeastResultsFor(msgs: seq<Message>, infos: seq<CallInfo>, calls: seq<CallInfo>)
    requires |infos| == |calls|
    requires forall k :: 0 <= k < |calls| ==>
               infos[k] == calls[k].(hasResult := infos[k].hasResult) && (infos[k].hasResult ==> AnsweredLater(msgs, calls[k]))
    ensures |Missing(infos)| >= |ResultsFor(msgs, calls)|
    ensures Missing(infos) == ResultsFor(msgs, calls) <==>
            forall k :: 0 <= k < |calls| ==> (AnsweredLater(msgs, calls[k]) ==> infos[k].hasResult)
    ensures Missing(infos) != ResultsFor(msgs, calls) ==> |Missing(infos)| > |ResultsFor(msgs, calls)|
  {
    hide AnsweredLater;
    if infos != [] {
      var n := |infos| - 1;
      MissingIsAtLeastResultsFor(msgs, infos[..n], calls[..n]);
      assert Synthetic(infos[n]) == Synthetic(calls[n]);
      assert forall k :: 0 <= k < n ==> infos[..n][k] == infos[k] && calls[..n][k] == calls[k];
    }
  }

  /** Repair injects exactly one result for each call without a later result, in the order of the
      calls, if and only if the history is full or no answered call repeats the id of an earlier
      one. (A repeated id is answered only for its first call.) */
  lemma {:induction false} RepairInjectsExactly(msgs: seq<Message>)
    ensures (var results := ResultsFor(msgs, AllCalls(msgs));
             Repair(msgs) == if results == [] || |msgs| >= MAX_MESSAGES then msgs else msgs + [Message(User, results)]) <==>
            || |msgs| >= MAX_MESSAGES
            || forall k :: 0 <= k < |AllCalls(msgs)| && AnsweredLater(msgs, AllCalls(msgs)[k]) ==> FirstWithId(AllCalls(msgs), k)
  {
    hide Missing, ResultsFor, AllCalls, AnsweredLater, FirstWithId;
    ScanIsExact(msgs);
    MissingIsAtLeastResultsFor(msgs, Scan(msgs), AllCalls(msgs));
    var missing, results := Missing(Scan(msgs)), ResultsFor(msgs, AllCalls(msgs));
    if |msgs| < MAX_MESSAGES && missing != results {
      assert missing != [];
      assert (msgs + [Message(User, missing)])[|msgs|] == Message(User, missing);
      assert results != [] ==> (msgs + [Message(User, results)])[|msgs|] == Message(User, results);
    }
  }

  /** In particular with distinct ids. */
  lemma {:induction false} RepairInjectsOnePerUnanswered(msgs: seq<Message>)
    requires DistinctIds(AllCalls(msgs))
    ensures var results := ResultsFor(msgs, AllCalls(msgs));
            Repair(msgs) == if results == [] || |msgs| >= MAX_MESSAGES then msgs else msgs + [Message(User, results)]
  {
    hide Repair, ResultsFor, AllCalls, AnsweredLater;
    RepairInjectsExactly(msgs);
  }

  // ---------------------------------------------------------------- repairing twice

  lemma {:induction false} MissingNothing(infos: seq<CallInfo>)
    ensures Missing(infos) == [] <==> forall k :: 0 <= k < |infos| ==> infos[k].hasResult
  {
    if infos != [] { MissingNothing(infos[..|infos| - 1]); }
  }

  lemma AllFirstIsDistinct(infos: seq<CallInfo>)
    ensures (forall k :: 0 <= k < |infos| ==> FirstWithId(infos, k)) <==> DistinctIds(infos)
  {
    if forall k :: 0 <= k < |infos| ==> FirstWithId(infos, k) {
      forall a, b | 0 <= a < b < |infos| ensures infos[a].id != infos[b].id { assert FirstWithId(infos, b); }
    }
  }

  /** Repairing again changes nothing exactly when the ids of all calls are distinct or there is no
      room for a second message. A repeated id makes every further repair append another message. */
  lemma {:induction false} RepairIdempotentExactly(msgs: seq<Message>)
    ensures Repair(Repair(msgs)) == Repair(msgs) <==> |msgs| + 1 >= MAX_MESSAGES || DistinctIds(AllCalls(msgs))
  {
    hide Scan, Missing, DistinctIds, AllCalls;
    var missing := Missing(Scan(msgs));
    if missing == [] {
      NothingMissing(msgs);
    } else if |msgs| + 1 < MAX_MESSAGES {
      SecondScan(msgs);
    }
  }

  /** If the scan of a history finds nothing missing, the ids of its calls are distinct. */
  lemma NothingMissing(msgs: seq<Message>)
    ensures Missing(Scan(msgs)) == [] ==> DistinctIds(AllCalls(msgs))
  {
    hide Scan, AllCalls, FirstWithId, DistinctIds, AnsweredLater;
    ScanIsExact(msgs);
    MissingNothing(Scan(msgs));
    AllFirstIsDistinct(AllCalls(msgs));
    if Missing(Scan(msgs)) == [] {
      forall k | 0 <= k < |AllCalls(msgs)| ensures FirstWithId(AllCalls(msgs), k) { assert Scan(msgs)[k].hasResult; }
    }
  }

  /** Scanning the repaired history again. */
  lemma SecondScan(msgs: seq<Message>)
    ensures Missing(Scan(msgs + [Message(User, Missing(Scan(msgs)))])) == [] <==> DistinctIds(AllCalls(msgs))
  {
    hide AllCalls, FirstWithId, DistinctIds, AnsweredLater, MarkResults;
    var infos := Scan(msgs);
    var after := msgs + [Message(User, Missing(infos))];
    assert after[..|msgs|] == msgs;
    assert Scan(after) == MarkResults(infos, Missing(infos));
    hide Scan, Missing;
    ScanIsExact(msgs);
    MarkedAfterRepair(infos);
    MissingNothing(Scan(after));
    AllFirstIsDistinct(AllCalls(msgs));
    forall k | 0 <= k < |infos| ensures FirstWithId(infos, k) <==> FirstWithId(AllCalls(msgs), k) {
      SameFirst(infos, AllCalls(msgs), k);
    }
  }

  /** Once the missing results are scanned, an entry is marked if it was or is the first with its id. */
  lemma MarkedAfterRepair(infos: seq<CallInfo>)
    ensures |MarkResults(infos, Missing(infos))| == |infos|
    ensures forall k :: 0 <= k < |infos| ==>
              (MarkResults(infos, Missing(infos))[k].hasResult <==> infos[k].hasResult || FirstWithId(infos, k))
  {
    hide FirstWithId;
    var missing := Missing(infos);
    MissingCoversOpen(infos);
    MarkResultsExactly(infos, missing);
    forall k | 0 <= k < |infos|
      ensures MarkResults(infos, missing)[k].hasResult <==> infos[k].hasResult || FirstWithId(infos, k)
    {
      if !infos[k].hasResult { assert infos[k] in infos && infos[k].id in Open(infos); }
    }
  }

  // ---------------------------------------------------------------- repairing for ever

  /** n repairs in a row, as n requests make them. */
  function Repairs(msgs: seq<Message>, n: nat): seq<Message> {
    if n == 0 then msgs else Repair(Repairs(msgs, n - 1))
  }

  /** Repair adds no calls. */
  lemma RepairKeepsCalls(msgs: seq<Message>)
    ensures AllCalls(Repair(msgs)) == AllCalls(msgs)
  {
    hide Missing, Scan;
    var after := Repair(msgs);
    if after != msgs { assert after[..|after| - 1] == msgs; }
  }

  lemma {:induction false} RepairsKeepCalls(msgs: seq<Message>, n: nat)
    ensures AllCalls(Repairs(msgs, n)) == AllCalls(msgs)
  {
    hide Repair, AllCalls;
    if n > 0 {
      RepairsKeepCalls(msgs, n - 1);
      RepairKeepsCalls(Repairs(msgs, n - 1));
    }
  }

  /** With a repeated call id repair never settles: every single repair appends a message, until
      the history is full. */
  lemma {:induction false} RepeatedIdNeverSettles(msgs: seq<Message>, n: nat)
    requires !DistinctIds(AllCalls(msgs)) && |msgs| <= MAX_MESSAGES
    ensures |Repairs(msgs, n)| == if |msgs| + n <= MAX_MESSAGES then |msgs| + n else MAX_MESSAGES
    ensures msgs <= Repairs(msgs, n)
  {
    hide AllCalls, DistinctIds, Scan, Missing;
    if n > 0 {
      RepeatedIdNeverSettles(msgs, n - 1);
      RepairsKeepCalls(msgs, n - 1);
      NothingMissing(Repairs(msgs, n - 1));
    }
  }

  /** With distinct ids a single repair settles the history, however many follow. */
  lemma {:induction false} DistinctIdsSettle(msgs: seq<Message>, n: nat)
    requires DistinctIds(AllCalls(msgs)) && n > 0
    ensures Repairs(msgs, n) == Repair(msgs)
  {
    hide AllCalls, DistinctIds, Repair;
    if n == 1 {
      assert Repairs(msgs, 0) == msgs;
    } else {
      DistinctIdsSettle(msgs, n - 1);
      RepairIdempotentExactly(msgs);
    }
  }

  /** Such a history: the same id called twice, answered once. */
  lemma {:induction false} RepeatedId(id: string, name: Option<string>, params: Json, output: Json, n: nat)
    ensures var call, result := ToolCall(Some(id), name, params), ToolResponse(Some(id), name, output, false);
            var msgs := [Message(Assistant, [call]), Message(User, [result]), Message(Assistant, [call])];
            |Repairs(msgs, n)| == if n <= MAX_MESSAGES - 3 then n + 3 else MAX_MESSAGES
  {
    var call, result := ToolCall(Some(id), name, params), ToolResponse(Some(id), name, output, false);
    var a, r := Message(Assistant, [call]), Message(User, [result]);
    var msgs := [a, r, a];
    assert [call][..0] == [];
    var open0, open2 := CallInfo(id, name, false, 0), CallInfo(id, name, false, 2);
    assert CollectCalls([], [call], 0) == CollectCalls([], [], 0) + [open0] == [open0];
    assert [a][..0] == [] && [a, r][..1] == [a] && msgs[..2] == [a, r];
    var calls := [open0, open2];
    assert AllCalls([a]) == CollectCalls(AllCalls([]), [call], 0) == [open0];
    assert AllCalls([a, r]) == AllCalls([a]);
    assert CollectCalls([open0], [call], 2) == CollectCalls([open0], [], 2) + [open2] == calls;
    assert AllCalls(msgs) == CollectCalls(AllCalls([a, r]), [call], 2) == calls;
    assert calls[0].id == calls[1].id;
    RepeatedIdNeverSettles(msgs, n);
  }

  /** A full history cannot be repaired: 10000 messages that end in a call. */
  lemma {:induction false} FullHistoryUnanswered(id: string, name: Option<string>, params: Json)
    ensures var msgs := seq(MAX_MESSAGES, _ => Message(Assistant, [ToolCall(Some(id), name, params)]));
            !Answered(Repair(msgs))
  {
    var m := Message(Assistant, [ToolCall(Some(id), name, params)]);
    var msgs := seq(MAX_MESSAGES, _ => m);
    hide Repair, Scan, Missing;
    RepairAnswers(msgs);
    var last := MAX_MESSAGES - 1;
    assert msgs[last].contents[0].id.value == id && id in CallIds(msgs[last]);
    assert !HasResult(msgs, id, last + 1, |msgs|);
  }

  // ---------------------------------------------------------------- what is injected

  /** The entry belongs to a tool call of the history. */
  ghost predicate IsCallOf(msgs: seq<Message>, info: CallInfo) {
    exists i, j :: 0 <= i < |msgs| && msgs[i].role == Assistant && 0 <= j < |msgs[i].contents| && IsEntryOf(msgs[i].contents[j], info)
  }

  predicate IsEntryOf(c: Content, info: CallInfo) { c.ToolCall? && c.id == Some(info.id) && c.name == info.name }

  lemma {:induction false} CollectedAreCalls(infos: seq<CallInfo>, contents: seq<Content>, at: nat)
    ensures forall c :: c in CollectCalls(infos, contents, at) ==> c in infos || exists j :: 0 <= j < |contents| && IsEntryOf(contents[j], c)
  {
    if contents != [] {
      var n := |contents| - 1;
      CollectedAreCalls(infos, contents[..n], at);
      forall c | c in CollectCalls(infos, contents, at) && c !in infos
        ensures exists j :: 0 <= j < |contents| && IsEntryOf(contents[j], c)
      {
        if c in CollectCalls(infos, contents[..n], at) {
          var j :| 0 <= j < n && IsEntryOf(contents[..n][j], c);
          assert IsEntryOf(contents[j], c);
        } else {
          assert IsEntryOf(contents[n], c);
        }
      }
    }
  }

  lemma {:induction false} EntriesAreCalls(msgs: seq<Message>)
    ensures forall c :: c in AllCalls(msgs) ==> IsCallOf(msgs, c)
  {
    hide IsEntryOf, CollectCalls;
    if msgs != [] {
      var n := |msgs| - 1;
      EntriesAreCalls(msgs[..n]);
      CollectedAreCalls(AllCalls(msgs[..n]), msgs[n].contents, n);
      forall c | c in AllCalls(msgs) ensures IsCallOf(msgs, c) {
        if c in AllCalls(msgs[..n]) {
          var i, j :| 0 <= i < n && msgs[..n][i].role == Assistant && 0 <= j < |msgs[..n][i].contents| && IsEntryOf(msgs[..n][i].contents[j], c);
          assert IsEntryOf(msgs[i].contents[j], c);
        } else {
          var j :| 0 <= j < |msgs[n].contents| && IsEntryOf(msgs[n].contents[j], c);
        }
      }
    }
  }

  /** What an injected result says. */
  ghost predicate SaysInterrupted(result: Content, call: Content) {
    && call.ToolCall? && call.id.Some? && result.ToolResponse?
    && result.id == call.id
    && result.name.Some? && (call.name.Some? ==> result.name == call.name) && (call.name.None? ==> result.name.value == "unknown")
    && result.isError
    && Get(result.output, ErrorOf) == Some(Str("Tool execution was interrupted"))
    && forall name :: name != ErrorOf ==> Get(result.output, name) == None
  }

  lemma {:induction false} MissingSays(infos: seq<CallInfo>, result: Content)
    requires result in Missing(infos)
    ensures exists c :: c in infos && forall call :: IsEntryOf(call, c) ==> SaysInterrupted(result, call)
  {
    var n := |infos| - 1;
    if result in Missing(infos[..n]) {
      MissingSays(infos[..n], result);
      var c :| c in infos[..n] && forall call :: IsEntryOf(call, c) ==> SaysInterrupted(result, call);
      assert c in infos;
    } else {
      assert infos[n] in infos && result == Synthetic(infos[n]);
      assert forall call :: IsEntryOf(call, infos[n]) ==> SaysInterrupted(result, call);
    }
  }

  /** Every injected result is an error that says the tool was interrupted, under id and name of a
      tool call of the history. */
  lemma {:induction false} InjectedSayInterrupted(msgs: seq<Message>, result: Content)
    requires Repair(msgs) != msgs && result in Repair(msgs)[|msgs|].contents
    ensures Repair(msgs)[|msgs|].role == User
    ensures exists m, call :: m in msgs && m.role == Assistant && call in m.contents && SaysInterrupted(result, call)
  {
    hide SaysInterrupted, IsEntryOf, Missing, Scan, AllCalls;
    var infos := Scan(msgs);
    MissingSays(infos, result);
    ScanIsExact(msgs);
    EntriesAreCalls(msgs);
    var c :| c in infos && forall call :: IsEntryOf(call, c) ==> SaysInterrupted(result, call);
    var k :| 0 <= k < |infos| && infos[k] == c;
    var d := AllCalls(msgs)[k];
    assert d in AllCalls(msgs) && c == d.(hasResult := c.hasResult);
    var i, j :| 0 <= i < |msgs| && msgs[i].role == Assistant && 0 <= j < |msgs[i].contents| && IsEntryOf(msgs[i].contents[j], d);
    SameEntry(msgs[i].contents[j], c, d);
    assert msgs[i] in msgs && msgs[i].contents[j] in msgs[i].contents;
  }

  lemma SameEntry(call: Content, c: CallInfo, d: CallInfo)
    requires IsEntryOf(call, d) && c == d.(hasResult := c.hasResult)
    ensures IsEntryOf(call, c)
  {
  }

  // ---------------------------------------------------------------- what is stored of an answer

  /** Of the tool calls of a provider message exactly those with a function and an id are stored, in
      order, with id, name and parsed arguments, or no arguments when they do not parse. */
  lemma {:induction false} StoredCallsExactly(codec: Codec, calls: seq<Json>) returns (at: seq<nat>)
    ensures |at| == |CallContents(codec, calls)| && (forall k :: 0 <= k < |at| ==> at[k] < |calls|)
    ensures forall j, k :: 0 <= j < k < |at| ==> at[j] < at[k]
    ensures forall i: nat :: i in at <==> i < |calls| && Get(calls[i], Function).Some? && GetStr(calls[i], Id).Some?
    ensures forall k :: 0 <= k < |at| ==>
              var stored, function_ := CallContents(codec, calls)[k], Get(calls[at[k]], Function).GetOr(Null);
              && stored.ToolCall? && stored.id == GetStr(calls[at[k]], Id) && stored.name == GetStr(function_, NameOf)
              && match GetStr(function_, Arguments)
                 case None => stored.params == Obj(map[])
                 case Some(text) => if codec.parse(text).None? then stored.params == Obj(map[]) else codec.parse(text) == Some(stored.params)
  {
    if calls == [] {
      at := [];
    } else {
      var n := |calls| - 1;
      var front := StoredCallsExactly(codec, calls[..n]);
      at := front + if WellFormedCall(calls[n]) then [n] else [];
      forall i: nat ensures i in at <==> i < |calls| && Get(calls[i], Function).Some? && GetStr(calls[i], Id).Some? {
        if i < n { assert calls[..n][i] == calls[i]; }
      }
    }
  }
}
