/** "Every call is answered later", over any list of steps that make calls and give results. */
module Answering {
  /** The ids that one step makes calls with, and those it gives results for. */
  datatype Step = Step(calls: set<string>, results: set<string>)

  /** Each call is followed by a later step with a result for its id. */
  ghost predicate Answered(steps: seq<Step>) {
    forall p: nat, id :: p < |steps| && id in steps[p].calls ==> exists q :: p < q < |steps| && id in steps[q].results
  }

  function AllCalls(steps: seq<Step>): set<string> {
    if steps == [] then {} else steps[0].calls + AllCalls(steps[1..])
  }

  function AllResults(steps: seq<Step>): set<string> {
    if steps == [] then {} else steps[0].results + AllResults(steps[1..])
  }

  /** The same, from the end. */
  predicate AnsweredRec(steps: seq<Step>) {
    steps == [] || (steps[0].calls <= AllResults(steps[1..]) && AnsweredRec(steps[1..]))
  }

  lemma {:induction false} AllResultsMember(steps: seq<Step>, id: string)
    ensures id in AllResults(steps) <==> exists q :: 0 <= q < |steps| && id in steps[q].results
  {
    if steps != [] {
      var rest := steps[1..];
      AllResultsMember(rest, id);
      if q :| 0 <= q < |rest| && id in rest[q].results { assert rest[q] == steps[q + 1]; }
      if q :| 0 < q < |steps| && id in steps[q].results { assert rest[q - 1] == steps[q]; }
    }
  }

  lemma {:induction false} AnsweredIsRec(steps: seq<Step>)
    ensures Answered(steps) <==> AnsweredRec(steps)
  {
    if steps != [] {
      var rest := steps[1..];
      AnsweredIsRec(rest);
      if Answered(steps) {
        RestAnswered(steps);
        forall id | id in steps[0].calls ensures id in AllResults(rest) {
          AllResultsMember(rest, id);
          var q :| 0 < q < |steps| && id in steps[q].results;
          assert rest[q - 1] == steps[q];
        }
      }
      if AnsweredRec(steps) { AnsweredFromRest(steps); }
    }
  }

  lemma RestAnswered(steps: seq<Step>)
    requires steps != [] && Answered(steps)
    ensures Answered(steps[1..])
  {
    var rest := steps[1..];
    forall p: nat, id | p < |rest| && id in rest[p].calls ensures exists q :: p < q < |rest| && id in rest[q].results {
      assert id in steps[p + 1].calls;
      var q :| p + 1 < q < |steps| && id in steps[q].results;
      assert rest[q - 1] == steps[q];
    }
  }

  lemma AnsweredFromRest(steps: seq<Step>)
    requires steps != [] && Answered(steps[1..]) && steps[0].calls <= AllResults(steps[1..])
    ensures Answered(steps)
  {
    var rest := steps[1..];
    forall p: nat, id | p < |steps| && id in steps[p].calls ensures exists q :: p < q < |steps| && id in steps[q].results {
      if p == 0 {
        AllResultsMember(rest, id);
        var q :| 0 <= q < |rest| && id in rest[q].results;
        assert steps[q + 1] == rest[q];
      } else {
        assert id in rest[p - 1].calls;
        var q :| p - 1 < q < |rest| && id in rest[q].results;
        assert steps[q + 1] == rest[q];
      }
    }
  }

  lemma {:induction false} Append(a: seq<Step>, b: seq<Step>)
    ensures AllCalls(a + b) == AllCalls(a) + AllCalls(b) && AllResults(a + b) == AllResults(a) + AllResults(b)
  {
    if a == [] {
      assert a + b == b;
    } else {
      assert (a + b)[1..] == a[1..] + b;
      Append(a[1..], b);
    }
  }

  lemma OneStep(s: Step)
    ensures AllCalls([s]) == s.calls && AllResults([s]) == s.results && AllCalls([]) == {} && AllResults([]) == {}
  {
    assert [s][1..] == [];
  }

  /** A part that only makes calls or only gives results counts as a single step. */
  lemma {:induction false} PartIsOneStep(part: seq<Step>, rest: seq<Step>)
    requires AllCalls(part) == {} || AllResults(part) == {}
    ensures AnsweredRec(part + rest) <==> AnsweredRec([Step(AllCalls(part), AllResults(part))] + rest)
    ensures AllResults(part + rest) == AllResults([Step(AllCalls(part), AllResults(part))] + rest)
  {
    var one := Step(AllCalls(part), AllResults(part));
    assert ([one] + rest)[1..] == rest;
    Append(part, rest);
    if part == [] {
      assert part + rest == rest;
    } else {
      assert (part + rest)[1..] == part[1..] + rest;
      var tail := Step(AllCalls(part[1..]), AllResults(part[1..]));
      assert ([tail] + rest)[1..] == rest;
      PartIsOneStep(part[1..], rest);
      Append(part[1..], rest);
    }
  }
}
