/** Printing patch operations and parsing them back; what parsing can return at all. */
module PatchRoundTrip {
  import opened Wrappers
  import opened Text
  import opened PatchParser

  // ---------------------------------------------------------------- the printed form

  /** Every line of the text behind the prefix `c`, and a final newline. */
  function Prefixed(c: char, text: string): string
    decreases |text|
  {
    var e := LineEnd(text);
    [c] + text[..e] + "\n" + if e == |text| then "" else Prefixed(c, text[e + 1..])
  }

  function PrintBody(op: Operation): string { Prefixed('-', op.oldContent) + Prefixed('+', op.newContent) }

  /** What follows the file marker of an operation. */
  function PrintTail(op: Operation): string { " " + op.path + "\n" + ("@@\n" + (PrintBody(op) + "@@\n")) }

  function PrintOps(ops: seq<Operation>): string {
    if ops == [] then "" else UPDATE + (PrintTail(ops[0]) + PrintOps(ops[1..]))
  }

  function Print(ops: seq<Operation>): string { BEGIN + ("\n" + PrintOps(ops) + (END + "\n")) }

  ghost predicate FreeOfMarkers(text: string) { Free(text, END) && Free(text, UPDATE) }

  /** A one-line path without spaces at its ends, and texts without the end and file markers. */
  ghost predicate Printable(op: Operation) {
    && op.path != "" && Trimmed(op.path) && '\n' !in op.path && FreeOfMarkers(op.path)
    && FreeOfMarkers(op.oldContent) && FreeOfMarkers(op.newContent)
  }

  // ---------------------------------------------------------------- the markers

  lemma MarkersAreLines()
    ensures '\n' !in END && '\n' !in UPDATE && END != "" && UPDATE != "" && END[0] == '*' && UPDATE[0] == '*'
    ensures |BEGIN| == 15 && |END| == 13 && |UPDATE| == 16
  {
  }

  /** The end marker does not start inside a file marker. */
  lemma NoEndInUpdate(t: string, i: nat)
    requires i < |UPDATE|
    ensures !At(UPDATE + t, END, i)
  {
    var s := UPDATE + t;
    if i + |END| <= |s| {
      var part := s[i..i + |END|];
      assert s[4] == 'U' && s[3] == ' ';
      if i >= 3 {
        assert part[0] == s[i] && END[0] == '*' && UPDATE[i] != '*';
      } else if i == 0 {
        assert part[4] == s[4] && END[4] == 'E';
      } else {
        assert part[3 - i] == s[3] && END[3 - i] == '*';
      }
    }
  }

  // ---------------------------------------------------------------- prefixed lines

  lemma {:induction false} PrefixedEnds(c: char, text: string)
    ensures Prefixed(c, text) != "" && Prefixed(c, text)[|Prefixed(c, text)| - 1] == '\n'
    decreases |text|
  {
    hide LineEnd;
    var e := LineEnd(text);
    var first, more := [c] + text[..e] + "\n", if e == |text| then "" else Prefixed(c, text[e + 1..]);
    assert Prefixed(c, text) == first + more;
    if e < |text| { PrefixedEnds(c, text[e + 1..]); }
    assert (first + more)[|first + more| - 1] == if more == "" then '\n' else more[|more| - 1];
  }

  /** The first line of a text, cut off. */
  lemma FirstLine(line: string, rest: string)
    requires '\n' !in line
    ensures LineEnd(line + "\n" + rest) == |line| && AfterLine(line + "\n" + rest) == rest
    ensures (line + "\n" + rest)[..|line|] == line
  {
    var s := line + "\n" + rest;
    assert s[..|line|] == line && s[|line| + 1..] == rest;
    LineEndIs(s, |line|);
  }

  /** The prefixed lines behind the first one. */
  function MoreLines(c: char, text: string): string {
    var e := LineEnd(text);
    if e == |text| then "" else Prefixed(c, text[e + 1..])
  }

  lemma PrefixedSplit(c: char, text: string, rest: string)
    ensures Prefixed(c, text) + rest == ([c] + text[..LineEnd(text)]) + "\n" + (MoreLines(c, text) + rest)
  {
  }

  lemma GatherLine(d: char, line: string, rest: string)
    requires '\n' !in line
    ensures Gather(d, line + "\n" + rest) == Kept(d, line) + Gather(d, rest)
  {
    hide Gather;
    FirstLine(line, rest);
    GatherStep(d, line + "\n" + rest);
  }

  lemma {:induction false} GatherPrefixed(c: char, d: char, text: string, rest: string)
    requires c != '\n'
    ensures Gather(d, Prefixed(c, text) + rest) == (if c == d then text + "\n" else "") + Gather(d, rest)
    decreases |text|
  {
    hide Gather, Prefixed;
    var e := LineEnd(text);
    var line := [c] + text[..e];
    PrefixedSplit(c, text, rest);
    GatherLine(d, line, MoreLines(c, text) + rest);
    assert line[1..] == text[..e];
    if e == |text| {
      assert MoreLines(c, text) + rest == rest && text[..e] == text;
    } else {
      GatherPrefixed(c, d, text[e + 1..], rest);
      assert text == text[..e] + "\n" + text[e + 1..];
    }
  }

  /** One prefixed line is free of p when the line is. */
  lemma LineFree(c: char, line: string, p: string)
    requires '\n' !in p && p != "" && p[0] != c && Free(line, p)
    ensures Free([c] + line + "\n", p)
  {
    var s := [c] + line + "\n";
    forall i: nat ensures !At(s, p, i) {
      if i > 0 && i + |p| <= |s| - 1 {
        AtPart(s, p, 1, |s| - 1, i - 1);
        assert s[1..|s| - 1] == line;
        assert s[i..i + |p|] == line[i - 1..i - 1 + |p|];
        assert !At(line, p, i - 1);
      } else if i == 0 {
        if |p| <= |s| { assert s[0..|p|][0] == c; }
      } else if i + |p| <= |s| {
        NewlineInside(s, p, i, |s| - 1);
      }
    }
  }

  lemma {:induction false} PrefixedFree(c: char, text: string, p: string)
    requires '\n' !in p && p != "" && p[0] != c && Free(text, p)
    ensures Free(Prefixed(c, text), p)
    decreases |text|
  {
    hide Free;
    var e := LineEnd(text);
    FreePart(text, p, 0, e);
    assert text[0..e] == text[..e];
    LineFree(c, text[..e], p);
    PrefixedSplit(c, text, "");
    assert Prefixed(c, text) + "" == Prefixed(c, text);
    var first := [c] + text[..e] + "\n";
    if e < |text| {
      FreePart(text, p, e + 1, |text|);
      assert text[e + 1..|text|] == text[e + 1..];
      PrefixedFree(c, text[e + 1..], p);
      FreeAfterLine(first, Prefixed(c, text[e + 1..]), p);
    } else {
      assert Prefixed(c, text) == first;
    }
  }

  /** Behind its first line, a text starts lines where the rest does. */
  lemma LineStartBehind(line: string, rest: string, i: nat)
    requires '\n' !in line && i < |line + "\n" + rest| && LineStart(line + "\n" + rest, i)
    ensures i == 0 || (i > |line| && i - |line| - 1 < |rest| && LineStart(rest, i - |line| - 1) &&
                       (line + "\n" + rest)[i] == rest[i - |line| - 1])
  {
    var s := line + "\n" + rest;
    forall j: nat | j < |line| ensures s[j] != '\n' { assert s[j] == line[j] && line[j] in line; }
  }

  /** Each line of a prefixed text starts with the prefix. */
  lemma {:induction false} PrefixedStarts(c: char, text: string, i: nat)
    requires i < |Prefixed(c, text)| && LineStart(Prefixed(c, text), i) && c != '\n'
    ensures Prefixed(c, text)[i] == c
    decreases |text|
  {
    hide LineStart, Prefixed;
    var e := LineEnd(text);
    var first, rest := [c] + text[..e], MoreLines(c, text);
    PrefixedSplit(c, text, "");
    assert Prefixed(c, text) + "" == Prefixed(c, text) && rest + "" == rest;
    LineStartBehind(first, rest, i);
    assert Prefixed(c, text) == first + "\n" + rest;
    if i > 0 { PrefixedStarts(c, text[e + 1..], i - e - 2); }
  }

  // ---------------------------------------------------------------- one printed operation

  lemma BodyFacts(op: Operation)
    ensures PrintBody(op) != "" && PrintBody(op)[|PrintBody(op)| - 1] == '\n'
    ensures forall i: nat :: i < |PrintBody(op)| && LineStart(PrintBody(op), i) ==> PrintBody(op)[i] == '-' || PrintBody(op)[i] == '+'
  {
    hide Prefixed;
    var a, b := Prefixed('-', op.oldContent), Prefixed('+', op.newContent);
    PrefixedEnds('-', op.oldContent);
    PrefixedEnds('+', op.newContent);
    var s := PrintBody(op);
    forall i: nat | i < |s| && LineStart(s, i) ensures s[i] == '-' || s[i] == '+' {
      if i < |a| {
        assert LineStart(a, i);
        PrefixedStarts('-', op.oldContent, i);
      } else {
        assert LineStart(b, i - |a|);
        PrefixedStarts('+', op.newContent, i - |a|);
      }
    }
  }

  lemma {:induction false} ClosingSkips(s: string, i: nat, k: nat)
    requires i <= k <= |s|
    requires forall j :: i <= j < k ==> !(LineStart(s, j) && At(s, "@@", j))
    ensures Closing(s, i) == Closing(s, k)
    decreases k - i
  {
    if i < k { ClosingSkips(s, i + 1, k); }
  }

  /** The closing marker is found right behind the printed lines. */
  lemma ClosingFound(op: Operation)
    ensures Closing(PrintBody(op) + "@@\n", 0) == Some(|PrintBody(op)|)
  {
    hide PrintBody;
    BodyFacts(op);
    var body := PrintBody(op);
    var s := body + "@@\n";
    forall j: nat | j < |body| ensures !(LineStart(s, j) && At(s, "@@", j)) {
      if LineStart(s, j) {
        assert LineStart(body, j);
        assert s[j] != '@';
        if j + 2 <= |s| { assert s[j..j + 2][0] == s[j]; }
      }
    }
    ClosingSkips(s, 0, |body|);
    assert s[|body|..|body| + 2] == "@@";
  }

  lemma BodyGathers(op: Operation)
    ensures OperationOf(op.path, PrintBody(op)) == op
  {
    hide Gather, Prefixed;
    var b := Prefixed('+', op.newContent);
    assert b + "" == b;
    GatherPrefixed('-', '-', op.oldContent, b);
    GatherPrefixed('+', '-', op.newContent, "");
    GatherPrefixed('-', '+', op.oldContent, b);
    GatherPrefixed('+', '+', op.newContent, "");
    GatherEmpty('-');
    GatherEmpty('+');
    assert (op.oldContent + "\n")[..|op.oldContent|] == op.oldContent;
    assert (op.newContent + "\n")[..|op.newContent|] == op.newContent;
  }

  lemma TrimmedStays(path: string)
    requires path != "" && Trimmed(path)
    ensures Trim(path) == path
  {
  }

  lemma PathFound(path: string, rest: string)
    requires path != "" && Trimmed(path)
    ensures TrimLeft(" " + path + "\n" + rest) == path + "\n" + rest
  {
    var s := " " + path + "\n" + rest;
    assert s[1..] == path + "\n" + rest;
    assert s[1..][0] == path[0];
  }

  lemma HunkFound(rest: string)
    ensures Hunk("\n" + ("@@\n" + rest)) == Some(rest)
  {
    hide Find, LineEnd;
    var s := "\n" + ("@@\n" + rest);
    assert s[1..3] == "@@";
    assert s[0..2][0] == '\n';
    FindIs(s, "@@", 1);
    var t := s[3..];
    assert t == "" + "\n" + rest;
    FirstLine("", rest);
  }

  /** A printed operation is parsed back to itself. */
  lemma {:induction false} OperationRoundTrip(op: Operation)
    requires op.path != "" && Trimmed(op.path) && '\n' !in op.path
    ensures ParseOperation(UPDATE + PrintTail(op)) == Some(op)
  {
    hide UPDATE, PrintBody, Trimmed, TrimLeft, Trim, LineEnd, Closing, Hunk, Find, OperationOf;
    var body := PrintBody(op) + "@@\n";
    var block := UPDATE + PrintTail(op);
    assert block[..|UPDATE|] == UPDATE && block[|UPDATE|..] == PrintTail(op);
    assert block[0..|UPDATE|] == UPDATE;
    FindIs(block, UPDATE, 0);
    PathFound(op.path, "@@\n" + body);
    var afterMarker := op.path + "\n" + ("@@\n" + body);
    FirstLine(op.path, "@@\n" + body);
    assert afterMarker[|op.path|..] == "\n" + ("@@\n" + body);
    HunkFound(body);
    ClosingFound(op);
    assert body[..|PrintBody(op)|] == PrintBody(op);
    TrimmedStays(op.path);
    BodyGathers(op);
  }

  // ---------------------------------------------------------------- the printed document

  lemma FreeOfFirst(s: string, p: string)
    requires p != "" && p[0] !in s
    ensures Free(s, p)
  {
    forall i: nat ensures !At(s, p, i) {
      if i + |p| <= |s| { assert s[i..i + |p|][0] == s[i]; }
    }
  }

  lemma TailFree(op: Operation, p: string)
    requires '\n' !in p && p != "" && p[0] == '*'
    requires Free(op.path, p) && Free(op.oldContent, p) && Free(op.newContent, p)
    ensures Free(PrintTail(op), p) && PrintTail(op) != "" && PrintTail(op)[|PrintTail(op)| - 1] == '\n'
  {
    hide Free, Prefixed;
    var a, b := Prefixed('-', op.oldContent), Prefixed('+', op.newContent);
    LineFree(' ', op.path, p);
    assert [' '] == " ";
    FreeOfFirst("@@\n", p);
    PrefixedFree('-', op.oldContent, p);
    PrefixedFree('+', op.newContent, p);
    PrefixedEnds('-', op.oldContent);
    BodyFacts(op);
    FreeAfterLine(a, b, p);
    FreeAfterLine(PrintBody(op), "@@\n", p);
    FreeAfterLine("@@\n", PrintBody(op) + "@@\n", p);
    FreeAfterLine(" " + op.path + "\n", "@@\n" + (PrintBody(op) + "@@\n"), p);
  }

  lemma UpdateFreeOfEnd(t: string)
    requires Free(t, END)
    ensures Free(UPDATE + t, END)
  {
    hide UPDATE, END;
    var s := UPDATE + t;
    forall i: nat ensures !At(s, END, i) {
      if i < |UPDATE| {
        NoEndInUpdate(t, i);
      } else {
        assert t == s[|UPDATE|..|s|];
        if i + |END| <= |s| { assert s[i..i + |END|] == t[i - |UPDATE|..i - |UPDATE| + |END|]; }
        assert !At(t, END, i - |UPDATE|);
      }
    }
  }

  lemma {:induction false} OpsFreeOfEnd(ops: seq<Operation>)
    requires forall op :: op in ops ==> Printable(op)
    ensures Free(PrintOps(ops), END)
    ensures PrintOps(ops) != "" ==> PrintOps(ops)[|PrintOps(ops)| - 1] == '\n'
  {
    hide UPDATE, END, PrintTail, Free;
    MarkersAreLines();
    if ops == [] {
      FreeOfFirst("", END);
    } else {
      var tail, rest := PrintTail(ops[0]), PrintOps(ops[1..]);
      assert Printable(ops[0]);
      OpsFreeOfEnd(ops[1..]);
      TailFree(ops[0], END);
      FreeAfterLine(tail, rest, END);
      UpdateFreeOfEnd(tail + rest);
      var s := UPDATE + (tail + rest);
      assert s[|s| - 1] == if rest == "" then tail[|tail| - 1] else rest[|rest| - 1];
    }
  }

  function PrintedBlocks(ops: seq<Operation>): seq<string> {
    if ops == [] then [] else [UPDATE + PrintTail(ops[0])] + PrintedBlocks(ops[1..])
  }

  lemma MarkerInFront(t: string)
    ensures Find(UPDATE + t, UPDATE) == Some(0)
  {
    hide UPDATE;
    var s := UPDATE + t;
    assert s[0..|UPDATE|] == UPDATE;
    FindIs(s, UPDATE, 0);
  }

  lemma {:induction false} BlocksOfPrinted(ops: seq<Operation>)
    requires forall op :: op in ops ==> Printable(op)
    ensures Blocks(PrintOps(ops)) == PrintedBlocks(ops)
  {
    hide UPDATE, PrintTail, Free, Find, Blocks;
    MarkersAreLines();
    if ops == [] {
      NoBlocksInNothing();
    } else {
      var tail, rest := PrintTail(ops[0]), PrintOps(ops[1..]);
      var s := UPDATE + (tail + rest);
      assert Printable(ops[0]);
      BlocksOfPrinted(ops[1..]);
      TailFree(ops[0], UPDATE);
      MarkerInFront(tail + rest);
      CutParts(UPDATE, tail, rest);
      FindAfterLine(tail, rest, UPDATE);
      BlocksStep(s, 0, Find(tail + rest, UPDATE));
      var cut := |UPDATE| + |tail|;
      assert rest == "" ==> s[0..cut] == s[0..|s|];
      NextMarker(ops[1..]);
    }
  }

  lemma NextMarker(ops: seq<Operation>)
    ensures Find(PrintOps(ops), UPDATE) == if ops == [] then None else Some(0)
    ensures PrintOps(ops) == "" <==> ops == []
  {
    hide UPDATE, PrintTail;
    MarkersAreLines();
    if ops != [] { MarkerInFront(PrintTail(ops[0]) + PrintOps(ops[1..])); }
  }

  lemma {:induction false} ParsePrintedBlocks(ops: seq<Operation>)
    requires forall op :: op in ops ==> Printable(op)
    ensures ParseBlocks(PrintedBlocks(ops)) == Some(ops)
  {
    hide ParseOperation, UPDATE, PrintTail, Free;
    if ops != [] {
      assert Printable(ops[0]);
      OperationRoundTrip(ops[0]);
      ParsePrintedBlocks(ops[1..]);
      assert PrintedBlocks(ops)[1..] == PrintedBlocks(ops[1..]);
      assert [ops[0]] + ops[1..] == ops;
    }
  }

  lemma BlocksBehindNewline(s: string)
    ensures Blocks("\n" + s) == Blocks(s)
  {
    hide UPDATE, Find, Blocks, Free;
    MarkersAreLines();
    FreeOfFirst("\n", UPDATE);
    FindAfterLine("\n", s, UPDATE);
    NoMarkerNoBlocks(s);
    NoMarkerNoBlocks("\n" + s);
    match Find(s, UPDATE)
    case None =>
    case Some(k) =>
      var t := "\n" + s;
      assert t[1 + k + |UPDATE|..] == s[k + |UPDATE|..];
      var next := Find(s[k + |UPDATE|..], UPDATE);
      BlocksStep(s, k, next);
      BlocksStep(t, 1 + k, next);
      var end := if next.Some? then k + |UPDATE| + next.value else |s|;
      assert t[1 + k..1 + end] == s[k..end] && t[1 + end..] == s[end..];
  }

  lemma EndFound(inner: string)
    requires inner != "" && inner[|inner| - 1] == '\n' && Free(inner, END)
    ensures Find(inner + (END + "\n"), END) == Some(|inner|)
  {
    hide END, Free, Find;
    MarkersAreLines();
    assert (END + "\n")[0..|END|] == END;
    FindIs(END + "\n", END, 0);
    FindAfterLine(inner, END + "\n", END);
  }

  lemma ExtractPrinted(inner: string)
    requires inner != "" && inner[|inner| - 1] == '\n' && Free(inner, END)
    ensures ExtractBetween(BEGIN + (inner + (END + "\n")), BEGIN, END) == Some(inner)
    ensures Find(BEGIN + (inner + (END + "\n")), BEGIN).Some? && Find(BEGIN + (inner + (END + "\n")), END).Some?
  {
    hide BEGIN, END, Free, Find;
    var rest := inner + (END + "\n");
    var s := BEGIN + rest;
    assert s[0..|BEGIN|] == BEGIN && s[|BEGIN|..] == rest;
    FindIs(s, BEGIN, 0);
    EndFound(inner);
    assert rest[..|inner|] == inner;
    FindInSuffix(s, END, |BEGIN|);
  }

  lemma FindInSuffix(s: string, p: string, i: nat)
    requires i <= |s| && Find(s[i..], p).Some?
    ensures Find(s, p).Some?
  {
    hide Find;
    AtPart(s, p, i, |s|, Find(s[i..], p).value);
    assert s[i..|s|] == s[i..];
    FindMissesNothing(s, p, i + Find(s[i..], p).value);
  }

  /** Printing printable operations and parsing the document returns exactly them. */
  lemma {:induction false} PrintThenParse(ops: seq<Operation>)
    requires ops != [] && forall op :: op in ops ==> Printable(op)
    ensures Parse(Print(ops)) == Valid(ops)
  {
    hide BEGIN, END, UPDATE, Free, Find, Blocks, ParseBlocks, PrintOps, Printable, ExtractBetween;
    MarkersAreLines();
    var inner := "\n" + PrintOps(ops);
    OpsFreeOfEnd(ops);
    FreeOfFirst("\n", END);
    FreeAfterLine("\n", PrintOps(ops), END);
    ExtractPrinted(inner);
    NextMarker(ops);
    BlocksBehindNewline(PrintOps(ops));
    BlocksOfPrinted(ops);
    NoMarkerNoBlocks(PrintOps(ops));
    ParsePrintedBlocks(ops);
    MarkerInPrint(ops);
  }

  lemma MarkerInPrint(ops: seq<Operation>)
    requires ops != []
    ensures Find(Print(ops), UPDATE).Some?
  {
    hide BEGIN, END, UPDATE, Find, PrintTail;
    MarkersAreLines();
    var s := Print(ops);
    var at := |BEGIN| + 1;
    assert s[at..at + |UPDATE|] == UPDATE;
    FindMissesNothing(s, UPDATE, at);
  }
}
