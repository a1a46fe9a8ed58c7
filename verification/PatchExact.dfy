/** Whatever the patch parser returns is printable, so the round trip holds exactly for printable
    operations and printing gives every parsed document a normal form. */
module PatchExact {
  import opened Wrappers
  import opened Text
  import opened PatchParser
  import opened PatchRoundTrip

  lemma SuffixFree(s: string, p: string, i: nat)
    requires i <= |s| && Free(s, p)
    ensures Free(s[i..], p)
  {
    FreePart(s, p, i, |s|);
    assert s[i..|s|] == s[i..];
  }

  lemma FreeBeforeFind(s: string, p: string, k: nat)
    requires Find(s, p) == Some(k) && p != ""
    ensures k <= |s| && Free(s[..k], p)
  {
    forall i: nat ensures !At(s[..k], p, i) {
      AtPart(s, p, 0, k, i);
      assert s[0..k] == s[..k];
      if At(s, p, i) { FindMissesNothing(s, p, i); }
    }
  }

  lemma AfterLineFree(s: string, p: string)
    requires Free(s, p) && p != ""
    ensures Free(AfterLine(s), p)
  {
    var e := LineEnd(s);
    if e < |s| { SuffixFree(s, p, e + 1); } else { FreeOfFirst("", p); }
  }

  // ---------------------------------------------------------------- gathered lines

  lemma KeptFree(c: char, line: string, p: string)
    requires '\n' !in p && p != "" && Free(line, p)
    ensures Free(Kept(c, line), p)
    ensures Kept(c, line) != "" ==> Kept(c, line)[|Kept(c, line)| - 1] == '\n'
  {
    if line != "" && line[0] == c {
      var rest := line[1..];
      SuffixFree(line, p, 1);
      var s := rest + "\n";
      forall i: nat ensures !At(s, p, i) {
        if i + |p| <= |rest| {
          assert s[i..i + |p|] == rest[i..i + |p|];
          assert !At(rest, p, i);
        } else if i + |p| <= |s| {
          NewlineInside(s, p, i, |rest|);
        }
      }
    } else {
      FreeOfFirst("", p);
    }
  }

  lemma {:induction false} GatherFree(c: char, body: string, p: string)
    requires '\n' !in p && p != "" && Free(body, p)
    ensures Free(Gather(c, body), p)
    decreases |body|
  {
    hide Free, Kept;
    if body == "" {
      GatherEmpty(c);
    } else {
      var line := body[..LineEnd(body)];
      FreePart(body, p, 0, LineEnd(body));
      assert body[0..LineEnd(body)] == line;
      KeptFree(c, line, p);
      AfterLineFree(body, p);
      GatherFree(c, AfterLine(body), p);
      GatherStep(c, body);
      FreeAfterLine(Kept(c, line), Gather(c, AfterLine(body)), p);
    }
  }

  lemma DropFree(s: string, p: string)
    requires Free(s, p)
    ensures Free(DropFinalNewline(s), p)
  {
    if s != "" && s[|s| - 1] == '\n' {
      FreePart(s, p, 0, |s| - 1);
      assert s[0..|s| - 1] == s[..|s| - 1];
    }
  }

  // ---------------------------------------------------------------- one parsed operation

  lemma TrimFree(s: string, p: string)
    requires Free(s, p)
    ensures Free(Trim(s), p)
  {
    hide Free, Trim, TrimLeft, TrimRight;
    TrimLeftFree(s, p);
    TrimRightFree(TrimLeft(s), p);
    assert Trim(s) == TrimRight(TrimLeft(s)) by { TrimIs(s); }
  }

  lemma TrimIs(s: string)
    ensures Trim(s) == TrimRight(TrimLeft(s))
  {
  }

  lemma TrimLeftFree(s: string, p: string)
    requires Free(s, p)
    ensures Free(TrimLeft(s), p)
  {
    hide Free;
    TrimLeftFacts(s);
    SuffixFree(s, p, |s| - |TrimLeft(s)|);
  }

  lemma TrimRightFree(s: string, p: string)
    requires Free(s, p)
    ensures Free(TrimRight(s), p)
  {
    hide Free;
    TrimRightFacts(s);
    FreePart(s, p, 0, |TrimRight(s)|);
    assert s[0..|TrimRight(s)|] == TrimRight(s);
  }

  /** The path and the lines of an operation are parts of what follows the file marker. */
  lemma PartsFree(afterMarker: string, e: nat, hunk: string, c: nat, p: string)
    requires '\n' !in p && p != "" && Free(afterMarker, p)
    requires e <= |afterMarker| && Hunk(afterMarker[e..]) == Some(hunk) && c <= |hunk|
    ensures var op := OperationOf(Trim(afterMarker[..e]), hunk[..c]);
            Free(op.path, p) && Free(op.oldContent, p) && Free(op.newContent, p)
  {
    hide Free, Trim, Gather, DropFinalNewline, Find;
    FreePart(afterMarker, p, 0, e);
    assert afterMarker[0..e] == afterMarker[..e];
    TrimFree(afterMarker[..e], p);
    SuffixFree(afterMarker, p, e);
    var m := Find(afterMarker[e..], "@@").value;
    SuffixFree(afterMarker[e..], p, m + 2);
    AfterLineFree(afterMarker[e..][m + 2..], p);
    FreePart(hunk, p, 0, c);
    assert hunk[0..c] == hunk[..c];
    GatherFree('-', hunk[..c], p);
    GatherFree('+', hunk[..c], p);
    DropFree(Gather('-', hunk[..c]), p);
    DropFree(Gather('+', hunk[..c]), p);
  }

  lemma PathShape(afterMarker: string)
    requires afterMarker != "" && !IsSpace(afterMarker[0])
    ensures var path := Trim(afterMarker[..LineEnd(afterMarker)]);
            path != "" && Trimmed(path) && '\n' !in path
  {
    hide Trim, TrimLeft, TrimRight;
    var line := afterMarker[..LineEnd(afterMarker)];
    assert line != "" && line[0] == afterMarker[0];
    TrimFacts(line);
    TrimLeftFacts(line);
    TrimRightFacts(TrimLeft(line));
    TrimIs(line);
    forall i | 0 <= i < |Trim(line)| ensures Trim(line)[i] in line {
      assert Trim(line)[i] == TrimLeft(line)[i];
      assert TrimLeft(line)[i] == line[|line| - |TrimLeft(line)| + i];
    }
  }

  /** What stands in a block: one file marker at its start, and no end marker behind it. */
  ghost predicate BlockShape(b: string) {
    |UPDATE| <= |b| && b[..|UPDATE|] == UPDATE && FreeOfMarkers(b[|UPDATE|..])
  }

  lemma ParsedIsPrintable(block: string, op: Operation)
    requires BlockShape(block) && ParseOperation(block) == Some(op)
    ensures Printable(op)
  {
    hide UPDATE, END, Free, Trim, TrimLeft, LineEnd, Hunk, Closing, OperationOf, Trimmed, Find;
    MarkersAreLines();
    var tail := block[|UPDATE|..];
    assert block == UPDATE + tail;
    MarkerInFront(tail);
    var afterMarker := TrimLeft(tail);
    TrimLeftFacts(tail);
    var e := LineEnd(afterMarker);
    var hunk := Hunk(afterMarker[e..]).value;
    var c := Closing(hunk, 0).value;
    TrimLeftFree(tail, END);
    TrimLeftFree(tail, UPDATE);
    PartsFree(afterMarker, e, hunk, c, END);
    PartsFree(afterMarker, e, hunk, c, UPDATE);
    PathShape(afterMarker);
    OperationPath(Trim(afterMarker[..e]), hunk[..c]);
  }

  lemma OperationPath(path: string, body: string)
    ensures OperationOf(path, body).path == path
  {
  }

  // ---------------------------------------------------------------- every block has that shape

  lemma {:induction false} BlocksHaveShape(s: string)
    requires Free(s, END)
    ensures forall b :: b in Blocks(s) ==> BlockShape(b)
    decreases |s|
  {
    hide UPDATE, END, Free, Find, Blocks, BlockShape;
    MarkersAreLines();
    NoMarkerNoBlocks(s);
    match Find(s, UPDATE)
    case None =>
    case Some(k) =>
      var rest := s[k + |UPDATE|..];
      var next := Find(rest, UPDATE);
      BlocksStep(s, k, next);
      var end := if next.Some? then k + |UPDATE| + next.value else |s|;
      OneBlockHasShape(s, k, end);
      SuffixFree(s, END, end);
      BlocksHaveShape(s[end..]);
  }

  lemma OneBlockHasShape(s: string, k: nat, end: nat)
    requires Free(s, END) && Find(s, UPDATE) == Some(k)
    requires var next := Find(s[k + |UPDATE|..], UPDATE);
             end == if next.Some? then k + |UPDATE| + next.value else |s|
    ensures end <= |s| && BlockShape(s[k..end])
  {
    hide UPDATE, END, Free, Find;
    MarkersAreLines();
    var rest := s[k + |UPDATE|..];
    var next := Find(rest, UPDATE);
    var n := end - k - |UPDATE|;
    if next.Some? {
      FreeBeforeFind(rest, UPDATE, n);
    } else {
      FindNone(rest, UPDATE);
      assert rest[..n] == rest;
    }
    SuffixFree(s, END, k + |UPDATE|);
    FreePart(rest, END, 0, n);
    assert rest[0..n] == rest[..n];
    var b := s[k..end];
    assert b[|UPDATE|..] == rest[..n];
    assert b[..|UPDATE|] == s[k..k + |UPDATE|];
  }

  lemma {:induction false} ParsedBlocksPrintable(blocks: seq<string>, ops: seq<Operation>)
    requires forall b :: b in blocks ==> BlockShape(b)
    requires ParseBlocks(blocks) == Some(ops)
    ensures |ops| == |blocks| && forall op :: op in ops ==> Printable(op)
  {
    hide BlockShape, ParseOperation, Printable;
    if blocks != [] {
      assert blocks[0] in blocks;
      ParsedIsPrintable(blocks[0], ops[0]);
      ParsedBlocksPrintable(blocks[1..], ops[1..]);
    }
  }

  /** Every operation that the parser returns, from whatever document, is printable. */
  lemma {:induction false} ParseGivesPrintable(content: string, ops: seq<Operation>)
    requires Parse(content) == Valid(ops)
    ensures ops != [] && forall op :: op in ops ==> Printable(op)
  {
    hide BEGIN, END, UPDATE, Find, Blocks, ParseBlocks, Printable, Free;
    MarkersAreLines();
    var rest := content[Find(content, BEGIN).value + |BEGIN|..];
    var e := Find(rest, END).value;
    FreeBeforeFind(rest, END, e);
    BlocksHaveShape(rest[..e]);
    ParsedBlocksPrintable(Blocks(rest[..e]), ops);
  }

  /** The round trip, exactly: printing and parsing gives the operations back if and only if
      there is one and all are printable. */
  lemma {:induction false} RoundTripExactly(ops: seq<Operation>)
    ensures Parse(Print(ops)) == Valid(ops) <==> ops != [] && forall op :: op in ops ==> Printable(op)
  {
    hide Print, Parse, Printable;
    if ops != [] && forall op :: op in ops ==> Printable(op) { PrintThenParse(ops); }
    if Parse(Print(ops)) == Valid(ops) { ParseGivesPrintable(Print(ops), ops); }
  }

  /** Printing a parsed document again loses nothing. */
  lemma {:induction false} ReprintKeepsMeaning(content: string)
    requires Parse(content).Valid?
    ensures Parse(Print(Parse(content).operations)) == Parse(content)
  {
    hide Print, Parse, Printable;
    ParseGivesPrintable(content, Parse(content).operations);
    PrintThenParse(Parse(content).operations);
  }
}
