/** The grammar of whole patch documents, on top of that of their blocks. */
module PatchDocuments {
  import opened Wrappers
  import opened Text
  import opened PatchParser
  import opened PatchRoundTrip
  import opened PatchGrammar

  // ---------------------------------------------------------------- cutting at the file markers

  ghost predicate NoMarkerFrom(s: string, from: nat, to: nat) { forall i: nat :: from <= i < to ==> !At(s, UPDATE, i) }

  /** The text is these blocks, each of which starts with a file marker and reaches to the next. */
  ghost predicate AreBlocks(s: string, blocks: seq<string>)
    decreases |blocks|
  {
    if blocks == [] then s == ""
    else
      && blocks[0] != "" && blocks[0] <= s
      && At(s, UPDATE, 0) && NoMarkerFrom(s, 1, |blocks[0]|)
      && AreBlocks(s[|blocks[0]|..], blocks[1..])
  }

  /** Nothing is a marker up to the blocks. */
  ghost predicate CutsInto(s: string, junk: string, blocks: seq<string>) {
    junk <= s && NoMarkerFrom(s, 0, |junk|) && AreBlocks(s[|junk|..], blocks)
  }

  lemma MarkersDoNotOverlap(s: string, k: nat, i: nat)
    requires At(s, UPDATE, k) && At(s, UPDATE, i) && k < i
    ensures k + |UPDATE| <= i <= i + |UPDATE| <= |s|
  {
    MarkersAreLines();
    var a, b := s[k..k + |UPDATE|], s[i..i + |UPDATE|];
    if i < k + |UPDATE| {
      var d := i - k;
      assert a[d] == s[i] && b[0] == s[i];
      assert a[3] == s[k + 3] && (d < 3 ==> b[3 - d] == s[k + 3]);
      MarkerChars(d);
    }
  }

  lemma MarkerChars(d: nat)
    ensures 0 < d < 3 ==> UPDATE[3] != UPDATE[3 - d]
    ensures 3 <= d < |UPDATE| ==> UPDATE[d] != UPDATE[0]
  {
  }

  lemma AtBehind(s: string, from: nat, i: nat)
    requires from <= |s|
    ensures At(s[from..], UPDATE, i) <==> At(s, UPDATE, from + i)
  {
    hide UPDATE;
    if from + i + |UPDATE| <= |s| { assert s[from..][i..i + |UPDATE|] == s[from + i..from + i + |UPDATE|]; }
  }

  /** The search for the next marker, when none is met before it. */
  lemma NextIs(s: string, from: nat, to: nat)
    requires from <= to <= |s| && NoMarkerFrom(s, from, to) && (to < |s| ==> At(s, UPDATE, to))
    ensures Find(s[from..], UPDATE) == if to < |s| then Some(to - from) else None
  {
    hide UPDATE, Find, At;
    var rest := s[from..];
    forall i: nat | i < to - from ensures !At(rest, UPDATE, i) { AtBehind(s, from, i); }
    if to < |s| {
      AtBehind(s, from, to - from);
      FindIs(rest, UPDATE, to - from);
    } else {
      forall i: nat ensures !At(rest, UPDATE, i) { if i >= |rest| { NotAtEnd(rest, i); } }
      FindNone(rest, UPDATE);
    }
  }

  lemma NotAtEnd(s: string, i: nat)
    requires i >= |s|
    ensures !At(s, UPDATE, i)
  {
  }

  lemma FirstOfBlocks(s: string, blocks: seq<string>)
    requires AreBlocks(s, blocks)
    ensures s != "" <==> blocks != []
    ensures s != "" ==> At(s, UPDATE, 0)
  {
    hide UPDATE, At;
  }

  lemma {:induction false} BlocksAre(s: string, blocks: seq<string>)
    requires AreBlocks(s, blocks)
    ensures Blocks(s) == blocks
    decreases |blocks|
  {
    hide UPDATE, Find, Blocks, At;
    if blocks == [] {
      NoBlocksInNothing();
    } else {
      var n := |blocks[0]|;
      var rest := s[n..];
      FirstOfBlocks(rest, blocks[1..]);
      AtBehind(s, n, 0);
      assert s[0..] == s;
      FindIs(s, UPDATE, 0);
      FoundWithin(s, UPDATE);
      if n < |s| { MarkersDoNotOverlap(s, 0, n); } else { MarkerIsLong(s, n); }
      MarkersAreLines();
      NextIs(s, |UPDATE|, n);
      BlocksStep(s, 0, Find(s[|UPDATE|..], UPDATE));
      BlocksAre(rest, blocks[1..]);
      assert s[0..n] == blocks[0] && blocks == [blocks[0]] + blocks[1..];
    }
  }

  lemma MarkerIsLong(s: string, n: nat)
    requires At(s, UPDATE, 0) && n >= |s|
    ensures |UPDATE| <= |s| && |UPDATE| <= n
  {
    hide UPDATE;
  }

  lemma {:induction false} AreTheBlocks(s: string)
    requires s == "" || At(s, UPDATE, 0)
    ensures AreBlocks(s, Blocks(s))
    decreases |s|
  {
    hide UPDATE, Find, Blocks, At, AreBlocks;
    if s == "" {
      NoBlocksInNothing();
      assert AreBlocks("", []) by { NothingIsNoBlocks(); }
    } else {
      FindIs(s, UPDATE, 0);
      FoundWithin(s, UPDATE);
      MarkersAreLines();
      var next := Find(s[|UPDATE|..], UPDATE);
      BlocksStep(s, 0, next);
      FoundInside(s, 0, next);
      var end := if next.Some? then |UPDATE| + next.value else |s|;
      NothingUpTo(s, 0, next);
      AreTheBlocks(s[end..]);
      PrependBlock(s, end, Blocks(s[end..]));
    }
  }

  lemma NothingIsNoBlocks()
    ensures AreBlocks("", [])
  {
  }

  lemma PrependBlock(s: string, end: nat, rest: seq<string>)
    requires 0 < end <= |s| && At(s, UPDATE, 0) && NoMarkerFrom(s, 1, end) && AreBlocks(s[end..], rest)
    ensures AreBlocks(s, [s[0..end]] + rest)
  {
    hide UPDATE, At, NoMarkerFrom;
    var blocks := [s[0..end]] + rest;
    assert blocks[1..] == rest && |blocks[0]| == end;
  }

  /** Between a marker and the next there is none. */
  lemma NothingUpTo(s: string, k: nat, next: Option<nat>)
    requires At(s, UPDATE, k) && k + |UPDATE| <= |s| && next == Find(s[k + |UPDATE|..], UPDATE)
    ensures var end := if next.Some? then k + |UPDATE| + next.value else |s|;
            NoMarkerFrom(s, k + 1, end) && (next.Some? ==> At(s, UPDATE, end)) && (end < |s| ==> next.Some?)
            && (end <= |s| ==> s[end..] == "" || At(s[end..], UPDATE, 0))
  {
    hide UPDATE, Find, At;
    var from := k + |UPDATE|;
    var end := if next.Some? then from + next.value else |s|;
    forall i: nat | k + 1 <= i < end ensures !At(s, UPDATE, i) {
      if At(s, UPDATE, i) {
        MarkersDoNotOverlap(s, k, i);
        AtBehind(s, from, i - from);
        FindMissesNothing(s[from..], UPDATE, i - from);
      }
    }
    if next.Some? {
      AtBehind(s, from, next.value);
      if end <= |s| { AtBehind(s, end, 0); }
    }
  }

  /** The parser's blocks are the one way to cut a text at its file markers. */
  lemma {:induction false} BlocksAreCuts(s: string, blocks: seq<string>)
    ensures Blocks(s) == blocks <==> exists junk :: CutsInto(s, junk, blocks)
  {
    hide UPDATE, Find, Blocks, At, AreBlocks;
    if Blocks(s) == blocks { var junk := JunkOf(s); }
    if junk :| CutsInto(s, junk, blocks) { BlocksBehindJunk(s, junk, blocks); }
  }

  lemma JunkOf(s: string) returns (junk: string)
    ensures CutsInto(s, junk, Blocks(s))
  {
    hide UPDATE, Find, Blocks, At, AreBlocks;
    NoMarkerNoBlocks(s);
    FindNone(s, UPDATE);
    match Find(s, UPDATE)
    case None =>
      junk := s;
      assert s[|s|..] == "";
      NothingIsNoBlocks();
    case Some(k) =>
      FoundWithin(s, UPDATE);
      junk := s[..k];
      forall i: nat | i < k ensures !At(s, UPDATE, i) { if At(s, UPDATE, i) { FindMissesNothing(s, UPDATE, i); } }
      AtBehind(s, k, 0);
      AreTheBlocks(s[k..]);
      SkipJunk(s, k);
  }

  /** What precedes the first marker does not matter. */
  lemma SkipJunk(s: string, k: nat)
    requires Find(s, UPDATE) == Some(k) && k <= |s|
    ensures Blocks(s) == Blocks(s[k..])
  {
    hide UPDATE, Find, Blocks, At;
    var t := s[k..];
    AtBehind(s, k, 0);
    FindIs(t, UPDATE, 0);
    FoundWithin(s, UPDATE);
    SuffixOfSuffix(s, k, |UPDATE|);
    var next := Find(s[k + |UPDATE|..], UPDATE);
    BlocksStep(s, k, next);
    BlocksStep(t, 0, next);
    var end := if next.Some? then k + |UPDATE| + next.value else |s|;
    assert t[0..end - k] == s[k..end] && t[end - k..] == s[end..];
  }

  lemma BlocksBehindJunk(s: string, junk: string, blocks: seq<string>)
    requires CutsInto(s, junk, blocks)
    ensures Blocks(s) == blocks
  {
    hide UPDATE, Find, Blocks, At, AreBlocks;
    var k := |junk|;
    FirstOfBlocks(s[k..], blocks);
    AtBehind(s, k, 0);
    BlocksAre(s[k..], blocks);
    NextIs(s, 0, k);
    assert s[0..] == s;
    if k < |s| { SkipJunk(s, k); } else { NoMarkerNoBlocks(s); }
  }

  // ---------------------------------------------------------------- the document

  /** `inner` stands between the first start marker and the first end marker behind it. */
  ghost predicate Framed(content: string, before: string, inner: string, after: string) {
    && content == before + (BEGIN + (inner + (END + after)))
    && (forall i: nat :: i < |before| ==> !At(content, BEGIN, i))
    && (forall i: nat :: i < |inner| ==> !At(inner + (END + after), END, i))
  }

  ghost predicate Encloses(content: string, inner: string) { exists before, after :: Framed(content, before, inner, after) }

  function BlockTexts(parts: seq<Parts>): seq<string> { seq(|parts|, i requires 0 <= i < |parts| => BlockText(parts[i])) }

  function Meanings(parts: seq<Parts>): seq<Operation> { seq(|parts|, i requires 0 <= i < |parts| => Meaning(parts[i])) }

  /** The document's operations, spelled out. */
  ghost predicate Spells(content: string, inner: string, junk: string, parts: seq<Parts>) {
    && Encloses(content, inner)
    && parts != [] && (forall p :: p in parts ==> WellFormed(p))
    && CutsInto(inner, junk, BlockTexts(parts))
  }

  lemma FramedIsExtracted(content: string, before: string, inner: string, after: string)
    requires Framed(content, before, inner, after)
    ensures ExtractBetween(content, BEGIN, END) == Some(inner)
    ensures Find(content, BEGIN).Some? && Find(content, END).Some?
    ensures Find(inner, UPDATE).Some? ==> Find(content, UPDATE).Some?
  {
    hide BEGIN, END, UPDATE, Find, At;
    var k := |before|;
    var rest := inner + (END + after);
    MiddleStands(before, BEGIN, rest);
    CutParts(before, BEGIN, rest);
    FindIs(content, BEGIN, k);
    MiddleStands(inner, END, after);
    FindIs(rest, END, |inner|);
    FindInSuffix(content, END, k + |BEGIN|);
    assert inner <= rest;
    if Find(inner, UPDATE).Some? {
      FoundInLonger(inner, rest, UPDATE);
      FindInSuffix(content, UPDATE, k + |BEGIN|);
    }
  }

  lemma FoundInLonger(s: string, t: string, p: string)
    requires s <= t && Find(s, p).Some?
    ensures Find(t, p).Some?
  {
    hide Find;
    var i := Find(s, p).value;
    assert t[i..i + |p|] == s[i..i + |p|];
    FindMissesNothing(t, p, i);
  }

  lemma ExtractedIsFramed(content: string, inner: string)
    requires ExtractBetween(content, BEGIN, END) == Some(inner)
    ensures Encloses(content, inner)
  {
    hide BEGIN, END, Find;
    var k := Find(content, BEGIN).value;
    FoundWithin(content, BEGIN);
    var before, rest := content[..k], content[k + |BEGIN|..];
    var e := Find(rest, END).value;
    FoundWithin(rest, END);
    var after := rest[e + |END|..];
    CutAround(rest, END, e);
    CutAround(content, BEGIN, k);
    forall i: nat | i < k ensures !At(content, BEGIN, i) { if At(content, BEGIN, i) { FindMissesNothing(content, BEGIN, i); } }
    forall i: nat | i < e ensures !At(rest, END, i) { if At(rest, END, i) { FindMissesNothing(rest, END, i); } }
    assert Framed(content, before, inner, after);
  }

  lemma {:induction false} ParseBlocksExactly(blocks: seq<string>, ops: seq<Operation>)
    ensures ParseBlocks(blocks) == Some(ops) <==>
            |ops| == |blocks| && forall j :: 0 <= j < |blocks| ==> ParseOperation(blocks[j]) == Some(ops[j])
  {
    hide ParseOperation;
    if blocks != [] {
      if ops == [] { ParseSome(blocks); } else {
        ParseBlocksExactly(blocks[1..], ops[1..]);
        assert [ops[0]] + ops[1..] == ops;
      }
    }
  }

  lemma ParseSome(blocks: seq<string>)
    requires blocks != []
    ensures ParseBlocks(blocks) != Some([])
  {
    hide ParseOperation;
  }

  lemma SpelledIsParsed(content: string, inner: string, junk: string, parts: seq<Parts>)
    requires Spells(content, inner, junk, parts)
    ensures Parse(content) == Valid(Meanings(parts))
  {
    hide BEGIN, END, UPDATE, Find, Blocks, ParseBlocks, ParseOperation, WellFormed, BlockText, Meaning, CutsInto, Framed, ExtractBetween;
    var before, after :| Framed(content, before, inner, after);
    FramedIsExtracted(content, before, inner, after);
    BlocksAreCuts(inner, BlockTexts(parts));
    NoMarkerNoBlocks(inner);
    forall j | 0 <= j < |parts| ensures ParseOperation(BlockTexts(parts)[j]) == Some(Meanings(parts)[j]) {
      assert parts[j] in parts;
      WellFormedParses(parts[j]);
    }
    ParseBlocksExactly(BlockTexts(parts), Meanings(parts));
  }

  lemma ParsedIsSpelled(content: string, ops: seq<Operation>) returns (inner: string, junk: string, parts: seq<Parts>)
    requires Parse(content) == Valid(ops)
    ensures Spells(content, inner, junk, parts) && ops == Meanings(parts)
  {
    hide BEGIN, END, UPDATE, Find, Blocks, ParseBlocks, ParseOperation, WellFormed, BlockText, Meaning, CutsInto, Framed, ExtractBetween;
    inner := ExtractBetween(content, BEGIN, END).value;
    ExtractedIsFramed(content, inner);
    var blocks := Blocks(inner);
    BlocksAreCuts(inner, blocks);
    junk :| CutsInto(inner, junk, blocks);
    ParseBlocksExactly(blocks, ops);
    parts := PartsOf(blocks, ops);
    assert BlockTexts(parts) == blocks;
  }

  lemma {:induction false} PartsOf(blocks: seq<string>, ops: seq<Operation>) returns (parts: seq<Parts>)
    requires |ops| == |blocks| && forall j :: 0 <= j < |blocks| ==> ParseOperation(blocks[j]) == Some(ops[j])
    ensures |parts| == |blocks| && forall j :: 0 <= j < |parts| ==> blocks[j] == BlockText(parts[j])
    ensures ops == Meanings(parts) && forall p :: p in parts ==> WellFormed(p)
  {
    hide ParseOperation, WellFormed, BlockText, Meaning;
    if blocks == [] {
      parts := [];
    } else {
      var n := |blocks| - 1;
      var front := PartsOf(blocks[..n], ops[..n]);
      assert ParseOperation(blocks[n]) == Some(ops[n]);
      var last := AcceptedIsWellFormed(blocks[n], ops[n]);
      parts := front + [last];
      forall j | 0 <= j < |parts| ensures blocks[j] == BlockText(parts[j]) && ops[j] == Meaning(parts[j]) {
        if j < n { assert blocks[..n][j] == BlockText(front[j]) && ops[..n][j] == Meanings(front)[j]; }
      }
    }
  }

  /** The grammar of documents: a document is accepted with these operations if and only if it spells
      them out, between the first start marker and the end marker behind it, in well-formed blocks
      that reach from file marker to file marker. */
  lemma {:induction false} DocumentGrammar(content: string, ops: seq<Operation>)
    ensures Parse(content) == Valid(ops) <==>
            exists inner, junk, parts :: Spells(content, inner, junk, parts) && ops == Meanings(parts)
  {
    hide Parse, Spells, Meanings;
    if Parse(content) == Valid(ops) { var inner, junk, parts := ParsedIsSpelled(content, ops); }
    if inner, junk, parts :| Spells(content, inner, junk, parts) && ops == Meanings(parts) {
      SpelledIsParsed(content, inner, junk, parts);
    }
  }

  /** Which error a rejected document gets. */
  lemma {:induction false} RejectionsExplained(content: string)
    ensures Free(content, BEGIN) || Free(content, END) || Free(content, UPDATE) ==> Parse(content) == Invalid("Not a valid patch format")
    ensures !Free(content, BEGIN) && !Free(content, END) && !Free(content, UPDATE) && !(exists inner :: Encloses(content, inner)) ==>
              Parse(content) == Invalid("Failed to extract patch content")
    ensures !Free(content, UPDATE) && (exists inner :: Encloses(content, inner) && Free(inner, UPDATE)) ==>
              Parse(content) == Invalid("No file operations found in patch")
    ensures (exists inner :: Encloses(content, inner) && !Free(inner, UPDATE)) && Parse(content).Invalid? ==>
              Parse(content) == Invalid("Failed to parse operation")
  {
    hide BEGIN, END, UPDATE, Find, Blocks, ParseBlocks, Free, Framed, ExtractBetween;
    FindNone(content, BEGIN);
    FindNone(content, END);
    FindNone(content, UPDATE);
    if ExtractBetween(content, BEGIN, END).Some? { ExtractedIsFramed(content, ExtractBetween(content, BEGIN, END).value); }
    forall inner | Encloses(content, inner)
      ensures ExtractBetween(content, BEGIN, END) == Some(inner) && !Free(content, BEGIN) && !Free(content, END)
      ensures Free(content, UPDATE) ==> Free(inner, UPDATE)
      ensures Free(inner, UPDATE) <==> Blocks(inner) == []
    {
      var before, after :| Framed(content, before, inner, after);
      FramedIsExtracted(content, before, inner, after);
      FindNone(inner, UPDATE);
      NoMarkerNoBlocks(inner);
    }
  }
}
