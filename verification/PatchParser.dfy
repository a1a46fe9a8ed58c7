/** Parsing and applying "Begin Patch" documents. */
module PatchParser {
  import opened Wrappers
  import opened Text

  const BEGIN := "*** Begin Patch"
  const END := "*** End Patch"
  const UPDATE := "*** Update File:"

  datatype Operation = Operation(path: string, oldContent: string, newContent: string)

  datatype ParsedPatch = Valid(operations: seq<Operation>) | Invalid(error: string)

  predicate IsPatchFormat(content: string) {
    Find(content, BEGIN).Some? && Find(content, END).Some? && Find(content, UPDATE).Some?
  }

  /** The text between the first start marker and the first end marker behind it. */
  function ExtractBetween(s: string, start: string, end: string): Option<string> {
    match Find(s, start)
    case None => None
    case Some(k) =>
      var rest := s[k + |start|..];
      match Find(rest, end)
      case None => None
      case Some(e) => Some(rest[..e])
  }

  // ---------------------------------------------------------------- one operation

  /** What follows the current line. */
  function AfterLine(s: string): string {
    var e := LineEnd(s);
    if e < |s| then s[e + 1..] else ""
  }

  predicate LineStart(s: string, i: nat)
    requires i <= |s|
  {
    i == 0 || s[i - 1] == '\n'
  }

  /** The first line start from i on at which the line begins with @@. */
  function Closing(s: string, i: nat): (r: Option<nat>)
    requires i <= |s|
    ensures r.Some? ==> i <= r.value < |s| && LineStart(s, r.value) && At(s, "@@", r.value)
    decreases |s| - i
  {
    if i == |s| then None
    else if LineStart(s, i) && At(s, "@@", i) then Some(i)
    else Closing(s, i + 1)
  }

  /** The lines that begin with `c`, without it, each ended by a newline. */
  function Gather(c: char, body: string): string
    decreases |body|
  {
    if body == "" then ""
    else
      Kept(c, body[..LineEnd(body)]) + Gather(c, AfterLine(body))
  }

  function Kept(c: char, line: string): string { if line != "" && line[0] == c then line[1..] + "\n" else "" }

  function DropFinalNewline(s: string): string {
    if s != "" && s[|s| - 1] == '\n' then s[..|s| - 1] else s
  }

  function OperationOf(path: string, body: string): Operation {
    Operation(path, DropFinalNewline(Gather('-', body)), DropFinalNewline(Gather('+', body)))
  }

  /** What follows the line with the opening @@, looked for from s on. */
  function Hunk(s: string): Option<string> {
    match Find(s, "@@")
    case None => None
    case Some(m) => Some(AfterLine(s[m + 2..]))
  }

  function ParseOperation(block: string): Option<Operation> {
    match Find(block, UPDATE)
    case None => None
    case Some(k) =>
      var afterMarker := TrimLeft(block[k + |UPDATE|..]);
      var e := LineEnd(afterMarker);
      if e == |afterMarker| then None
      else
        match Hunk(afterMarker[e..])
        case None => None
        case Some(hunk) =>
          match Closing(hunk, 0)
          case None => None
          case Some(c) => Some(OperationOf(Trim(afterMarker[..e]), hunk[..c]))
  }

  // ---------------------------------------------------------------- the whole document

  /** The blocks of the document: from each file marker up to the next. */
  function Blocks(s: string): seq<string>
    decreases |s|
  {
    match Find(s, UPDATE)
    case None => []
    case Some(k) =>
      var rest := s[k + |UPDATE|..];
      match Find(rest, UPDATE)
      case None => [s[k..]]
      case Some(j) => [s[k..k + |UPDATE| + j]] + Blocks(rest[j..])
  }

  function ParseBlocks(blocks: seq<string>): Option<seq<Operation>> {
    if blocks == [] then Some([])
    else
      match ParseOperation(blocks[0])
      case None => None
      case Some(op) =>
        match ParseBlocks(blocks[1..])
        case None => None
        case Some(ops) => Some([op] + ops)
  }

  function Parse(content: string): ParsedPatch {
    if !IsPatchFormat(content) then Invalid("Not a valid patch format")
    else
      match ExtractBetween(content, BEGIN, END)
      case None => Invalid("Failed to extract patch content")
      case Some(inner) =>
        var blocks := Blocks(inner);
        if blocks == [] then Invalid("No file operations found in patch")
        else
          match ParseBlocks(blocks)
          case None => Invalid("Failed to parse operation")
          case Some(ops) => Valid(ops)
  }

  // ---------------------------------------------------------------- the loops

  /** The search for the closing marker, character by character. */
  method FindClosing(s: string) returns (r: Option<nat>)
    ensures r == Closing(s, 0)
  {
    var i := 0;
    while i < |s|
      invariant i <= |s| && Closing(s, 0) == Closing(s, i)
    {
      if (i == 0 || s[i - 1] == '\n') && i + 2 <= |s| && s[i..i + 2] == "@@" { return Some(i); }
      i := i + 1;
    }
    r := None;
  }

  /** The loop over the lines between the markers. */
  method CollectLines(body: string) returns (oldBuf: string, newBuf: string)
    ensures oldBuf == Gather('-', body) && newBuf == Gather('+', body)
  {
    hide Kept, Gather, LineEnd;
    GatherEmpty('-');
    GatherEmpty('+');
    oldBuf, newBuf := "", "";
    var rest := body;
    while rest != ""
      invariant oldBuf + Gather('-', rest) == Gather('-', body)
      invariant newBuf + Gather('+', rest) == Gather('+', body)
      decreases |rest|
    {
      GatherStep('-', rest);
      GatherStep('+', rest);
      var e := ScanLine(rest);
      oldBuf, newBuf := AddLine(oldBuf, newBuf, rest[..e]);
      rest := if e < |rest| then rest[e + 1..] else "";
    }
  }

  lemma GatherStep(c: char, body: string)
    requires body != ""
    ensures Gather(c, body) == Kept(c, body[..LineEnd(body)]) + Gather(c, AfterLine(body))
  {
  }

  lemma GatherEmpty(c: char)
    ensures Gather(c, "") == ""
  {
  }

  method AddLine(oldBuf: string, newBuf: string, line: string) returns (o: string, n: string)
    ensures o == oldBuf + Kept('-', line) && n == newBuf + Kept('+', line)
  {
    o, n := oldBuf, newBuf;
    if line != "" {
      if line[0] == '-' {
        o := o + line[1..] + "\n";
      } else if line[0] == '+' {
        n := n + line[1..] + "\n";
      }
    }
  }

  /** parse_operation. */
  method ParseOneOperation(block: string) returns (r: Option<Operation>)
    ensures r == ParseOperation(block)
  {
    hide Gather, Closing, UPDATE, LineEnd, TrimLeft, Trim, Hunk, DropFinalNewline, Find;
    var k := Find(block, UPDATE);
    if k.None? { return None; }
    var afterMarker := SkipSpaces(block[k.value + |UPDATE|..]);
    var e := ScanLine(afterMarker);
    if e == |afterMarker| { return None; }
    var path := TrimWhitespace(afterMarker[..e]);
    var hunk := FindHunk(afterMarker[e..]);
    if hunk.None? { return None; }
    var c := FindClosing(hunk.value);
    if c.None? { return None; }
    var oldBuf, newBuf := CollectLines(hunk.value[..c.value]);
    r := Some(Operation(path, DropFinalNewline(oldBuf), DropFinalNewline(newBuf)));
  }

  method FindHunk(s: string) returns (r: Option<string>)
    ensures r == Hunk(s)
  {
    var m := Find(s, "@@");
    if m.None? { return None; }
    var opening := s[m.value + 2..];
    var f := ScanLine(opening);
    r := Some(if f < |opening| then opening[f + 1..] else "");
  }

  function CountMarkers(s: string): nat
    decreases |s|
  {
    match Find(s, UPDATE)
    case None => 0
    case Some(k) => 1 + CountMarkers(s[k + |UPDATE|..])
  }

  lemma MarkerLengths()
    ensures |BEGIN| == 15 && |END| == 13 && |UPDATE| == 16
  {
  }

  lemma {:induction false} OneBlockPerMarker(s: string)
    ensures |Blocks(s)| == CountMarkers(s)
    decreases |s|
  {
    hide UPDATE;
    assert |UPDATE| == 16 by { MarkerLengths(); }
    match Find(s, UPDATE)
    case None =>
    case Some(k) =>
      var rest := s[k + |UPDATE|..];
      match Find(rest, UPDATE)
      case None =>
      case Some(j) =>
        OneBlockPerMarker(rest[j..]);
        CountFromMarker(rest, j);
  }

  lemma CountFromMarker(s: string, j: nat)
    requires Find(s, UPDATE) == Some(j)
    ensures CountMarkers(s[j..]) == CountMarkers(s)
  {
    hide UPDATE;
    assert |UPDATE| == 16 by { MarkerLengths(); }
    assert At(s[j..], UPDATE, 0);
    assert s[j..][|UPDATE|..] == s[j + |UPDATE|..];
  }

  /** parse_patch_format: count the markers, then parse block by block. */
  method ParsePatch(content: string) returns (patch: ParsedPatch)
    ensures patch == Parse(content)
  {
    hide Blocks, ParseBlocks, BEGIN, END, UPDATE;
    if !IsPatchFormat(content) { return Invalid("Not a valid patch format"); }
    var inner := ExtractBetween(content, BEGIN, END);
    if inner.None? { return Invalid("Failed to extract patch content"); }
    var count := CountOperations(inner.value);
    OneBlockPerMarker(inner.value);
    if count == 0 { return Invalid("No file operations found in patch"); }
    var ops := ParseAll(inner.value, count);
    match ops {
      case None => patch := Invalid("Failed to parse operation");
      case Some(o) => patch := Valid(o);
    }
  }

  method CountOperations(s: string) returns (count: nat)
    ensures count == CountMarkers(s)
  {
    hide UPDATE, Find, At;
    assert |UPDATE| == 16 by { MarkerLengths(); }
    count := 0;
    var marker := s;
    var k := Find(marker, UPDATE);
    while k.Some?
      invariant k == Find(marker, UPDATE) && count + CountMarkers(marker) == CountMarkers(s)
      decreases |marker|
    {
      FoundWithin(marker, UPDATE);
      count := count + 1;
      marker := marker[k.value + |UPDATE|..];
      k := Find(marker, UPDATE);
    }
  }

  function Behind(ops: seq<Operation>, rest: Option<seq<Operation>>): Option<seq<Operation>> {
    match rest case None => None case Some(r) => Some(ops + r)
  }

  method ParseAll(s: string, count: nat) returns (r: Option<seq<Operation>>)
    requires count == |Blocks(s)|
    ensures r == ParseBlocks(Blocks(s))
  {
    hide ParseOperation, UPDATE, Blocks, ParseBlocks, Behind, Find, At;
    var ops: seq<Operation> := [];
    var blockStart := s;
    BehindNothing(ParseBlocks(Blocks(s)));
    for i := 0 to count
      invariant |Blocks(blockStart)| == count - i
      invariant ParseBlocks(Blocks(s)) == Behind(ops, ParseBlocks(Blocks(blockStart)))
    {
      var k := Find(blockStart, UPDATE);
      NoMarkerNoBlocks(blockStart);
      if k.None? { break; }
      FoundWithin(blockStart, UPDATE);
      var next := Find(blockStart[k.value + |UPDATE|..], UPDATE);
      var blockEnd := if next.Some? then k.value + |UPDATE| + next.value else |blockStart|;
      FoundWithin(blockStart[k.value + |UPDATE|..], UPDATE);
      BlocksStep(blockStart, k.value, next);
      var op := ParseOneOperation(blockStart[k.value..blockEnd]);
      BehindStep(ops, blockStart[k.value..blockEnd], Blocks(blockStart[blockEnd..]));
      if op.None? { return None; }
      ops := ops + [op.value];
      blockStart := blockStart[blockEnd..];
    }
    BehindAll(ops, Blocks(blockStart));
    return Some(ops);
  }

  lemma NoMarkerNoBlocks(s: string)
    ensures Find(s, UPDATE).None? <==> Blocks(s) == []
  {
    hide UPDATE;
  }

  lemma BehindNothing(r: Option<seq<Operation>>)
    ensures Behind([], r) == r
  {
    if r.Some? { assert [] + r.value == r.value; }
  }

  lemma BehindStep(ops: seq<Operation>, block: string, rest: seq<string>)
    ensures Behind(ops, ParseBlocks([block] + rest)) ==
            match ParseOperation(block) case None => None case Some(op) => Behind(ops + [op], ParseBlocks(rest))
  {
    hide ParseOperation;
    assert ([block] + rest)[1..] == rest;
    if ParseOperation(block).Some? && ParseBlocks(rest).Some? {
      assert ops + ([ParseOperation(block).value] + ParseBlocks(rest).value) == ops + [ParseOperation(block).value] + ParseBlocks(rest).value;
    }
  }

  lemma BehindAll(ops: seq<Operation>, blocks: seq<string>)
    ensures blocks == [] ==> Behind(ops, ParseBlocks(blocks)) == Some(ops)
  {
    if blocks == [] { assert ops + [] == ops; }
  }

  lemma BlocksStep(s: string, k: nat, next: Option<nat>)
    requires Find(s, UPDATE) == Some(k) && next == Find(s[k + |UPDATE|..], UPDATE)
    ensures var end := if next.Some? then k + |UPDATE| + next.value else |s|;
            k <= end <= |s| && Blocks(s) == [s[k..end]] + Blocks(s[end..])
  {
    hide Blocks, UPDATE, Find, At;
    BlocksUnfold(s, k, next);
    FoundInside(s, k, next);
    if next.Some? {
      SuffixOfSuffix(s, k + |UPDATE|, next.value);
    } else {
      assert s[k..] == s[k..|s|] && s[|s|..] == "";
      NoBlocksInNothing();
    }
  }

  lemma FoundInside(s: string, k: nat, next: Option<nat>)
    requires Find(s, UPDATE) == Some(k) && next == Find(s[k + |UPDATE|..], UPDATE)
    ensures k + |UPDATE| <= |s| && (next.Some? ==> k + |UPDATE| + next.value <= |s|)
  {
    hide UPDATE, Find;
  }

  lemma BlocksUnfold(s: string, k: nat, next: Option<nat>)
    requires Find(s, UPDATE) == Some(k) && next == Find(s[k + |UPDATE|..], UPDATE)
    ensures Blocks(s) == match next
              case None => [s[k..]]
              case Some(j) => [s[k..k + |UPDATE| + j]] + Blocks(s[k + |UPDATE|..][j..])
  {
    hide UPDATE, Find, At;
  }

  lemma NoBlocksInNothing()
    ensures Blocks("") == []
  {
    hide UPDATE;
    assert |UPDATE| == 16 by { MarkerLengths(); }
  }
}
