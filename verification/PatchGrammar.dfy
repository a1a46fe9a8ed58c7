/** The grammar of patch documents: exactly which texts the parser accepts, and what it makes of
    them. */
module PatchGrammar {
  import opened Wrappers
  import opened Text
  import opened PatchParser
  import opened PatchRoundTrip

  // ---------------------------------------------------------------- lines

  /** The lines, each ended by a newline. */
  function Lines(ls: seq<string>): string {
    if ls == [] then "" else ls[0] + "\n" + Lines(ls[1..])
  }

  /** The lines with newlines between them. */
  function Joined(ls: seq<string>): string {
    if ls == [] then "" else if |ls| == 1 then ls[0] else ls[0] + "\n" + Joined(ls[1..])
  }

  /** What stands behind the prefix in those lines that have it. */
  function Selected(prefix: char, ls: seq<string>): seq<string> {
    if ls == [] then []
    else (if ls[0] != "" && ls[0][0] == prefix then [ls[0][1..]] else []) + Selected(prefix, ls[1..])
  }

  predicate AllSpaces(s: string) { forall c :: c in s ==> IsSpace(c) }

  // ---------------------------------------------------------------- one operation

  /** The parts of a block: what precedes the file marker, the path between blanks, what precedes
      the opening marker and follows it on its line, the lines of the hunk, and what follows the
      closing marker. */
  datatype Parts = Parts(before: string, blank: string, path: string, space: string, gap: string, tail: string,
                         lines: seq<string>, after: string)

  function HunkText(p: Parts): string { Lines(p.lines) + ("@@" + p.after) }

  function GapText(p: Parts): string { "\n" + (p.gap + ("@@" + (p.tail + "\n" + HunkText(p)))) }

  function PathText(p: Parts): string { p.blank + (p.path + (p.space + GapText(p))) }

  function BlockText(p: Parts): string { p.before + (UPDATE + PathText(p)) }

  ghost predicate LinesOk(ls: seq<string>) { forall l :: l in ls ==> '\n' !in l && !("@@" <= l) }

  /** Each marker is the first of its kind where it is looked for. */
  ghost predicate WellFormed(p: Parts) {
    && (forall i :: 0 <= i < |p.before| ==> !At(BlockText(p), UPDATE, i))
    && AllSpaces(p.blank)
    && p.path != "" && Trimmed(p.path) && '\n' !in p.path
    && AllSpaces(p.space) && '\n' !in p.space
    && (forall i :: 0 <= i < |p.gap| ==> !At(p.gap + "@@", "@@", i))
    && '\n' !in p.tail
    && LinesOk(p.lines)
  }

  /** What a block means: the lines behind `-` and those behind `+`; all others say nothing. */
  function Meaning(p: Parts): Operation {
    Operation(p.path, Joined(Selected('-', p.lines)), Joined(Selected('+', p.lines)))
  }

  // ---------------------------------------------------------------- the lines of a hunk

  lemma {:induction false} GatherIsSelected(c: char, ls: seq<string>)
    requires forall l :: l in ls ==> '\n' !in l
    ensures Gather(c, Lines(ls)) == Lines(Selected(c, ls))
  {
    hide Gather, Selected, Lines;
    LinesStep(ls);
    SelectedStep(c, ls);
    if ls == [] {
      GatherEmpty(c);
      LinesStep(Selected(c, ls));
    } else {
      GatherLine(c, ls[0], Lines(ls[1..]));
      GatherIsSelected(c, ls[1..]);
      LinesAppend(if ls[0] != "" && ls[0][0] == c then [ls[0][1..]] else [], Selected(c, ls[1..]));
      LinesOne(ls[0]);
      if ls[0] != "" { LinesOne(ls[0][1..]); }
    }
  }

  lemma LinesStep(ls: seq<string>)
    ensures Lines(ls) == if ls == [] then "" else ls[0] + "\n" + Lines(ls[1..])
  {
  }

  lemma LinesOne(l: string)
    ensures Lines([l]) == l + "\n" && Lines([]) == ""
  {
    assert [l][1..] == [];
  }

  lemma SelectedStep(c: char, ls: seq<string>)
    ensures Selected(c, ls) ==
            if ls == [] then []
            else (if ls[0] != "" && ls[0][0] == c then [ls[0][1..]] else []) + Selected(c, ls[1..])
  {
  }

  lemma {:induction false} LinesAppend(a: seq<string>, b: seq<string>)
    ensures Lines(a + b) == Lines(a) + Lines(b)
  {
    if a == [] {
      assert a + b == b;
    } else {
      assert (a + b)[1..] == a[1..] + b;
      LinesAppend(a[1..], b);
    }
  }

  lemma {:induction false} JoinedIsLines(ls: seq<string>)
    ensures Lines(ls) == if ls == [] then "" else Joined(ls) + "\n"
    ensures DropFinalNewline(Lines(ls)) == Joined(ls)
  {
    if ls != [] {
      JoinedIsLines(ls[1..]);
      assert Lines(ls) == Joined(ls) + "\n" by {
        if |ls| > 1 { assert ls[0] + "\n" + (Joined(ls[1..]) + "\n") == (ls[0] + "\n" + Joined(ls[1..])) + "\n"; }
      }
      assert (Joined(ls) + "\n")[..|Joined(ls)|] == Joined(ls);
    }
  }

  lemma OperationOfLines(path: string, ls: seq<string>)
    requires forall l :: l in ls ==> '\n' !in l
    ensures OperationOf(path, Lines(ls)) == Operation(path, Joined(Selected('-', ls)), Joined(Selected('+', ls)))
  {
    hide Gather, Selected, Lines, Joined, DropFinalNewline;
    GatherIsSelected('-', ls);
    GatherIsSelected('+', ls);
    JoinedIsLines(Selected('-', ls));
    JoinedIsLines(Selected('+', ls));
  }

  /** No line of the hunk is taken for the closing marker. */
  lemma {:induction false} NoClosingInside(ls: seq<string>, rest: string, i: nat)
    requires LinesOk(ls) && i < |Lines(ls)| && LineStart(Lines(ls) + rest, i)
    ensures !At(Lines(ls) + rest, "@@", i)
  {
    hide LineStart;
    var more := Lines(ls[1..]) + rest;
    var s := ls[0] + "\n" + more;
    assert Lines(ls) + rest == s;
    assert ls[0] in ls;
    LineStartBehind(ls[0], more, i);
    if i == 0 {
      assert s[|ls[0]|] == '\n' && s[..|ls[0]|] == ls[0];
      assert |s| >= 2 ==> s[0..2] == [s[0], s[1]];
    } else {
      var j := i - |ls[0]| - 1;
      NoClosingInside(ls[1..], rest, j);
      assert !At(more, "@@", j);
      if i + 2 <= |s| { assert s[i..i + 2] == more[j..j + 2]; }
    }
  }

  lemma ClosingBehindLines(ls: seq<string>, after: string)
    requires LinesOk(ls)
    ensures Closing(Lines(ls) + ("@@" + after), 0) == Some(|Lines(ls)|)
  {
    hide Lines, Closing;
    var s, n := Lines(ls) + ("@@" + after), |Lines(ls)|;
    forall j: nat | j < n ensures !(LineStart(s, j) && At(s, "@@", j)) {
      if LineStart(s, j) { NoClosingInside(ls, "@@" + after, j); }
    }
    ClosingSkips(s, 0, n);
    LinesEnd(ls);
    ClosingHere(s, n);
    assert s[n..n + 2] == "@@";
  }

  lemma ClosingHere(s: string, n: nat)
    requires n < |s|
    ensures LineStart(s, n) && At(s, "@@", n) ==> Closing(s, n) == Some(n)
  {
  }

  lemma {:induction false} LinesEnd(ls: seq<string>)
    ensures Lines(ls) != "" ==> Lines(ls)[|Lines(ls)| - 1] == '\n'
  {
    hide Joined;
    JoinedIsLines(ls);
  }

  // ---------------------------------------------------------------- well-formed blocks are parsed

  lemma {:induction false} TrimLeftSkips(blank: string, rest: string)
    requires AllSpaces(blank) && rest != "" && !IsSpace(rest[0])
    ensures TrimLeft(blank + rest) == rest
  {
    var s := blank + rest;
    if blank == "" {
      assert s == rest;
    } else {
      assert s[0] == blank[0] && blank[0] in blank && s[1..] == blank[1..] + rest;
      TrimLeftSkips(blank[1..], rest);
    }
  }

  lemma {:induction false} TrimRightSkips(text: string, space: string)
    requires AllSpaces(space) && text != "" && !IsSpace(text[|text| - 1])
    ensures TrimRight(text + space) == text
  {
    var s := text + space;
    if space == "" {
      assert s == text;
    } else {
      var n := |space| - 1;
      assert s[|s| - 1] == space[n] && space[n] in space && s[..|s| - 1] == text + space[..n];
      TrimRightSkips(text, space[..n]);
    }
  }

  lemma PathIsTrimmed(path: string, space: string)
    requires path != "" && Trimmed(path) && AllSpaces(space)
    ensures Trim(path + space) == path
  {
    hide TrimLeft, TrimRight;
    TrimLeftSkips("", path + space);
    assert "" + (path + space) == path + space;
    TrimRightSkips(path, space);
  }

  lemma HunkIsFound(p: Parts)
    requires (forall i :: 0 <= i < |p.gap| ==> !At(p.gap + "@@", "@@", i)) && '\n' !in p.tail
    ensures Hunk(GapText(p)) == Some(HunkText(p))
  {
    hide Find, LineEnd, HunkText;
    var rest := p.tail + "\n" + HunkText(p);
    var s, m := GapText(p), |p.gap| + 1;
    assert s[m..m + 2] == "@@" && s[m + 2..] == rest;
    forall i: nat | i < m ensures !At(s, "@@", i) {
      if i == 0 {
        assert s[0] == '\n';
        assert s[0..2][0] == s[0];
      } else {
        assert !At(p.gap + "@@", "@@", i - 1);
        assert s[i..i + 2] == (p.gap + "@@")[i - 1..i + 1];
      }
    }
    FindIs(s, "@@", m);
    FirstLine(p.tail, HunkText(p));
  }

  lemma LineEndOfPath(p: Parts)
    requires '\n' !in p.path && '\n' !in p.space
    ensures var s := p.path + (p.space + GapText(p));
            LineEnd(s) == |p.path| + |p.space| && s[..LineEnd(s)] == p.path + p.space && s[LineEnd(s)..] == GapText(p)
  {
    hide LineEnd, GapText;
    var s, e := p.path + (p.space + GapText(p)), |p.path| + |p.space|;
    assert s[..e] == p.path + p.space && s[e..] == GapText(p);
    GapStarts(p);
    assert s[e] == GapText(p)[0];
    LineEndIs(s, e);
  }

  lemma GapStarts(p: Parts)
    ensures GapText(p) != "" && GapText(p)[0] == '\n'
  {
  }

  lemma MarkerFirst(p: Parts)
    requires forall i :: 0 <= i < |p.before| ==> !At(BlockText(p), UPDATE, i)
    ensures Find(BlockText(p), UPDATE) == Some(|p.before|)
    ensures BlockText(p)[|p.before| + |UPDATE|..] == PathText(p)
  {
    hide Find, UPDATE, PathText;
    var s := BlockText(p);
    assert s[|p.before|..|p.before| + |UPDATE|] == UPDATE;
    FindIs(s, UPDATE, |p.before|);
    SkipTwo(p.before, UPDATE, PathText(p));
  }

  lemma SkipTwo(a: string, b: string, c: string)
    ensures (a + (b + c))[|a| + |b|..] == c
  {
  }

  /** A well-formed block is accepted with its meaning. */
  lemma WellFormedParses(p: Parts)
    requires WellFormed(p)
    ensures ParseOperation(BlockText(p)) == Some(Meaning(p))
  {
    hide Find, UPDATE, TrimLeft, Trim, LineEnd, Hunk, Closing, OperationOf, Lines, GapText, LinesOk, At;
    MarkerFirst(p);
    var line := p.path + (p.space + GapText(p));
    assert line[0] == p.path[0];
    TrimLeftSkips(p.blank, line);
    LineEndOfPath(p);
    GapStarts(p);
    PathIsTrimmed(p.path, p.space);
    HunkIsFound(p);
    ClosingBehindLines(p.lines, p.after);
    assert HunkText(p)[..|Lines(p.lines)|] == Lines(p.lines);
    NoNewlines(p.lines);
    OperationOfLines(p.path, p.lines);
  }

  lemma NoNewlines(ls: seq<string>)
    requires LinesOk(ls)
    ensures forall l :: l in ls ==> '\n' !in l
  {
  }

  // ---------------------------------------------------------------- what is parsed is well formed

  lemma {:induction false} LeftTrimmedIsSpace(s: string, i: nat)
    requires i + |TrimLeft(s)| < |s|
    ensures IsSpace(s[i])
  {
    if i > 0 { LeftTrimmedIsSpace(s[1..], i - 1); }
  }

  lemma SkippedSpaces(s: string) returns (blank: string)
    ensures s == blank + TrimLeft(s) && AllSpaces(blank)
  {
    hide TrimLeft;
    TrimLeftFacts(s);
    blank := s[..|s| - |TrimLeft(s)|];
    forall i | 0 <= i < |blank| ensures IsSpace(blank[i]) { LeftTrimmedIsSpace(s, i); }
  }

  lemma {:induction false} RightTrimmedIsSpace(s: string, i: nat)
    requires |TrimRight(s)| <= i < |s|
    ensures IsSpace(s[i])
  {
    if i < |s| - 1 { RightTrimmedIsSpace(s[..|s| - 1], i); }
  }

  lemma TrimmedSpaces(s: string) returns (space: string)
    ensures s == TrimRight(s) + space && AllSpaces(space)
  {
    hide TrimRight;
    TrimRightFacts(s);
    var n := |TrimRight(s)|;
    space := s[n..];
    forall i | 0 <= i < |space| ensures IsSpace(space[i]) { RightTrimmedIsSpace(s, n + i); }
  }

  lemma PathParts(line: string) returns (space: string)
    requires line != "" && !IsSpace(line[0]) && '\n' !in line
    ensures line == Trim(line) + space && AllSpaces(space) && '\n' !in space
    ensures Trim(line) != "" && Trimmed(Trim(line)) && '\n' !in Trim(line)
  {
    hide TrimLeft, TrimRight;
    TrimLeftSkips("", line);
    assert "" + line == line;
    space := TrimmedSpaces(line);
    TrimFacts(line);
    forall c | c in space || c in Trim(line) ensures c in line {}
  }

  lemma HunkParts(s: string, hunk: string) returns (gap: string, tail: string)
    requires s != "" && s[0] == '\n' && Hunk(s) == Some(hunk) && hunk != ""
    ensures s == "\n" + (gap + ("@@" + (tail + "\n" + hunk)))
    ensures (forall i :: 0 <= i < |gap| ==> !At(gap + "@@", "@@", i)) && '\n' !in tail
  {
    hide Find, LineEnd;
    var m := Find(s, "@@").value;
    assert s[m..m + 2] == "@@";
    assert s[m..m + 2][0] == s[m] && m > 0;
    gap := s[1..m];
    var opening := s[m + 2..];
    var f := LineEnd(opening);
    tail := opening[..f];
    assert s == "\n" + (gap + ("@@" + opening));
    assert opening == tail + "\n" + hunk;
    forall i: nat | i < |gap| ensures !At(gap + "@@", "@@", i) {
      assert (gap + "@@")[i..i + 2] == s[i + 1..i + 3];
      if At(gap + "@@", "@@", i) { FindMissesNothing(s, "@@", i + 1); }
    }
  }

  lemma {:induction false} ClosingIsFirst(s: string, i: nat, j: nat)
    requires i <= j < |s| && LineStart(s, j) && At(s, "@@", j)
    ensures Closing(s, i).Some? && Closing(s, i).value <= j
    decreases j - i
  {
    if !(LineStart(s, i) && At(s, "@@", i)) { ClosingIsFirst(s, i + 1, j); }
  }

  /** A text that ends with a newline, cut into its lines. */
  lemma {:induction false} LinesParts(body: string) returns (ls: seq<string>)
    requires body != "" ==> body[|body| - 1] == '\n'
    ensures body == Lines(ls) && forall l :: l in ls ==> '\n' !in l
    decreases |body|
  {
    hide LineEnd;
    if body == "" {
      ls := [];
    } else {
      var e := LineEnd(body);
      assert body[..|body|][|body| - 1] == '\n' && e < |body|;
      var rest := LinesParts(body[e + 1..]);
      ls := [body[..e]] + rest;
      assert ls[1..] == rest && body == body[..e] + "\n" + body[e + 1..];
    }
  }

  /** A line that looks like the closing marker would have been taken for it. */
  lemma {:induction false} NoLineCloses(ls: seq<string>, rest: string)
    requires forall i: nat :: i < |Lines(ls)| && LineStart(Lines(ls) + rest, i) ==> !At(Lines(ls) + rest, "@@", i)
    requires forall l :: l in ls ==> '\n' !in l
    ensures LinesOk(ls)
  {
    hide LineStart, At;
    if ls != [] {
      var more := Lines(ls[1..]) + rest;
      var s, n := ls[0] + "\n" + more, |ls[0]| + 1;
      assert Lines(ls) + rest == s;
      FirstCloses(ls[0], more);
      forall i: nat | i < |Lines(ls[1..])| && LineStart(more, i) ensures !At(more, "@@", i) {
        LineStartLater(ls[0], more, i);
        assert !At(s, "@@", n + i);
      }
      NoLineCloses(ls[1..], rest);
    }
  }

  lemma FirstCloses(line: string, more: string)
    ensures LineStart(line + "\n" + more, 0) && ("@@" <= line ==> At(line + "\n" + more, "@@", 0))
  {
    var s := line + "\n" + more;
    if "@@" <= line { assert s[0..2] == line[..2]; }
  }

  lemma LineStartLater(line: string, more: string, i: nat)
    requires i <= |more| && LineStart(more, i)
    ensures var s, n := line + "\n" + more, |line| + 1; LineStart(s, n + i) && (At(more, "@@", i) <==> At(s, "@@", n + i))
  {
    var s, n := line + "\n" + more, |line| + 1;
    assert s[n - 1] == '\n';
    assert i > 0 ==> more[i - 1] == s[n + i - 1];
    if i + 2 <= |more| { assert more[i..i + 2] == s[n + i..n + i + 2]; }
  }

  lemma HunkTextParts(hunk: string, c: nat) returns (ls: seq<string>, after: string)
    requires Closing(hunk, 0) == Some(c)
    ensures hunk == Lines(ls) + ("@@" + after) && hunk[..c] == Lines(ls) && LinesOk(ls)
  {
    hide Closing, Lines, LinesOk;
    assert hunk[c..c + 2] == "@@";
    var body := hunk[..c];
    ls := LinesParts(body);
    after := hunk[c + 2..];
    assert hunk == body + ("@@" + after);
    forall i: nat | i < |body| && LineStart(hunk, i) ensures !At(hunk, "@@", i) {
      if At(hunk, "@@", i) { ClosingIsFirst(hunk, 0, i); }
    }
    NoLineCloses(ls, "@@" + after);
  }

  lemma AcceptedIsWellFormed(block: string, op: Operation) returns (p: Parts)
    requires ParseOperation(block) == Some(op)
    ensures WellFormed(p) && block == BlockText(p) && op == Meaning(p)
  {
    hide Find, TrimLeft, Trim, LineEnd, Hunk, Closing, OperationOf, Lines, LinesOk, At, AllSpaces, Trimmed;
    hide UPDATE;
    var k := Find(block, UPDATE).value;
    FoundWithin(block, UPDATE);
    var before, behind := block[..k], block[k + |UPDATE|..];
    var line := TrimLeft(behind);
    var blank := SkippedSpaces(behind);
    TrimLeftFacts(behind);
    var e := LineEnd(line);
    var space := PathParts(line[..e]);
    var hunk := Hunk(line[e..]).value;
    var c := Closing(hunk, 0).value;
    var gap, tail := HunkParts(line[e..], hunk);
    var ls, after := HunkTextParts(hunk, c);
    p := Parts(before, blank, Trim(line[..e]), space, gap, tail, ls, after);
    BlockParts(block, k, p, behind, line, e, hunk);
    NoNewlines(ls);
    OperationOfLines(p.path, ls);
    forall i | 0 <= i < |before| ensures !At(block, UPDATE, i) { if At(block, UPDATE, i) { FindMissesNothing(block, UPDATE, i); } }
  }

  lemma BlockParts(block: string, k: nat, p: Parts, behind: string, line: string, e: nat, hunk: string)
    requires At(block, UPDATE, k) && p.before == block[..k] && behind == block[k + |UPDATE|..]
    requires behind == p.blank + line && e <= |line| && line[..e] == p.path + p.space
    requires line[e..] == "\n" + (p.gap + ("@@" + (p.tail + "\n" + hunk)))
    requires hunk == Lines(p.lines) + ("@@" + p.after)
    ensures block == BlockText(p)
  {
    hide UPDATE, Lines;
    assert line == line[..e] + line[e..];
    assert line == p.path + (p.space + GapText(p));
    assert block == p.before + (UPDATE + behind);
  }

  /** The grammar of a block: the parser accepts exactly the well-formed ones, with their meaning. */
  lemma {:induction false} BlockGrammar(block: string, op: Operation)
    ensures ParseOperation(block) == Some(op) <==> exists p :: WellFormed(p) && block == BlockText(p) && op == Meaning(p)
  {
    hide ParseOperation, WellFormed, BlockText, Meaning;
    if ParseOperation(block) == Some(op) { var p := AcceptedIsWellFormed(block, op); }
    if p :| WellFormed(p) && block == BlockText(p) && op == Meaning(p) { WellFormedParses(p); }
  }

  /** A line of a hunk that is empty, or has neither prefix, says nothing. */
  lemma {:induction false} OtherLinesSayNothing(p: Parts, i: nat, line: string)
    requires WellFormed(p) && i <= |p.lines| && '\n' !in line && !("@@" <= line)
    requires line != "" ==> line[0] != '-' && line[0] != '+'
    requires p.before == ""
    ensures ParseOperation(BlockText(p.(lines := p.lines[..i] + [line] + p.lines[i..]))) == ParseOperation(BlockText(p))
  {
    hide ParseOperation, BlockText, Joined;
    var q := p.(lines := p.lines[..i] + [line] + p.lines[i..]);
    SelectedInsert('-', p.lines, i, line);
    SelectedInsert('+', p.lines, i, line);
    WellFormedParses(p);
    assert LinesOk(q.lines) by {
      forall l | l in q.lines ensures '\n' !in l && !("@@" <= l) { assert l == line || l in p.lines; }
    }
    WellFormedParses(q);
  }

  lemma {:induction false} SelectedInsert(c: char, ls: seq<string>, i: nat, line: string)
    requires i <= |ls| && (line != "" ==> line[0] != c)
    ensures Selected(c, ls[..i] + [line] + ls[i..]) == Selected(c, ls)
  {
    var all := ls[..i] + [line] + ls[i..];
    if i == 0 {
      assert all[1..] == ls;
    } else {
      assert all[1..] == ls[1..][..i - 1] + [line] + ls[1..][i - 1..];
      SelectedInsert(c, ls[1..], i - 1, line);
    }
  }
}
