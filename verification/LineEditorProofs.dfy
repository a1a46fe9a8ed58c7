/** What the line editor's keys add up to. */
module LineEditorProofs {
  import opened Wrappers
  import opened LineEditor

  // ---------------------------------------------------------------- words

  /** A word character with no word character before it. */
  predicate WordStart(text: string, p: nat) {
    p < |text| && !Boundary(text[p]) && (p == 0 || Boundary(text[p - 1]))
  }

  /** The last word start before the cursor, 0 when there is none. */
  function LastStart(text: string, cursor: nat): (r: nat)
    requires cursor <= |text|
    ensures r <= cursor
  {
    if cursor == 0 then 0
    else if WordStart(text, cursor - 1) then cursor - 1
    else LastStart(text, cursor - 1)
  }

  /** The first word start behind the cursor, the end when there is none. */
  function NextStart(text: string, cursor: nat): (r: nat)
    requires cursor <= |text|
    decreases |text| - cursor
  {
    if cursor >= |text| then |text|
    else if WordStart(text, cursor + 1) then cursor + 1
    else NextStart(text, cursor + 1)
  }

  lemma {:induction false} SkipBackFacts(text: string, pos: nat, boundary: bool)
    requires pos < |text|
    ensures var r := SkipBack(text, pos, boundary);
            && (r > 0 ==> Boundary(text[r]) != boundary)
            && forall i :: r < i <= pos ==> Boundary(text[i]) == boundary
  {
    if pos > 0 && Boundary(text[pos]) == boundary { SkipBackFacts(text, pos - 1, boundary); }
  }

  lemma {:induction false} SkipForwardFacts(text: string, pos: nat, boundary: bool)
    requires pos <= |text|
    ensures var r := SkipForward(text, pos, boundary);
            && (r < |text| ==> Boundary(text[r]) != boundary)
            && forall i :: pos <= i < r ==> Boundary(text[i]) == boundary
    decreases |text| - pos
  {
    if pos < |text| && Boundary(text[pos]) == boundary { SkipForwardFacts(text, pos + 1, boundary); }
  }

  lemma {:induction false} LastStartIs(text: string, cursor: nat, p: nat)
    requires p <= cursor <= |text|
    requires forall i :: p < i < cursor ==> !WordStart(text, i)
    requires (p < cursor && WordStart(text, p)) || p == 0
    ensures LastStart(text, cursor) == p
  {
    if cursor > 0 && !WordStart(text, cursor - 1) { LastStartIs(text, cursor - 1, if p < cursor then p else 0); }
  }

  lemma {:induction false} NextStartIs(text: string, cursor: nat, p: nat)
    requires cursor <= p <= |text|
    requires forall i :: cursor < i < p ==> !WordStart(text, i)
    requires (cursor < p && WordStart(text, p)) || p == |text|
    ensures NextStart(text, cursor) == p
    decreases |text| - cursor
  {
    if cursor < |text| && !WordStart(text, cursor + 1) { NextStartIs(text, cursor + 1, p); }
  }

  /** Moving back a word goes to the last word start before the cursor, exactly unless that word
      starts at index 1: then it goes to index 0, the one character in front of the word. */
  lemma {:induction false} WordBackExactly(text: string, cursor: nat)
    requires cursor <= |text|
    ensures WordBack(text, cursor) == if LastStart(text, cursor) == 1 then 0 else LastStart(text, cursor)
  {
    if cursor > 0 {
      var a := SkipBack(text, cursor - 1, true);
      var b := SkipBack(text, a, false);
      SkipBackFacts(text, cursor - 1, true);
      SkipBackFacts(text, a, false);
      if b > 0 {
        LastStartIs(text, cursor, b + 1);
      } else if a == 0 && Boundary(text[0]) {
        LastStartIs(text, cursor, 0);
      } else if a == 0 {
        LastStartIs(text, cursor, 0);
      } else if Boundary(text[0]) {
        LastStartIs(text, cursor, 1);
      } else {
        LastStartIs(text, cursor, 0);
      }
    }
  }

  /** The word that is skipped: " ab" with the cursor at its end. */
  lemma {:induction false} WordAtOneIsSkipped()
    ensures LastStart(" ab", 3) == 1 && WordBack(" ab", 3) == 0
  {
    assert WordStart(" ab", 1) && !WordStart(" ab", 2);
    assert LastStart(" ab", 3) == LastStart(" ab", 2) == 1;
    WordBackExactly(" ab", 3);
  }

  /** Moving forward a word goes to the first word start behind the cursor, or to the end. */
  lemma {:induction false} WordForwardExactly(text: string, cursor: nat)
    requires cursor <= |text|
    ensures WordForward(text, cursor) == NextStart(text, cursor)
  {
    var a := SkipForward(text, cursor, false);
    var b := SkipForward(text, a, true);
    SkipForwardFacts(text, cursor, false);
    SkipForwardFacts(text, a, true);
    forall i | cursor < i < b ensures !WordStart(text, i) {
      if i <= a { assert !Boundary(text[i - 1]); }
    }
    if b < |text| {
      assert b > a ==> Boundary(text[b - 1]);
    }
    NextStartIs(text, cursor, b);
  }

  // ---------------------------------------------------------------- history navigation

  /** The editor after a run of Up (true) and Down (false) keys. */
  function Navigate(e: Editor, ups: seq<bool>): (r: Editor)
    requires Ok(e)
    ensures Ok(r)
  {
    if ups == [] then e
    else
      var before := Navigate(e, ups[..|ups| - 1]);
      if ups[|ups| - 1] then PressUp(before) else PressDown(before)
  }

  /** The same run on an index into the entries followed by the draft, kept within its bounds. */
  function ClampedIndex(n: nat, ups: seq<bool>): (i: nat)
    ensures i <= n
  {
    if ups == [] then n
    else
      var i := ClampedIndex(n, ups[..|ups| - 1]);
      if ups[|ups| - 1] then (if i > 0 then i - 1 else 0) else (if i < n then i + 1 else n)
  }

  /** The run shows entry i of `e.history + [e.text]`, with the cursor at its end once it has
      moved. */
  predicate ShowsIndex(e: Editor, r: Editor, i: nat, moved: bool) {
    && i <= |e.history| && r.history == e.history
    && r.text == (e.history + [e.text])[i]
    && r.position == (if i == |e.history| then -1 else i)
    && (i < |e.history| ==> moved)
    && if moved then r.saved == Some(e.text) && r.cursor == |r.text| else r == e
  }

  lemma UpShows(e: Editor, r: Editor, i: nat, moved: bool)
    requires Ok(r) && ShowsIndex(e, r, i, moved) && (moved ==> e.history != [])
    ensures ShowsIndex(e, PressUp(r), if i > 0 then i - 1 else 0, e.history != [])
  {
  }

  lemma DownShows(e: Editor, r: Editor, i: nat, moved: bool)
    requires Ok(r) && ShowsIndex(e, r, i, moved)
    ensures ShowsIndex(e, PressDown(r), if i < |e.history| then i + 1 else |e.history|, moved)
  {
  }

  /** Any run of Up and Down keys on a line being typed behaves as an index into the history
      followed by the draft, kept within its bounds; back at the end, the draft is restored, and a
      run without Up, or without a history, changes nothing. */
  lemma {:induction false} NavigationIsClampedIndex(e: Editor, ups: seq<bool>)
    requires Ok(e) && e.position == -1
    ensures ShowsIndex(e, Navigate(e, ups), ClampedIndex(|e.history|, ups), e.history != [] && true in ups)
  {
    hide ShowsIndex, PressUp, PressDown;
    if ups == [] {
      StartShows(e);
    } else {
      var front := ups[..|ups| - 1];
      NavigationIsClampedIndex(e, front);
      var r, i := Navigate(e, front), ClampedIndex(|e.history|, front);
      var moved := e.history != [] && true in front;
      assert ups == front + [ups[|ups| - 1]];
      if ups[|ups| - 1] { UpShows(e, r, i, moved); } else { DownShows(e, r, i, moved); }
    }
  }

  lemma StartShows(e: Editor)
    requires Ok(e) && e.position == -1
    ensures ShowsIndex(e, e, |e.history|, false)
  {
  }

  // ---------------------------------------------------------------- the history itself

  ghost predicate GoodHistory(h: seq<string>) {
    && |h| <= HISTORY_SIZE
    && (forall i :: 0 <= i < |h| ==> h[i] != "")
    && (forall i :: 0 < i < |h| ==> h[i - 1] != h[i])
  }

  function AddAll(h: seq<string>, lines: seq<string>): seq<string> {
    if lines == [] then h else AddHistory(AddAll(h, lines[..|lines| - 1]), lines[|lines| - 1])
  }

  lemma AddKeepsGood(h: seq<string>, line: string)
    requires GoodHistory(h)
    ensures GoodHistory(AddHistory(h, line))
    ensures line != "" ==> AddHistory(h, line) != [] && AddHistory(h, line)[|AddHistory(h, line)| - 1] == line
  {
  }

  /** The lines without empty ones and without repetitions of the line before. */
  function Distinct(lines: seq<string>): seq<string> {
    if lines == [] then []
    else
      var before, line := Distinct(lines[..|lines| - 1]), lines[|lines| - 1];
      if line == "" || (before != [] && before[|before| - 1] == line) then before else before + [line]
  }

  function Newest(lines: seq<string>, n: nat): (r: seq<string>)
    ensures |r| <= n && |r| <= |lines|
  {
    if |lines| > n then lines[|lines| - n..] else lines
  }

  /** Over every run, the history is the newest 100 of the lines that differ from the one before,
      so it never has equal neighbours. */
  lemma {:induction false} HistoryIsNewestDistinct(lines: seq<string>)
    ensures AddAll([], lines) == Newest(Distinct(lines), HISTORY_SIZE)
    ensures GoodHistory(AddAll([], lines))
  {
    if lines != [] {
      var front, line := lines[..|lines| - 1], lines[|lines| - 1];
      HistoryIsNewestDistinct(front);
      AddKeepsGood(AddAll([], front), line);
      var d := Distinct(front);
      var h := Newest(d, HISTORY_SIZE);
      assert d != [] ==> h != [] && h[|h| - 1] == d[|d| - 1];
      if line != "" && !(d != [] && d[|d| - 1] == line) { NewestMore(d, line); }
    }
  }

  lemma NewestMore(d: seq<string>, line: string)
    ensures var h := Newest(d, HISTORY_SIZE);
            (if |h| >= HISTORY_SIZE then h[1..] else h) + [line] == Newest(d + [line], HISTORY_SIZE)
  {
  }

  // ---------------------------------------------------------------- runs of keys

  /** The keys that type a text, and as many backspaces. */
  function Typing(text: string): seq<Key> { seq(|text|, i requires 0 <= i < |text| => Insert(text[i])) }

  function Backspaces(n: nat): seq<Key> { seq(n, _ => Backspace) }

  lemma {:induction false} PressAllAppend(e: Editor, a: seq<Key>, b: seq<Key>)
    requires Ok(e)
    ensures PressAll(e, a + b) == PressAll(PressAll(e, a), b)
  {
    hide Press;
    if b == [] {
      assert a + b == a;
    } else {
      var front := b[..|b| - 1];
      assert (a + b)[..|a + b| - 1] == a + front;
      PressAllAppend(e, a, front);
    }
  }

  lemma PressOne(e: Editor, k: Key)
    requires Ok(e)
    ensures PressAll(e, [k]) == Press(e, k)
  {
    hide Press;
    assert [k][..0] == [];
    assert PressAll(e, []) == e;
  }

  lemma BackspaceUndoesInsert(e: Editor, c: char)
    requires Ok(e) && Typed(c)
    ensures Press(Press(e, Insert(c)), Backspace) == e
  {
    var i := Press(e, Insert(c));
    assert i.text[..e.cursor] + i.text[e.cursor + 1..] == e.text;
  }

  /** Typing a text puts it in at the cursor. */
  lemma {:induction false} TypingInserts(e: Editor, text: string)
    requires Ok(e) && forall i :: 0 <= i < |text| ==> Typed(text[i])
    ensures PressAll(e, Typing(text)) == InsertAt(e, text)
  {
    hide Press;
    if text == "" {
      EraseNothing(e);
      assert e.text[..e.cursor] + "" + e.text[e.cursor..] == e.text;
      assert PressAll(e, Typing("")) == e;
    } else {
      var n := |text| - 1;
      TypingInserts(e, text[..n]);
      assert Typing(text) == Typing(text[..n]) + [Insert(text[n])];
      PressAllAppend(e, Typing(text[..n]), [Insert(text[n])]);
      PressOne(InsertAt(e, text[..n]), Insert(text[n]));
      TypeOneMore(e, text);
    }
  }

  lemma TypeOneMore(e: Editor, text: string)
    requires Ok(e) && text != "" && Typed(text[|text| - 1])
    ensures Press(InsertAt(e, text[..|text| - 1]), Insert(text[|text| - 1])) == InsertAt(e, text)
  {
    var n := |text| - 1;
    var before := InsertAt(e, text[..n]);
    assert before.text[..before.cursor] == e.text[..e.cursor] + text[..n];
    assert before.text[before.cursor..] == e.text[e.cursor..];
    assert text == text[..n] + [text[n]];
  }

  /** Typing any text and erasing as many characters restores the line, the cursor and the history
      position, wherever the cursor was. */
  lemma {:induction false} TypingIsUndone(e: Editor, text: string)
    requires Ok(e) && forall i :: 0 <= i < |text| ==> Typed(text[i])
    ensures PressAll(e, Typing(text) + Backspaces(|text|)) == e
  {
    hide Press, PressAll;
    if text == "" {
      assert Typing(text) + Backspaces(0) == [];
      assert PressAll(e, []) == e by { PressNothing(e); }
    } else {
      var n := |text| - 1;
      var front, last := Typing(text[..n]), [Insert(text[n])];
      assert Typing(text) + Backspaces(n + 1) == front + (last + ([Backspace] + Backspaces(n)));
      TypingIsUndone(e, text[..n]);
      var before := PressAll(e, front);
      PressAllAppend(e, front, last + ([Backspace] + Backspaces(n)));
      PressAllAppend(before, last, [Backspace] + Backspaces(n));
      PressOne(before, Insert(text[n]));
      var typed := Press(before, Insert(text[n]));
      PressIsOk(before, Insert(text[n]));
      PressAllAppend(typed, [Backspace], Backspaces(n));
      PressOne(typed, Backspace);
      BackspaceUndoesInsert(before, text[n]);
      PressAllAppend(e, front, Backspaces(n));
    }
  }

  lemma PressNothing(e: Editor)
    requires Ok(e)
    ensures PressAll(e, []) == e
  {
  }
}
