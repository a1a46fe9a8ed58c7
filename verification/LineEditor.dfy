/** The input line: a growable character buffer with a cursor, word moves, completion, and
    navigation through the history. */
module LineEditor {
  import opened Wrappers

  const INITIAL_CAPACITY: nat := 8192
  const HISTORY_SIZE: nat := 100
  const NUL: char := '\0'

  /** The editor as a text with a cursor. `position` is -1 while no history entry is shown. */
  datatype Editor = Editor(text: string, cursor: nat, history: seq<string>, position: int, saved: Option<string>)

  datatype Key =
    | Left | Right | Home | End | Up | Down
    | Backspace | Delete | KillToEnd | KillToStart | Clear
    | BackWord | ForwardWord | EraseBackWord | EraseForwardWord
    | Insert(c: char)
    | Complete(options: seq<string>) // what the completer offers for the current word

  // ---------------------------------------------------------------- words

  predicate Boundary(c: char) {
    !('a' <= c <= 'z' || 'A' <= c <= 'Z' || '0' <= c <= '9' || c == '_')
  }

  function SkipBack(text: string, pos: nat, boundary: bool): (r: nat)
    requires pos < |text|
    ensures r <= pos
  {
    if pos > 0 && Boundary(text[pos]) == boundary then SkipBack(text, pos - 1, boundary) else pos
  }

  function SkipForward(text: string, pos: nat, boundary: bool): (r: nat)
    requires pos <= |text|
    ensures pos <= r <= |text|
    decreases |text| - pos
  {
    if pos < |text| && Boundary(text[pos]) == boundary then SkipForward(text, pos + 1, boundary) else pos
  }

  function WordBack(text: string, cursor: nat): (r: nat)
    requires cursor <= |text|
    ensures r <= cursor
  {
    if cursor == 0 then 0
    else
      var pos := SkipBack(text, SkipBack(text, cursor - 1, true), false);
      if pos > 0 && Boundary(text[pos]) then pos + 1 else pos
  }

  function WordForward(text: string, cursor: nat): (r: nat)
    requires cursor <= |text|
    ensures cursor <= r <= |text|
  {
    SkipForward(text, SkipForward(text, cursor, false), true)
  }

  /** Where the completed word starts: behind the last blank or tab before the cursor. */
  function CompletionStart(text: string, cursor: nat): (r: nat)
    requires cursor <= |text|
    ensures r <= cursor
  {
    if cursor > 0 && text[cursor - 1] != ' ' && text[cursor - 1] != '\t' then CompletionStart(text, cursor - 1) else cursor
  }

  // ---------------------------------------------------------------- keys on values

  predicate Ok(e: Editor) { e.cursor <= |e.text| && (e.position == -1 || 0 <= e.position < |e.history|) }

  function Erase(e: Editor, from: nat, to: nat): Editor
    requires from <= to <= |e.text|
  {
    e.(text := e.text[..from] + e.text[to..], cursor := from)
  }

  function InsertAt(e: Editor, s: string): Editor
    requires Ok(e)
  {
    e.(text := e.text[..e.cursor] + s + e.text[e.cursor..], cursor := e.cursor + |s|)
  }

  /** Shows an entry with the cursor behind it. */
  function Show(e: Editor, entry: string, position: int): Editor {
    e.(text := entry, cursor := |entry|, position := position)
  }

  function PressUp(e: Editor): Editor
    requires Ok(e)
  {
    if e.history == [] then e
    else
      var s := if e.position == -1 then e.(saved := Some(e.text), position := |e.history|) else e;
      if s.position > 0 then Show(s, s.history[s.position - 1], s.position - 1) else s
  }

  function PressDown(e: Editor): Editor
    requires Ok(e)
  {
    if e.position == -1 then e
    else if e.position + 1 >= |e.history| then Show(e, e.saved.GetOr(""), -1)
    else Show(e, e.history[e.position + 1], e.position + 1)
  }

  predicate Typed(c: char) { 32 <= c as int < 127 || c == '\n' }

  function Press(e: Editor, k: Key): Editor
    requires Ok(e)
  {
    match k
    case Left => if e.cursor > 0 then e.(cursor := e.cursor - 1) else e
    case Right => if e.cursor < |e.text| then e.(cursor := e.cursor + 1) else e
    case Home => e.(cursor := 0)
    case End => e.(cursor := |e.text|)
    case Up => PressUp(e)
    case Down => PressDown(e)
    case Backspace => if e.cursor > 0 then Erase(e, e.cursor - 1, e.cursor) else e
    case Delete => if e.cursor < |e.text| then Erase(e, e.cursor, e.cursor + 1) else e
    case KillToEnd => Erase(e, e.cursor, |e.text|)
    case KillToStart => Erase(e, 0, e.cursor)
    case Clear => Erase(e, 0, |e.text|)
    case BackWord => e.(cursor := WordBack(e.text, e.cursor))
    case ForwardWord => e.(cursor := WordForward(e.text, e.cursor))
    case EraseBackWord => Erase(e, WordBack(e.text, e.cursor), e.cursor)
    case EraseForwardWord => Erase(e, e.cursor, WordForward(e.text, e.cursor))
    case Insert(c) => if Typed(c) then InsertAt(e, [c]) else e
    case Complete(options) =>
      if |options| == 1 then InsertAt(Erase(e, CompletionStart(e.text, e.cursor), e.cursor), options[0]) else e
  }

  /** A whole run of keys. */
  function PressAll(e: Editor, keys: seq<Key>): (r: Editor)
    requires Ok(e)
    ensures Ok(r) && r.history == e.history
  {
    if keys == [] then e
    else
      var before := PressAll(e, keys[..|keys| - 1]);
      PressIsOk(before, keys[|keys| - 1]);
      Press(before, keys[|keys| - 1])
  }

  /** Every key keeps the cursor inside the text, the shown entry inside the history, and the
      history itself. */
  lemma PressIsOk(e: Editor, k: Key)
    requires Ok(e)
    ensures Ok(Press(e, k)) && Press(e, k).history == e.history
  {
    hide WordBack, WordForward, CompletionStart;
  }

  /** history_add. */
  function AddHistory(history: seq<string>, entry: string): seq<string> {
    if entry == "" || (history != [] && history[|history| - 1] == entry) then history
    else (if |history| >= HISTORY_SIZE then history[1..] else history) + [entry]
  }

  // ---------------------------------------------------------------- arrays

  /** memmove inside one array. */
  method MoveWithin(a: array<char>, dst: nat, src: nat, n: nat)
    requires dst + n <= a.Length && src + n <= a.Length
    modifies a
    ensures a[..dst] == old(a[..dst])
    ensures a[dst..dst + n] == old(a[src..src + n])
  {
    forall i | dst <= i < dst + n { a[i] := a[i - dst + src]; }
  }

  method WriteAt(a: array<char>, at: nat, s: string)
    requires at + |s| <= a.Length
    modifies a
    ensures a[..at] == old(a[..at]) && a[at..at + |s|] == s
    ensures forall i :: at + |s| <= i < a.Length ==> a[i] == old(a[i])
  {
    forall i | at <= i < at + |s| { a[i] := s[i - at]; }
  }

  /** realloc: a larger array with the old contents in front. */
  method Grow(a: array<char>, capacity: nat) returns (b: array<char>)
    requires a.Length <= capacity
    ensures fresh(b) && b.Length == capacity
    ensures forall i :: 0 <= i < a.Length ==> b[i] == a[i]
  {
    b := new char[capacity];
    forall i | 0 <= i < a.Length { b[i] := a[i]; }
  }

  /** Removes from..to-1 of the terminated text in `a`. */
  method EraseIn(a: array<char>, length: nat, from: nat, to: nat)
    requires from <= to <= length < a.Length && a[length] == NUL
    modifies a
    ensures a[..length - (to - from)] == old(a[..from]) + old(a[to..length])
    ensures a[length - (to - from)] == NUL
  {
    MoveWithin(a, from, to, length - to + 1);
    TextAndNul(a[..], from, length - to);
  }

  /** A terminated text in two parts. */
  lemma TextAndNul(a: seq<char>, from: nat, n: nat)
    requires from + n + 1 <= |a|
    ensures a[..from + n] == a[..from] + a[from..from + n + 1][..n]
    ensures a[from + n] == a[from..from + n + 1][n]
  {
  }

  /** Moves the text behind `to` and its terminator to `mid`. */
  method MoveTail(a: array<char>, length: nat, to: nat, mid: nat)
    requires to <= length < a.Length && mid + length - to < a.Length && a[length] == NUL
    modifies a
    ensures a[..mid] == old(a[..mid]) && a[mid..mid + length - to] == old(a[to..length])
    ensures a[mid + length - to] == NUL
  {
    MoveWithin(a, mid, to, length - to + 1);
    TextAndNul(a[..], mid, length - to);
  }

  lemma ThreeParts(a: seq<char>, i: nat, j: nat, k: nat)
    requires i <= j <= k <= |a|
    ensures a[..k] == a[..i] + a[i..j] + a[j..k]
  {
  }

  /** Replaces from..to-1 of the terminated text in `a` by s. */
  method SpliceIn(a: array<char>, length: nat, from: nat, to: nat, s: string)
    requires from <= to <= length && length + |s| - (to - from) < a.Length && length < a.Length && a[length] == NUL
    modifies a
    ensures a[..length + |s| - (to - from)] == old(a[..from]) + s + old(a[to..length])
    ensures a[length + |s| - (to - from)] == NUL
  {
    var mid, end := from + |s|, length + |s| - (to - from);
    ghost var head := a[..from];
    MoveTail(a, length, to, mid);
    assert a[..from] == head;
    ghost var tail := a[mid..end];
    WriteAt(a, from, s);
    assert a[mid..end] == tail;
    ThreeParts(a[..], from, mid, end);
    assert a[..][..end] == a[..end] && a[..][..from] == a[..from] && a[..][from..mid] == a[from..mid] && a[..][mid..end] == a[mid..end];
  }

  lemma NoNulParts(text: string, from: nat, to: nat, s: string)
    requires from <= to <= |text| && NUL !in text && NUL !in s
    ensures NUL !in text[..from] + s + text[to..] && NUL !in text[..from] + text[to..]
  {
  }

  /** strncpy into the whole buffer, with the last byte set to NUL. */
  method CopyEntry(a: array<char>, entry: string)
    requires |entry| < a.Length
    modifies a
    ensures a[..|entry|] == entry && a[|entry|] == NUL
  {
    forall i | 0 <= i < a.Length - 1 { a[i] := if i < |entry| then entry[i] else NUL; }
    a[a.Length - 1] := NUL;
  }

  /** strlen of a buffer that holds the terminated entry. */
  method StringLength(a: array<char>, ghost entry: string) returns (length: nat)
    requires |entry| < a.Length && a[..|entry|] == entry && a[|entry|] == NUL && NUL !in entry
    ensures length == |entry|
  {
    length := 0;
    while a[length] != NUL
      invariant length <= |entry|
      decreases |entry| - length
    {
      length := length + 1;
    }
    assert a[..|entry|] == entry;
  }

  lemma SpliceText(text: string, from: nat, to: nat, s: string)
    requires from <= to <= |text|
    ensures var erased := text[..from] + text[to..];
            erased[..from] + s + erased[from..] == text[..from] + s + text[to..]
  {
    var erased := text[..from] + text[to..];
    assert erased[..from] == text[..from] && erased[from..] == text[to..];
  }

  lemma EraseNothing(e: Editor)
    requires Ok(e)
    ensures Erase(e, e.cursor, e.cursor) == e
  {
    assert e.text[..e.cursor] + e.text[e.cursor..] == e.text;
  }

  // ---------------------------------------------------------------- the editor as an object

  predicate Fits(s: string, capacity: nat) { |s| < capacity && NUL !in s }

  /** The draft and every history entry fit a buffer of this capacity. */
  ghost predicate AllFit(history: seq<string>, saved: Option<string>, capacity: nat) {
    && (forall h :: h in history ==> Fits(h, capacity))
    && (saved.Some? ==> Fits(saved.value, capacity))
  }

  lemma AllFitMore(history: seq<string>, saved: Option<string>, capacity: nat, larger: nat)
    requires AllFit(history, saved, capacity) && capacity <= larger
    ensures AllFit(history, saved, larger)
  {
  }

  class NCursesInput {
    var buffer: array<char>
    var length: nat
    var cursor: nat
    var history: seq<string>
    var position: int
    var saved: Option<string>

    /** Terminated text that fits the buffer, as do the draft and every history entry. */
    ghost predicate Valid()
      reads this, buffer
    {
      && cursor <= length < buffer.Length && INITIAL_CAPACITY <= buffer.Length
      && buffer[length] == NUL && NUL !in buffer[..length]
      && (position == -1 || 0 <= position < |history|)
      && AllFit(history, saved, buffer.Length)
    }

    ghost function Contents(): (e: Editor)
      reads this, buffer
      requires Valid()
      ensures Ok(e)
    {
      Editor(buffer[..length], cursor, history, position, saved)
    }

    constructor ()
      ensures Valid() && fresh(buffer) && Contents() == Editor("", 0, [], -1, None)
    {
      var b := new char[INITIAL_CAPACITY];
      b[0] := NUL;
      buffer, length, cursor := b, 0, 0;
      history, position, saved := [], -1, None;
    }

    /** Removes from..to-1 by moving the tail and its terminator left. */
    method EraseRange(from: nat, to: nat)
      requires Valid() && from <= to <= length
      modifies this`length, this`cursor, buffer
      ensures Valid() && Contents() == Erase(old(Contents()), from, to)
    {
      hide AllFit;
      ghost var text := buffer[..length];
      NoNulParts(text, from, to, "");
      EraseIn(buffer, length, from, to);
      length := length - (to - from);
      cursor := from;
      assert buffer[..length] == text[..from] + text[to..];
    }

    /** Replaces from..cursor-1 by s when that fits. */
    method Splice(from: nat, s: string)
      requires Valid() && from <= cursor && NUL !in s && length + |s| - (cursor - from) < buffer.Length
      modifies this`length, this`cursor, buffer
      ensures Valid() && Contents() == InsertAt(Erase(old(Contents()), from, old(cursor)), s)
    {
      hide AllFit;
      ghost var text := buffer[..length];
      NoNulParts(text, from, cursor, s);
      SpliceIn(buffer, length, from, cursor, s);
      length := length + |s| - (cursor - from);
      assert buffer[..length] == text[..from] + s + text[cursor..];
      SpliceText(text, from, cursor, s);
      cursor := from + |s|;
    }

    method Resize(capacity: nat)
      requires Valid() && capacity >= buffer.Length
      modifies this`buffer
      ensures Valid() && fresh(buffer) && buffer.Length == capacity && Contents() == old(Contents())
    {
      hide AllFit;
      ghost var text := buffer[..length];
      AllFitMore(history, saved, buffer.Length, capacity);
      buffer := Grow(buffer, capacity);
      assert buffer[..length] == text;
    }

    /** buffer_insert_char. */
    method InsertChar(c: char)
      requires Valid() && c != NUL
      modifies this`buffer, this`length, this`cursor, buffer
      ensures Valid() && (buffer == old(buffer) || fresh(buffer)) && Contents() == InsertAt(old(Contents()), [c])
    {
      hide AllFit;
      if length + 1 >= buffer.Length - 1 {
        Resize(buffer.Length * 2);
      }
      EraseNothing(Contents());
      Splice(cursor, [c]);
    }

    /** strncpy of an entry, then strlen: entries that fit are never cut off. */
    method Load(entry: string)
      requires Valid() && Fits(entry, buffer.Length)
      modifies this`length, this`cursor, buffer
      ensures Valid() && Contents() == old(Contents()).(text := entry, cursor := |entry|)
    {
      hide AllFit;
      CopyEntry(buffer, entry);
      length := StringLength(buffer, entry);
      cursor := length;
      assert buffer[..length] == entry;
    }

    method HistoryUp()
      requires Valid()
      modifies this`length, this`cursor, this`position, this`saved, buffer
      ensures Valid() && Contents() == PressUp(old(Contents()))
    {
      if |history| == 0 { return; }
      var at := position;
      if position == -1 {
        saved := Some(buffer[..length]);
        at := |history|;
      }
      if at > 0 {
        position := at - 1;
        assert history[position] in history;
        Load(history[position]);
      }
    }

    method HistoryDown()
      requires Valid()
      modifies this`length, this`cursor, this`position, buffer
      ensures Valid() && Contents() == PressDown(old(Contents()))
    {
      if position == -1 { return; }
      var next := position + 1;
      if next >= |history| {
        if saved.Some? {
          Load(saved.value);
        } else {
          EraseRange(0, length);
        }
        position := -1;
      } else {
        assert history[next] in history;
        Load(history[next]);
        position := next;
      }
    }

    method MoveBackwardWord() returns (pos: nat)
      requires Valid()
      ensures pos == WordBack(buffer[..length], cursor)
    {
      if cursor == 0 { return 0; }
      ghost var text := buffer[..length];
      pos := cursor - 1;
      while pos > 0 && Boundary(buffer[pos])
        invariant pos < length && SkipBack(text, pos, true) == SkipBack(text, cursor - 1, true)
      {
        pos := pos - 1;
      }
      ghost var mid := pos;
      while pos > 0 && !Boundary(buffer[pos])
        invariant pos < length && SkipBack(text, pos, false) == SkipBack(text, mid, false)
      {
        pos := pos - 1;
      }
      if pos > 0 && Boundary(buffer[pos]) { pos := pos + 1; }
    }

    method MoveForwardWord() returns (pos: nat)
      requires Valid()
      ensures pos == WordForward(buffer[..length], cursor)
    {
      if cursor >= length { return length; }
      ghost var text := buffer[..length];
      pos := cursor;
      while pos < length && !Boundary(buffer[pos])
        invariant pos <= length && SkipForward(text, pos, false) == SkipForward(text, cursor, false)
      {
        pos := pos + 1;
      }
      ghost var mid := pos;
      while pos < length && Boundary(buffer[pos])
        invariant pos <= length && SkipForward(text, pos, true) == SkipForward(text, mid, true)
      {
        pos := pos + 1;
      }
    }

    /** The single-completion case: find the word, make room, move the tail, copy the option. */
    method CompleteWith(option: string)
      requires Valid() && NUL !in option
      modifies this`buffer, this`length, this`cursor, buffer
      ensures Valid() && (buffer == old(buffer) || fresh(buffer))
      ensures var e := old(Contents());
              Contents() == InsertAt(Erase(e, CompletionStart(e.text, e.cursor), e.cursor), option)
    {
      hide AllFit, CompletionStart;
      var start := WordStart();
      var needed := start + |option| + (length - cursor) + 1;
      if needed > buffer.Length { Resize(needed); }
      Splice(start, option);
    }

    method WordStart() returns (start: nat)
      requires Valid()
      ensures start == CompletionStart(buffer[..length], cursor)
    {
      start := cursor;
      while start > 0 && buffer[start - 1] != ' ' && buffer[start - 1] != '\t'
        invariant start <= cursor && CompletionStart(buffer[..length], start) == CompletionStart(buffer[..length], cursor)
      {
        start := start - 1;
      }
    }

    /** The cursor keys and word moves of ncurses_input_readline. */
    method MoveKey(k: Key)
      requires Valid() && (k.Left? || k.Right? || k.Home? || k.End? || k.BackWord? || k.ForwardWord?)
      modifies this`cursor
      ensures Valid() && Contents() == Press(old(Contents()), k)
    {
      hide AllFit, WordBack, WordForward;
      match k {
        case Left => if cursor > 0 { cursor := cursor - 1; }
        case Right => if cursor < length { cursor := cursor + 1; }
        case Home => cursor := 0;
        case End => cursor := length;
        case BackWord => cursor := MoveBackwardWord();
        case ForwardWord => cursor := MoveForwardWord();
      }
    }

    /** The erasing keys: each removes one range next to the cursor. */
    method EraseKey(k: Key)
      requires Valid()
      requires k.Backspace? || k.Delete? || k.KillToEnd? || k.KillToStart? || k.Clear? || k.EraseBackWord? || k.EraseForwardWord?
      modifies this`length, this`cursor, buffer
      ensures Valid() && Contents() == Press(old(Contents()), k)
    {
      hide AllFit, WordBack, WordForward, Erase;
      match k {
        case Backspace => if cursor > 0 { EraseRange(cursor - 1, cursor); }
        case Delete => if cursor < length { EraseRange(cursor, cursor + 1); }
        case KillToEnd => EraseRange(cursor, length);
        case KillToStart => EraseRange(0, cursor);
        case Clear => EraseRange(0, length);
        case EraseBackWord =>
          var start := MoveBackwardWord();
          EraseRange(start, cursor);
        case EraseForwardWord =>
          var end := MoveForwardWord();
          EraseRange(cursor, end);
      }
    }

    /** One key of ncurses_input_readline. */
    method PressKey(k: Key)
      requires Valid() && (k.Complete? ==> forall o :: o in k.options ==> NUL !in o)
      modifies this, buffer
      ensures Valid() && (buffer == old(buffer) || fresh(buffer)) && Contents() == Press(old(Contents()), k)
    {
      hide AllFit, WordBack, WordForward, Erase, InsertAt, CompletionStart, PressUp, PressDown;
      match k {
        case Up => HistoryUp();
        case Down => HistoryDown();
        case Insert(c) => if Typed(c) { InsertChar(c); }
        case Complete(options) =>
          if |options| == 1 {
            assert options[0] in options;
            CompleteWith(options[0]);
          }
        case Backspace => EraseKey(k);
        case Delete => EraseKey(k);
        case KillToEnd => EraseKey(k);
        case KillToStart => EraseKey(k);
        case Clear => EraseKey(k);
        case EraseBackWord => EraseKey(k);
        case EraseForwardWord => EraseKey(k);
        case _ => MoveKey(k);
      }
    }

    /** The start of a line: everything but the history is reset. */
    method StartLine()
      requires Valid()
      modifies this, buffer
      ensures Valid() && buffer == old(buffer) && Contents() == Editor("", 0, old(history), -1, None)
    {
      buffer[0] := NUL;
      length, cursor := 0, 0;
      saved, position := None, -1;
    }

    /** ncurses_input_readline: from an empty line, key by key, to Enter or, without a line, to
        Ctrl+D. What the keys make of the buffer is what they make of a text with a cursor. */
    method ReadLine(keys: seq<Key>, submitted: bool) returns (line: Option<string>)
      requires Valid() && forall k, o :: k in keys && k.Complete? && o in k.options ==> NUL !in o
      modifies this, buffer
      ensures Valid() && (buffer == old(buffer) || fresh(buffer))
      ensures var e := PressAll(Editor("", 0, old(history), -1, None), keys);
              if submitted then line == Some(e.text) && history == AddHistory(old(history), e.text) && Contents().text == e.text
              else line == None && Contents() == e
    {
      hide AllFit, Press, AddHistory;
      ghost var start := Editor("", 0, history, -1, None);
      StartLine();
      for i := 0 to |keys|
        invariant Valid() && (buffer == old(buffer) || fresh(buffer))
        invariant Contents() == PressAll(start, keys[..i])
      {
        assert keys[..i + 1][..i] == keys[..i] && keys[i] in keys;
        PressKey(keys[i]);
      }
      assert keys[..|keys|] == keys;
      if !submitted { return None; }
      var text := Submit();
      line := Some(text);
    }

    /** The end of a line: it goes to the history and to the caller. */
    method Submit() returns (line: string)
      requires Valid()
      modifies this`history, this`position
      ensures Valid() && line == old(Contents()).text && history == AddHistory(old(history), line)
    {
      line := buffer[..length];
      if line == "" { return; }
      AddToHistory(line);
    }

    /** history_add. */
    method AddToHistory(entry: string)
      requires Valid() && Fits(entry, buffer.Length)
      modifies this`history, this`position
      ensures Valid() && history == AddHistory(old(history), entry)
    {
      if entry == "" { return; }
      if |history| > 0 && history[|history| - 1] == entry { return; }
      if |history| >= HISTORY_SIZE { history := history[1..]; }
      history := history + [entry];
      position := -1;
    }
  }
}
