/** The line editor's keys on a second, simpler picture of the line: the text before the cursor and
    the text behind it. */
module LineEditorZipper {
  import opened Wrappers
  import opened LineEditor
  import opened LineEditorProofs

  datatype Zipper = Zipper(before: string, after: string)

  function Zip(e: Editor): Zipper
    requires Ok(e)
  {
    Zipper(e.text[..e.cursor], e.text[e.cursor..])
  }

  /** What precedes the last run of characters other than blanks and tabs. */
  function WithoutWord(before: string): string {
    if before == "" || before[|before| - 1] == ' ' || before[|before| - 1] == '\t' then before
    else WithoutWord(before[..|before| - 1])
  }

  /** How much of the text before the cursor a back-word move leaves there. */
  function StaysBefore(z: Zipper): (n: nat)
    ensures n <= |z.before|
  {
    var start := LastStart(z.before + z.after, |z.before|);
    if start == 1 then 0 else start
  }

  /** How much of the text behind the cursor a forward-word move passes. */
  function PassedBehind(z: Zipper): (n: nat)
    ensures n <= |z.after|
  {
    NextStartBounds(z.before + z.after, |z.before|);
    NextStart(z.before + z.after, |z.before|) - |z.before|
  }

  lemma {:induction false} NextStartBounds(text: string, cursor: nat)
    requires cursor <= |text|
    ensures cursor <= NextStart(text, cursor) <= |text|
    decreases |text| - cursor
  {
    if cursor < |text| { NextStartBounds(text, cursor + 1); }
  }

  /** The keys that edit the line. */
  predicate Edits(k: Key) { !k.Up? && !k.Down? }

  function ZipPress(z: Zipper, k: Key): Zipper
    requires Edits(k)
  {
    var n, all := |z.before|, z.before + z.after;
    match k
    case Left => if n == 0 then z else Zipper(z.before[..n - 1], [z.before[n - 1]] + z.after)
    case Right => if z.after == "" then z else Zipper(z.before + [z.after[0]], z.after[1..])
    case Home => Zipper("", all)
    case End => Zipper(all, "")
    case Backspace => if n == 0 then z else Zipper(z.before[..n - 1], z.after)
    case Delete => if z.after == "" then z else Zipper(z.before, z.after[1..])
    case KillToEnd => Zipper(z.before, "")
    case KillToStart => Zipper("", z.after)
    case Clear => Zipper("", "")
    case BackWord => Zipper(z.before[..StaysBefore(z)], z.before[StaysBefore(z)..] + z.after)
    case ForwardWord => Zipper(z.before + z.after[..PassedBehind(z)], z.after[PassedBehind(z)..])
    case EraseBackWord => Zipper(z.before[..StaysBefore(z)], z.after)
    case EraseForwardWord => Zipper(z.before, z.after[PassedBehind(z)..])
    case Insert(c) => if 32 <= c as int < 127 || c == '\n' then Zipper(z.before + [c], z.after) else z
    case Complete(options) => if |options| == 1 then Zipper(WithoutWord(z.before) + options[0], z.after) else z
  }

  function ZipAll(z: Zipper, keys: seq<Key>): Zipper
    requires forall k :: k in keys ==> Edits(k)
  {
    if keys == [] then z else ZipPress(ZipAll(z, keys[..|keys| - 1]), keys[|keys| - 1])
  }

  // ---------------------------------------------------------------- one key

  lemma ZipWhole(e: Editor)
    requires Ok(e)
    ensures Zip(e).before + Zip(e).after == e.text && |Zip(e).before| == e.cursor
  {
  }

  lemma CursorZips(e: Editor, cursor: nat)
    requires Ok(e) && cursor <= |e.text|
    ensures var z := Zip(e.(cursor := cursor));
            if cursor <= e.cursor then z == Zipper(Zip(e).before[..cursor], Zip(e).before[cursor..] + Zip(e).after)
            else z == Zipper(Zip(e).before + Zip(e).after[..cursor - e.cursor], Zip(e).after[cursor - e.cursor..])
  {
    var moved := e.(cursor := cursor);
    assert Zip(moved).before + Zip(moved).after == e.text;
  }

  lemma EraseZips(e: Editor, from: nat, to: nat)
    requires Ok(e) && from <= e.cursor <= to <= |e.text|
    ensures Ok(Erase(e, from, to)) && Zip(Erase(e, from, to)) == Zipper(Zip(e).before[..from], Zip(e).after[to - e.cursor..])
  {
    var erased := e.text[..from] + e.text[to..];
    assert erased[..from] == e.text[..from] && erased[from..] == e.text[to..];
    assert e.text[e.cursor..][to - e.cursor..] == e.text[to..];
  }

  lemma InsertZips(e: Editor, s: string)
    requires Ok(e)
    ensures Ok(InsertAt(e, s)) && Zip(InsertAt(e, s)) == Zipper(Zip(e).before + s, Zip(e).after)
  {
    var text := e.text[..e.cursor] + s + e.text[e.cursor..];
    assert text[..e.cursor + |s|] == e.text[..e.cursor] + s && text[e.cursor + |s|..] == e.text[e.cursor..];
  }

  lemma {:induction false} CompletionZips(text: string, cursor: nat)
    requires cursor <= |text|
    ensures text[..CompletionStart(text, cursor)] == WithoutWord(text[..cursor])
  {
    if cursor > 0 {
      assert text[..cursor][..cursor - 1] == text[..cursor - 1];
      if text[cursor - 1] != ' ' && text[cursor - 1] != '\t' { CompletionZips(text, cursor - 1); }
    }
  }

  lemma WordsZip(e: Editor)
    requires Ok(e)
    ensures WordBack(e.text, e.cursor) == StaysBefore(Zip(e))
    ensures WordForward(e.text, e.cursor) == e.cursor + PassedBehind(Zip(e))
  {
    hide WordBack, WordForward, LastStart, NextStart;
    ZipWhole(e);
    WordBackExactly(e.text, e.cursor);
    WordForwardExactly(e.text, e.cursor);
    NextStartBounds(e.text, e.cursor);
  }

  lemma MoveZips(e: Editor, k: Key)
    requires Ok(e) && (k.Left? || k.Right? || k.Home? || k.End? || k.BackWord? || k.ForwardWord?)
    ensures Zip(Press(e, k)) == ZipPress(Zip(e), k)
  {
    hide WordBack, WordForward, StaysBefore, PassedBehind, Zip;
    ZipWhole(e);
    WordsZip(e);
    var z := Zip(e);
    match k
    case Left => if e.cursor > 0 { CursorZips(e, e.cursor - 1); assert z.before[e.cursor - 1..] == [z.before[e.cursor - 1]]; }
    case Right => if e.cursor < |e.text| { CursorZips(e, e.cursor + 1); assert z.after[..1] == [z.after[0]]; }
    case Home => CursorZips(e, 0); assert z.before[..0] == "" && z.before[0..] == z.before;
    case End => CursorZips(e, |e.text|); EndOfBefore(z);
    case BackWord => CursorZips(e, StaysBefore(z));
    case ForwardWord => CursorZips(e, e.cursor + PassedBehind(z)); EndOfBefore(z);
  }

  lemma EndOfBefore(z: Zipper)
    ensures z.before[..|z.before|] == z.before && z.before[|z.before|..] == "" && "" + z.after == z.after
    ensures z.after[..|z.after|] == z.after && z.after[|z.after|..] == "" && z.after[..0] == "" && z.after[0..] == z.after
    ensures z.before + "" == z.before
  {
  }

  lemma EraseKeysZip(e: Editor, k: Key)
    requires Ok(e)
    requires k.Backspace? || k.Delete? || k.KillToEnd? || k.KillToStart? || k.Clear? || k.EraseBackWord? || k.EraseForwardWord?
    ensures Zip(Press(e, k)) == ZipPress(Zip(e), k)
  {
    hide WordBack, WordForward, StaysBefore, PassedBehind, Zip, Erase;
    ZipWhole(e);
    WordsZip(e);
    var z := Zip(e);
    EndOfBefore(z);
    match k
    case Backspace => if e.cursor > 0 { EraseZips(e, e.cursor - 1, e.cursor); }
    case Delete => if e.cursor < |e.text| { EraseZips(e, e.cursor, e.cursor + 1); }
    case KillToEnd => EraseZips(e, e.cursor, |e.text|);
    case KillToStart => EraseZips(e, 0, e.cursor);
    case Clear => EraseZips(e, 0, |e.text|);
    case EraseBackWord => EraseZips(e, StaysBefore(z), e.cursor);
    case EraseForwardWord => EraseZips(e, e.cursor, e.cursor + PassedBehind(z));
  }

  lemma CompleteZips(e: Editor, option: string)
    requires Ok(e)
    ensures var start := CompletionStart(e.text, e.cursor);
            && Ok(Erase(e, start, e.cursor))
            && Zip(InsertAt(Erase(e, start, e.cursor), option)) == Zipper(WithoutWord(Zip(e).before) + option, Zip(e).after)
  {
    hide CompletionStart, InsertAt;
    var start := CompletionStart(e.text, e.cursor);
    EraseZips(e, start, e.cursor);
    EndOfBefore(Zip(e));
    CompletionZips(e.text, e.cursor);
    assert e.text[..e.cursor][..start] == e.text[..start];
    InsertZips(Erase(e, start, e.cursor), option);
  }

  lemma KeyZips(e: Editor, k: Key)
    requires Ok(e) && Edits(k)
    ensures Ok(Press(e, k)) && Zip(Press(e, k)) == ZipPress(Zip(e), k)
    ensures Press(e, k).position == e.position && Press(e, k).saved == e.saved
  {
    hide WordBack, WordForward, CompletionStart, StaysBefore, PassedBehind, Zip;
    PressIsOk(e, k);
    match k
    case Insert(c) => InsertZips(e, [c]);
    case Complete(options) => if |options| == 1 { CompleteZips(e, options[0]); }
    case Backspace => EraseKeysZip(e, k);
    case Delete => EraseKeysZip(e, k);
    case KillToEnd => EraseKeysZip(e, k);
    case KillToStart => EraseKeysZip(e, k);
    case Clear => EraseKeysZip(e, k);
    case EraseBackWord => EraseKeysZip(e, k);
    case EraseForwardWord => EraseKeysZip(e, k);
    case _ => MoveZips(e, k);
  }

  // ---------------------------------------------------------------- whole runs

  /** Any run of editing keys does on a text with a cursor what it does on the two texts around the
      cursor, and leaves the place in the history alone. */
  lemma {:induction false} KeysAreZipper(e: Editor, keys: seq<Key>)
    requires Ok(e) && forall k :: k in keys ==> Edits(k)
    ensures Zip(PressAll(e, keys)) == ZipAll(Zip(e), keys)
    ensures PressAll(e, keys).position == e.position && PressAll(e, keys).saved == e.saved
  {
    hide Zip, Press, ZipPress;
    if keys != [] {
      var n := |keys| - 1;
      KeysAreZipper(e, keys[..n]);
      assert keys[n] in keys;
      KeyZips(PressAll(e, keys[..n]), keys[n]);
    }
  }
}
