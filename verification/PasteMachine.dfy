/** Bracketed paste: recognising the start and end sequences character by character. */
module PasteMachine {
  import opened Wrappers
  import opened Text

  const CAPACITY: nat := 1048576
  const ESC: char := '\U{1B}'
  const START: string := [ESC] + "[200~"
  const END: string := [ESC] + "[201~"

  /** The paste state as a value; timing is left out. */
  datatype Paste = Paste(inPaste: bool, buffer: string)

  /** What processing one character reports: the return values 0, 1, 2, 3 and -1. */
  datatype Report = Normal | Started | Buffering | Complete | Overflow

  /** paste_buffer_add_char: one byte of the capacity stays free. */
  function AddChar(buffer: string, c: char): string {
    if |buffer| >= CAPACITY - 1 then buffer else buffer + [c]
  }

  predicate StartsPaste(buffer: string) { |buffer| >= 6 && buffer[..6] == START }

  predicate EndsPaste(buffer: string) { |buffer| >= 6 && buffer[|buffer| - 6..] == END }

  function Outside(buffer: string, c: char): (Paste, Report) {
    if c == ESC then (Paste(false, AddChar(buffer, c)), Buffering)
    else if buffer == "" then (Paste(false, ""), Normal)
    else
      var added := AddChar(buffer, c);
      if StartsPaste(added) then (Paste(true, ""), Started)
      else if |added| < 6 && added[0] == ESC then (Paste(false, added), Buffering)
      else (Paste(false, ""), Normal)
  }

  function Inside(buffer: string, c: char): (Paste, Report) {
    if |buffer| >= CAPACITY - 1 then (Paste(true, buffer), Overflow)
    else
      var added := buffer + [c];
      if EndsPaste(added) then (Paste(false, added[..|added| - 6]), Complete) else (Paste(true, added), Buffering)
  }

  function Process(s: Paste, c: char): (Paste, Report) {
    if s.inPaste then Inside(s.buffer, c) else Outside(s.buffer, c)
  }

  class PasteState {
    var inPaste: bool
    var buffer: array<char>
    var size: nat

    ghost predicate Valid()
      reads this
    {
      buffer.Length == CAPACITY && size < CAPACITY
    }

    ghost function Contents(): Paste
      reads this, buffer
      requires Valid()
    {
      Paste(inPaste, buffer[..size])
    }

    constructor ()
      ensures Valid() && fresh(buffer) && Contents() == Paste(false, "")
    {
      inPaste, size := false, 0;
      buffer := new char[CAPACITY];
    }

    method Reset()
      requires Valid()
      modifies this
      ensures Valid() && buffer == old(buffer) && Contents() == Paste(false, "")
    {
      size, inPaste := 0, false;
    }

    method Add(c: char) returns (ok: bool)
      requires Valid()
      modifies this`size, buffer
      ensures Valid()
      ensures ok == (old(size) < CAPACITY - 1)
      ensures buffer[..size] == AddChar(old(buffer[..size]), c)
    {
      if size >= CAPACITY - 1 { return false; }
      buffer[size] := c;
      size := size + 1;
      ok := true;
    }

    /** paste_process_char. */
    method ProcessChar(c: char) returns (report: Report)
      requires Valid()
      modifies this, buffer
      ensures Valid() && buffer == old(buffer)
      ensures (Contents(), report) == Process(old(Contents()), c)
    {
      if inPaste { report := ProcessInside(c); } else { report := ProcessOutside(c); }
    }

    method ProcessOutside(c: char) returns (report: Report)
      requires Valid() && !inPaste
      modifies this, buffer
      ensures Valid() && buffer == old(buffer)
      ensures (Contents(), report) == Outside(old(Contents()).buffer, c)
    {
      hide START, END;
      if c == ESC {
        var _ := Add(c);
        return Buffering;
      }
      if size > 0 {
        var _ := Add(c);
        if size >= 6 && buffer[..6] == START {
          assert buffer[..size][..6] == buffer[..6];
          size, inPaste := 0, true;
          return Started;
        }
        assert size >= 6 ==> buffer[..size][..6] == buffer[..6];
        if size < 6 && buffer[0] == ESC { return Buffering; }
        Reset();
      }
      report := Normal;
    }

    method ProcessInside(c: char) returns (report: Report)
      requires Valid() && inPaste
      modifies this, buffer
      ensures Valid() && buffer == old(buffer)
      ensures (Contents(), report) == Inside(old(Contents()).buffer, c)
    {
      hide START, END;
      var ok := Add(c);
      if !ok { return Overflow; }
      ghost var added := buffer[..size];
      assert size >= 6 ==> added[|added| - 6..] == buffer[size - 6..size];
      if size >= 6 && buffer[size - 6..size] == END {
        size := size - 6;
        buffer[size] := '\0';
        inPaste := false;
        assert buffer[..size] == added[..size];
        return Complete;
      }
      report := Buffering;
    }
  }

  // ---------------------------------------------------------------- runs

  /** The state after a whole input. */
  function After(s: Paste, input: string): Paste {
    if input == "" then s else Process(After(s, input[..|input| - 1]), input[|input| - 1]).0
  }

  /** The reports, one for each character. */
  function Reports(s: Paste, input: string): (r: seq<Report>)
    ensures |r| == |input|
  {
    if input == "" then []
    else
      var front := input[..|input| - 1];
      Reports(s, front) + [Process(After(s, front), input[|input| - 1]).1]
  }

  function Repeat(r: Report, n: nat): seq<Report> { seq(n, _ => r) }

  lemma RepeatMore(r: Report, n: nat)
    ensures Repeat(r, n) + [r] == Repeat(r, n + 1) && Repeat(r, 0) == []
  {
  }

  lemma {:induction false} RunAppend(s: Paste, a: string, b: string)
    ensures After(s, a + b) == After(After(s, a), b)
    ensures Reports(s, a + b) == Reports(s, a) + Reports(After(s, a), b)
  {
    hide Process;
    if b == "" {
      assert a + b == a;
      assert Reports(s, a) + [] == Reports(s, a);
    } else {
      var front := b[..|b| - 1];
      assert (a + b)[..|a + b| - 1] == a + front;
      RunAppend(s, a, front);
    }
  }

  /** Text without escape characters passes through unbuffered. */
  lemma {:induction false} NormalTextPasses(input: string)
    requires ESC !in input
    ensures After(Paste(false, ""), input) == Paste(false, "")
    ensures Reports(Paste(false, ""), input) == Repeat(Normal, |input|)
  {
    RepeatMore(Normal, |input| - if input == "" then 0 else 1);
    if input != "" { NormalTextPasses(input[..|input| - 1]); }
  }

  /** The first characters of the start sequence are only buffered. */
  lemma {:induction false} StartBuffered(k: nat)
    requires k <= 5
    ensures After(Paste(false, ""), START[..k]) == Paste(false, START[..k])
    ensures Reports(Paste(false, ""), START[..k]) == Repeat(Buffering, k)
  {
    RepeatMore(Buffering, k - if k == 0 then 0 else 1);
    if k > 0 {
      hide Process;
      StartBuffered(k - 1);
      assert START[..k][..k - 1] == START[..k - 1];
      StartStep(k - 1);
    }
  }

  lemma StartStep(k: nat)
    requires k < 5
    ensures Process(Paste(false, START[..k]), START[k]) == (Paste(false, START[..k + 1]), Buffering)
  {
    assert START[..k] + [START[k]] == START[..k + 1];
    assert START[0] == ESC;
    assert k > 0 ==> START[k] != ESC;
  }

  lemma StartRecognised()
    ensures After(Paste(false, ""), START) == Paste(true, "")
    ensures Reports(Paste(false, ""), START) == Repeat(Buffering, 5) + [Started]
  {
    StartBuffered(5);
    assert START[..|START| - 1] == START[..5];
    assert START[..5] + [START[5]] == START && START[..6] == START;
    assert START[5] != ESC;
  }

  /** Inside a paste, text that does not complete the end sequence is only buffered. */
  lemma {:induction false} BodyBuffered(text: string)
    requires Free(text, END) && |text| < CAPACITY
    ensures After(Paste(true, ""), text) == Paste(true, text)
    ensures Reports(Paste(true, ""), text) == Repeat(Buffering, |text|)
  {
    hide END, Process;
    RepeatMore(Buffering, |text| - if text == "" then 0 else 1);
    if text != "" {
      var n := |text| - 1;
      FreePart(text, END, 0, n);
      assert text[0..n] == text[..n];
      BodyBuffered(text[..n]);
      BodyStep(text);
    }
  }

  lemma BodyStep(text: string)
    requires Free(text, END) && 0 < |text| < CAPACITY
    ensures Process(Paste(true, text[..|text| - 1]), text[|text| - 1]) == (Paste(true, text), Buffering)
  {
    hide END;
    assert text[..|text| - 1] + [text[|text| - 1]] == text;
    NotEnding(text);
  }

  lemma SequenceLengths()
    ensures |END| == 6 && |START| == 6
  {
  }

  lemma NotEnding(text: string)
    requires Free(text, END)
    ensures !EndsPaste(text)
  {
    hide END;
    SequenceLengths();
    if |text| >= 6 {
      assert text[|text| - 6..|text|] == text[|text| - 6..];
      assert !At(text, END, |text| - 6);
    }
  }

  /** With the end sequence first completed at the end of `body + END`, it does not stand in
      what comes before the last character. */
  lemma BodyBeforeEnd(body: string)
    requires Find(body + END, END) == Some(|body|)
    ensures |END| == 6 && Free((body + END)[..|body| + 5], END)
  {
    hide END, Find;
    SequenceLengths();
    var s := body + END;
    var t := s[..|body| + 5];
    forall i: nat ensures !At(t, END, i) {
      AtPart(s, END, 0, |body| + 5, i);
      assert s[0..|body| + 5] == t;
      if At(s, END, i) { FindMissesNothing(s, END, i); }
    }
  }

  lemma BodyDelivered(body: string)
    requires Find(body + END, END) == Some(|body|) && |body| + 6 < CAPACITY
    ensures After(Paste(true, ""), body + END) == Paste(false, body)
    ensures Reports(Paste(true, ""), body + END) == Repeat(Buffering, |body| + 5) + [Complete]
  {
    hide END, Find, Process, After, Reports, Free, Repeat;
    BodyBeforeEnd(body);
    LastCharEnds(body);
    EndOfPaste(body + END, body);
  }

  /** All but the last character is buffered, and that ends the paste. */
  lemma EndOfPaste(s: string, body: string)
    requires |s| == |body| + 6 && |s| < CAPACITY && Free(s[..|body| + 5], END)
    requires Process(Paste(true, s[..|body| + 5]), s[|body| + 5]) == (Paste(false, body), Complete)
    ensures After(Paste(true, ""), s) == Paste(false, body)
    ensures Reports(Paste(true, ""), s) == Repeat(Buffering, |body| + 5) + [Complete]
  {
    hide END, Process, After, Reports, Free, Repeat;
    BodyBuffered(s[..|body| + 5]);
    RunLast(Paste(true, ""), s);
  }

  lemma RunLast(s: Paste, input: string)
    requires input != ""
    ensures var front, c := input[..|input| - 1], input[|input| - 1];
            && After(s, input) == Process(After(s, front), c).0
            && Reports(s, input) == Reports(s, front) + [Process(After(s, front), c).1]
  {
    hide Process;
  }

  lemma LastCharEnds(body: string)
    requires |body| + 6 < CAPACITY
    ensures |END| == 6
    ensures Process(Paste(true, (body + END)[..|body| + 5]), (body + END)[|body| + 5]) == (Paste(false, body), Complete)
  {
    hide END;
    SequenceLengths();
    var s := body + END;
    assert s[..|body| + 5] + [s[|body| + 5]] == s;
    assert s[|s| - 6..] == END && s[..|s| - 6] == body;
  }

  /** Once the buffer is full the paste can no longer end: every further character overflows. */
  lemma {:induction false} FullStaysFull(buffer: string, input: string)
    requires |buffer| == CAPACITY - 1
    ensures After(Paste(true, buffer), input) == Paste(true, buffer)
    ensures Reports(Paste(true, buffer), input) == Repeat(Overflow, |input|)
  {
    RepeatMore(Overflow, |input| - if input == "" then 0 else 1);
    if input != "" { FullStaysFull(buffer, input[..|input| - 1]); }
  }

  lemma FullBufferNeverCompletes(body: string)
    requires Find(body + END, END) == Some(|body|) && |body| + 6 >= CAPACITY
    ensures var reports := Reports(Paste(true, ""), body + END);
            reports != [] && reports[|reports| - 1] == Overflow
  {
    hide END, Find, Process, After, Reports;
    BodyBeforeEnd(body);
    var s := body + END;
    var head, tail := s[..CAPACITY - 1], s[CAPACITY - 1..];
    FreePart(s[..|body| + 5], END, 0, CAPACITY - 1);
    assert s[..|body| + 5][0..CAPACITY - 1] == head;
    BodyBuffered(head);
    FullStaysFull(head, tail);
    assert s == head + tail;
    RunAppend(Paste(true, ""), head, tail);
  }

  /** A bracketed paste, exactly: from a reset state, the start sequence is reported as started at
      its last character. If the end sequence is not completed early, the paste is reported as
      complete at its last character, with exactly the body in the buffer, if and only if body
      and end sequence fit the buffer. */
  lemma {:induction false} PasteDeliveredExactly(body: string)
    requires Find(body + END, END) == Some(|body|)
    ensures var reports := Reports(Paste(false, ""), START + (body + END));
            && reports != [] && (reports[|reports| - 1] == Complete <==> |body| + 6 < CAPACITY)
            && (|body| + 6 < CAPACITY ==>
                  && After(Paste(false, ""), START + (body + END)) == Paste(false, body)
                  && reports == Repeat(Buffering, 5) + [Started] + (Repeat(Buffering, |body| + 5) + [Complete]))
  {
    hide START, END, Find, After, Process, Repeat;
    SequenceLengths();
    StartRecognised();
    RunAppend(Paste(false, ""), START, body + END);
    if |body| + 6 < CAPACITY { BodyDelivered(body); } else { FullBufferNeverCompletes(body); }
  }

  // ---------------------------------------------------------------- escapes outside a paste

  /** Waiting behind an escape character: the buffer keeps what came first, whatever escapes
      follow. */
  ghost predicate Pending(s: Paste, first: string, more: nat) {
    && !s.inPaste && first <= s.buffer && |first| + more >= |s.buffer|
    && (|s.buffer| > |first| ==> s.buffer[|first|] == ESC) && (more > 0 ==> |s.buffer| > |first|)
  }

  /** Up to four characters behind an escape are only buffered, whatever they are. */
  lemma {:induction false} PendingBuffered(v: string)
    requires |v| <= 4
    ensures After(Paste(false, ""), [ESC] + v) == Paste(false, [ESC] + v)
    ensures Reports(Paste(false, ""), [ESC] + v) == Repeat(Buffering, |v| + 1)
  {
    hide Process;
    var s := [ESC] + v;
    RepeatMore(Buffering, |v|);
    if v == "" {
      RepeatMore(Buffering, 0);
      FirstEscape();
      assert s[..0] == "" && s == [ESC];
    } else {
      var n := |v| - 1;
      assert s[..|s| - 1] == [ESC] + v[..n];
      PendingBuffered(v[..n]);
      PendingStep(v);
    }
  }

  lemma FirstEscape()
    ensures Process(Paste(false, ""), ESC) == (Paste(false, [ESC]), Buffering)
  {
    assert "" + [ESC] == [ESC];
  }

  lemma PendingStep(v: string)
    requires 0 < |v| <= 4
    ensures Process(Paste(false, [ESC] + v[..|v| - 1]), v[|v| - 1]) == (Paste(false, [ESC] + v), Buffering)
  {
    hide START;
    assert ([ESC] + v[..|v| - 1]) + [v[|v| - 1]] == [ESC] + v;
  }

  lemma {:induction false} EscapesBuffered(first: string, more: nat)
    requires |first| == 5
    ensures var input := seq(more, _ => ESC);
            && Pending(After(Paste(false, first), input), first, more)
            && Reports(Paste(false, first), input) == Repeat(Buffering, more)
  {
    hide START;
    RepeatMore(Buffering, more - if more == 0 then 0 else 1);
    if more > 0 {
      var input := seq(more, _ => ESC);
      assert input[..more - 1] == seq(more - 1, _ => ESC);
      EscapesBuffered(first, more - 1);
    }
  }

  /** What becomes of an escape outside a paste, exactly: four further characters and any number of
      escapes are held back; the next other character starts a paste if and only if it completes
      the start sequence with no escape in between, and else everything is forgotten. */
  lemma {:induction false} EscapeDecidedExactly(v: string, more: nat, c: char)
    requires |v| == 4 && c != ESC
    ensures var input := ([ESC] + v) + (seq(more, _ => ESC) + [c]);
            var starts := more == 0 && [ESC] + v + [c] == START;
            && After(Paste(false, ""), input) == Paste(starts, "")
            && Reports(Paste(false, ""), input) == Repeat(Buffering, 5) + (Repeat(Buffering, more) + [if starts then Started else Normal])
  {
    hide START, Process;
    var first, escapes := [ESC] + v, seq(more, _ => ESC);
    PendingBuffered(v);
    RunAppend(Paste(false, ""), first, escapes + [c]);
    EscapesBuffered(first, more);
    RunAppend(Paste(false, first), escapes, [c]);
    var s := After(Paste(false, first), escapes);
    assert [c][..0] == "";
    PendingDecided(s, first, more, c);
  }

  lemma PendingDecided(s: Paste, first: string, more: nat, c: char)
    requires |first| == 5 && first[0] == ESC && Pending(s, first, more) && c != ESC
    ensures var starts := more == 0 && first + [c] == START;
            Process(s, c) == (Paste(starts, ""), if starts then Started else Normal)
  {
    var added := AddChar(s.buffer, c);
    StartHasOneEscape();
    if more == 0 {
      assert s.buffer == first;
      assert added == first + [c] && added[..6] == added;
    } else {
      assert added[..6][5] == ESC;
    }
  }

  lemma StartHasOneEscape()
    ensures |START| == 6 && START[5] != ESC
  {
  }

  /** An escape key pressed just before it hides a paste: the start sequence is not recognised. */
  lemma {:induction false} PasteBehindEscapeIsMissed()
    ensures After(Paste(false, ""), [ESC] + START) == Paste(false, "")
  {
    hide After, Process;
    var v := START[..4];
    EscapeDecidedExactly(v, 0, START[4]);
    StartHasOneEscape();
    assert START[4] != ESC && START[0] == ESC && START[1] == '[';
    var head := ([ESC] + v) + (seq(0, _ => ESC) + [START[4]]);
    assert [ESC] + START == head + [START[5]];
    assert ([ESC] + v + [START[4]])[1] == ESC;
    RunAppend(Paste(false, ""), head, [START[5]]);
    NormalTextPasses([START[5]]);
  }
}
