/** Cleaning pasted text in place. */
module Sanitizer {
  import opened Text

  datatype Options = Options(removeControl: bool, normalizeNewlines: bool, trim: bool, collapseNewlines: bool)

  const DEFAULTS := Options(true, true, true, true)

  predicate Printable(c: char) { 32 <= c as int < 127 || c == '\t' }

  /** The main loop as a function of the unread text and the newlines counted so far. */
  function Clean(s: string, newlines: nat, o: Options): (r: string)
    ensures |r| <= |s|
    decreases |s|
  {
    if s == "" then ""
    else
      var c, rest := Next(s, o).0, Next(s, o).1;
      if c == '\n' then (if o.collapseNewlines && newlines >= 2 then "" else "\n") + Clean(rest, newlines + 1, o)
      else if Printable(c) then [c] + Clean(rest, 0, o)
      else (if o.removeControl then "" else [c]) + Clean(rest, newlines, o)
  }

  /** The next character, with line ends unified, and what is left to read. */
  function Next(s: string, o: Options): (r: (char, string))
    requires s != ""
    ensures |r.1| < |s|
  {
    if o.normalizeNewlines && s[0] == '\r' then ('\n', if |s| > 1 && s[1] == '\n' then s[2..] else s[1..])
    else (s[0], s[1..])
  }

  /** paste_sanitize. */
  function Sanitize(s: string, o: Options): (r: string)
    ensures |r| <= |s|
  {
    TrimLeftFacts(s);
    var cleaned := Clean(if o.trim then TrimLeft(s) else s, 0, o);
    TrimRightFacts(cleaned);
    if o.trim then TrimRight(cleaned) else cleaned
  }

  // ---------------------------------------------------------------- the program

  lemma NothingToClean(o: Options)
    ensures Clean("", 0, o) == "" && TrimLeft("") == "" && TrimRight("") == ""
    ensures forall n: nat :: Clean("", n, o) == ""
  {
  }

  method SkipLeading(buffer: array<char>, len: nat) returns (start: nat)
    requires len <= buffer.Length
    ensures start <= len && buffer[start..len] == TrimLeft(buffer[..len])
  {
    start := 0;
    assert buffer[0..len] == buffer[..len];
    while start < len && IsSpace(buffer[start])
      invariant start <= len && TrimLeft(buffer[start..len]) == TrimLeft(buffer[..len])
    {
      assert buffer[start..len][1..] == buffer[start + 1..len];
      start := start + 1;
    }
  }

  method DropTrailing(buffer: array<char>, end: nat) returns (newLen: nat)
    requires end <= buffer.Length
    ensures newLen <= end && buffer[..newLen] == TrimRight(buffer[..end])
  {
    newLen := end;
    while newLen > 0 && IsSpace(buffer[newLen - 1])
      invariant newLen <= end && TrimRight(buffer[..newLen]) == TrimRight(buffer[..end])
    {
      assert buffer[..newLen][..newLen - 1] == buffer[..newLen - 1];
      newLen := newLen - 1;
    }
  }

  lemma NextIs(s: string, read: nat, o: Options)
    requires read < |s|
    ensures Next(s[read..], o) == (if o.normalizeNewlines && s[read] == '\r' then '\n' else s[read], s[if o.normalizeNewlines && s[read] == '\r' && read + 1 < |s| && s[read + 1] == '\n' then read + 2 else read + 1..])
  {
    assert s[read..][1..] == s[read + 1..];
    if read + 1 < |s| { assert s[read..][2..] == s[read + 2..]; }
  }

  lemma CleanStep(s: string, newlines: nat, o: Options)
    requires s != ""
    ensures var (c, rest) := Next(s, o);
            Clean(s, newlines, o) ==
            (if Writes(c, newlines, o) then [c] else "") + Clean(rest, NewlinesAfter(c, newlines), o)
  {
    hide Next;
  }

  predicate Writes(c: char, newlines: nat, o: Options) {
    if c == '\n' then !(o.collapseNewlines && newlines >= 2) else Printable(c) || !o.removeControl
  }

  function NewlinesAfter(c: char, newlines: nat): nat {
    if c == '\n' then newlines + 1 else if Printable(c) then 0 else newlines
  }

  method ReadChar(buffer: array<char>, read: nat, len: nat, o: Options) returns (c: char, next: nat)
    requires read < len <= buffer.Length
    ensures c == if o.normalizeNewlines && buffer[read] == '\r' then '\n' else buffer[read]
    ensures next == if o.normalizeNewlines && buffer[read] == '\r' && read + 1 < len && buffer[read + 1] == '\n' then read + 2 else read + 1
  {
    c, next := buffer[read], read + 1;
    if o.normalizeNewlines && c == '\r' {
      if next < len && buffer[next] == '\n' { next := next + 1; }
      c := '\n';
    }
  }

  method Put(buffer: array<char>, write: nat, c: char, keep: bool) returns (next: nat)
    requires write < buffer.Length
    modifies buffer
    ensures next == if keep then write + 1 else write
    ensures buffer[..next] == old(buffer[..write]) + if keep then [c] else ""
    ensures forall k :: write < k < buffer.Length ==> buffer[k] == old(buffer[k])
  {
    next := write;
    if keep {
      buffer[write] := c;
      next := write + 1;
    }
  }

  method CleanLoop(buffer: array<char>, start: nat, len: nat, o: Options) returns (write: nat)
    requires start <= len <= buffer.Length
    modifies buffer
    ensures write <= len && buffer[..write] == Clean(old(buffer[start..len]), 0, o)
    ensures buffer[len..] == old(buffer[len..])
  {
    hide Clean, Next, Writes, NewlinesAfter;
    ghost var text := buffer[..len];
    ghost var all := Clean(text[start..], 0, o);
    assert buffer[start..len] == text[start..];
    var read, newlines := start, 0;
    write := 0;
    while read < len
      invariant write <= read <= len
      invariant forall k :: read <= k < len ==> buffer[k] == text[k]
      invariant forall k :: len <= k < buffer.Length ==> buffer[k] == old(buffer[k])
      invariant buffer[..write] + Clean(text[read..], newlines, o) == all
    {
      NextIs(text, read, o);
      CleanStep(text[read..], newlines, o);
      var c, next := ReadChar(buffer, read, len, o);
      write := Put(buffer, write, c, Writes(c, newlines, o));
      newlines := NewlinesAfter(c, newlines);
      read := next;
    }
    NothingToClean(o);
  }

  /** Writes over the buffer from its start; the write position never passes the read position. */
  method SanitizeInPlace(buffer: array<char>, len: nat, o: Options) returns (newLen: nat)
    requires len < buffer.Length
    modifies buffer
    ensures newLen <= len && buffer[..newLen] == Sanitize(old(buffer[..len]), o)
    ensures len > 0 ==> buffer[newLen] == '\0'
    ensures buffer[len + 1..] == old(buffer[len + 1..])
  {
    hide Clean, TrimLeft, TrimRight;
    ghost var text := buffer[..len];
    TrimLeftFacts(text);
    NothingToClean(o);
    if len == 0 {
      TrimRightFacts("");
      return 0;
    }
    var start := 0;
    assert buffer[0..len] == text;
    if o.trim { start := SkipLeading(buffer, len); }
    newLen := CleanLoop(buffer, start, len, o);
    if o.trim { newLen := DropTrailing(buffer, newLen); }
    buffer[newLen] := '\0';
  }
}
