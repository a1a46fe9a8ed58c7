/** The history file: one escaped entry per line, appended and loaded back. */
module HistoryFile {
  import opened Text

  // ---------------------------------------------------------------- escaping

  function Escape(t: string): string {
    if t == "" then "" else (if t[0] == '\n' then "\\n" else [t[0]]) + Escape(t[1..])
  }

  /** A backslash directly followed by the letter n. */
  predicate EscapedNewline(t: string) { |t| >= 2 && t[0] == '\\' && t[1] == 'n' }

  function Unescape(t: string): string {
    if t == "" then ""
    else if EscapedNewline(t) then "\n" + Unescape(t[2..])
    else [t[0]] + Unescape(t[1..])
  }

  function NewlineCount(t: string): nat {
    if t == "" then 0 else (if t[0] == '\n' then 1 else 0) + NewlineCount(t[1..])
  }

  function EscapeCount(t: string): nat {
    if t == "" then 0
    else if EscapedNewline(t) then 1 + EscapeCount(t[2..])
    else EscapeCount(t[1..])
  }

  lemma {:induction false} EscapeLength(t: string)
    ensures |Escape(t)| == |t| + NewlineCount(t)
    ensures NewlineCount(t) == 0 ==> Escape(t) == t
  {
    if t != "" { EscapeLength(t[1..]); }
  }

  lemma {:induction false} UnescapeLength(t: string)
    ensures |Unescape(t)| + EscapeCount(t) == |t|
    ensures EscapeCount(t) == 0 ==> Unescape(t) == t
  {
    if t != "" { UnescapeLength(if EscapedNewline(t) then t[2..] else t[1..]); }
  }

  lemma EscapeNone()
    ensures Escape("") == "" && Unescape("") == ""
  {
  }

  /** escape_newlines: a counting pass, and a writing pass into a buffer of that size. */
  method EscapeNewlines(text: string) returns (escaped: string)
    ensures escaped == Escape(text)
  {
    hide Escape;
    var count := CountNewlines(text);
    EscapeLength(text);
    if count == 0 { return text; }
    var buffer := new char[|text| + count];
    var dest := 0;
    for src := 0 to |text|
      invariant dest <= buffer.Length && buffer[..dest] + Escape(text[src..]) == Escape(text)
    {
      ghost var done := buffer[..dest];
      EscapeStep(text, src);
      assert |Escape(text)| == dest + |Escape(text[src..])|;
      if text[src] == '\n' {
        buffer[dest] := '\\';
        buffer[dest + 1] := 'n';
        dest := dest + 2;
        assert buffer[..dest] == done + "\\n";
      } else {
        buffer[dest] := text[src];
        dest := dest + 1;
        assert buffer[..dest] == done + [text[src]];
      }
    }
    EscapeNone();
    assert text[|text|..] == "";
    assert buffer[..] == buffer[..dest];
    escaped := buffer[..];
  }

  method CountNewlines(text: string) returns (count: nat)
    ensures count == NewlineCount(text)
  {
    count := 0;
    for p := 0 to |text|
      invariant count + NewlineCount(text[p..]) == NewlineCount(text)
    {
      assert text[p..][1..] == text[p + 1..];
      if text[p] == '\n' { count := count + 1; }
    }
  }

  lemma EscapeStep(text: string, src: nat)
    requires src < |text|
    ensures Escape(text[src..]) == (if text[src] == '\n' then "\\n" else [text[src]]) + Escape(text[src + 1..])
  {
    assert text[src..][1..] == text[src + 1..];
  }

  lemma UnescapeStep(text: string, src: nat)
    requires src < |text|
    ensures Unescape(text[src..]) ==
            if EscapedNewline(text[src..]) then "\n" + Unescape(text[src + 2..]) else [text[src]] + Unescape(text[src + 1..])
    ensures EscapeCount(text[src..]) ==
            if EscapedNewline(text[src..]) then 1 + EscapeCount(text[src + 2..]) else EscapeCount(text[src + 1..])
    ensures EscapedNewline(text[src..]) <==> src + 1 < |text| && text[src] == '\\' && text[src + 1] == 'n'
  {
    assert text[src..][1..] == text[src + 1..];
    if EscapedNewline(text[src..]) { assert text[src..][2..] == text[src + 2..]; }
  }

  /** unescape_newlines, in the same two passes. */
  method UnescapeNewlines(text: string) returns (unescaped: string)
    ensures unescaped == Unescape(text)
  {
    hide Unescape, EscapedNewline;
    var count := CountEscapes(text);
    UnescapeLength(text);
    if count == 0 { return text; }
    var buffer := new char[|text| - count];
    var dest, src := 0, 0;
    while src < |text|
      invariant dest <= buffer.Length && src <= |text| && buffer[..dest] + Unescape(text[src..]) == Unescape(text)
    {
      ghost var done := buffer[..dest];
      UnescapeStep(text, src);
      assert |Unescape(text)| == dest + |Unescape(text[src..])|;
      if text[src] == '\\' && src + 1 < |text| && text[src + 1] == 'n' {
        buffer[dest] := '\n';
        src := src + 1;
        assert buffer[..dest + 1] == done + "\n";
      } else {
        buffer[dest] := text[src];
        assert buffer[..dest + 1] == done + [text[src]];
      }
      dest := dest + 1;
      src := src + 1;
    }
    EscapeNone();
    assert text[|text|..] == "";
    assert buffer[..] == buffer[..dest];
    unescaped := buffer[..];
  }

  method CountEscapes(text: string) returns (count: nat)
    ensures count == EscapeCount(text)
  {
    hide EscapedNewline;
    count := 0;
    var p := 0;
    while p < |text|
      invariant p <= |text| && count + EscapeCount(text[p..]) == EscapeCount(text)
    {
      UnescapeStep(text, p);
      if text[p] == '\\' && p + 1 < |text| && text[p + 1] == 'n' {
        count := count + 1;
        p := p + 1;
      }
      p := p + 1;
    }
  }

  // ---------------------------------------------------------------- the file

  /** The lines of a file; a final newline starts no further line. */
  function Lines(file: string): seq<string>
    decreases |file|
  {
    if file == "" then []
    else [file[..LineEnd(file)]] + Lines(Rest(file))
  }

  function Rest(s: string): (r: string)
    ensures s != "" ==> |r| < |s|
  {
    var e := LineEnd(s);
    if e < |s| then s[e + 1..] else ""
  }

  function TrimReturn(line: string): string {
    if line != "" && line[|line| - 1] == '\r' then line[..|line| - 1] else line
  }

  /** The entry on a line, none on an empty one. */
  function Entry(line: string): seq<string> {
    var t := TrimReturn(line);
    if t == "" then [] else [Unescape(t)]
  }

  function Entries(lines: seq<string>): seq<string> {
    if lines == [] then [] else Entry(lines[0]) + Entries(lines[1..])
  }

  function Last<T>(s: seq<T>, limit: nat): seq<T> { if |s| > limit then s[|s| - limit..] else s }

  function LoadRecent(file: string, limit: int): seq<string> {
    if limit <= 0 then [] else Entries(Last(Lines(file), limit))
  }

  function Append(file: string, text: string): string {
    if text == "" then file else file + Escape(text) + "\n"
  }

  class History {
    var file: string

    constructor (file: string)
      ensures this.file == file
    {
      this.file := file;
    }

    /** history_file_append: empty texts are not stored. */
    method AppendEntry(text: string)
      modifies this
      ensures file == Append(old(file), text)
    {
      if text == "" { return; }
      var escaped := EscapeNewlines(text);
      file := file + escaped + "\n";
    }

    /** history_file_load_recent. */
    method Load(limit: int) returns (entries: seq<string>)
      ensures entries == LoadRecent(file, limit)
    {
      hide Lines, Entries;
      if limit <= 0 { return []; }
      var total := CountLines(file);
      if total == 0 {
        NoEntries();
        return [];
      }
      var start := if total > limit then total - limit else 0;
      entries := CollectEntries(file, start);
      assert Last(Lines(file), limit) == Lines(file)[start..];
    }
  }

  lemma NoEntries()
    ensures Entries([]) == [] && Lines("") == []
  {
  }

  lemma {:induction false} LineCount(file: string)
    ensures |Lines(file)| == NewlineCount(file) + if file != "" && file[|file| - 1] != '\n' then 1 else 0
    decreases |file|
  {
    hide LineEnd;
    if file != "" {
      var rest := Rest(file);
      LineCount(rest);
      CountInLine(file);
    }
  }

  lemma {:induction false} CountInLine(s: string)
    ensures NewlineCount(s) == NewlineCount(Rest(s)) + if LineEnd(s) < |s| then 1 else 0
  {
    if s != "" && s[0] != '\n' {
      CountInLine(s[1..]);
      assert LineEnd(s) == LineEnd(s[1..]) + 1;
      assert Rest(s) == Rest(s[1..]);
    }
  }

  method CountLines(file: string) returns (total: nat)
    ensures total == |Lines(file)|
  {
    total := CountNewlines(file);
    if |file| > 0 && file[|file| - 1] != '\n' { total := total + 1; }
    LineCount(file);
  }

  /** The second pass: every character position, and one past the end, may end a line. */
  method CollectEntries(file: string, start: nat) returns (entries: seq<string>)
    requires start <= |Lines(file)|
    ensures entries == Entries(Lines(file)[start..])
  {
    hide Lines, Entries, Entry, LineEnd, Rest;
    entries := [];
    var index, lineStart := 0, 0;
    assert file[0..] == file;
    for i := 0 to |file| + 1
      invariant lineStart <= i && lineStart <= |file|
      invariant '\n' !in file[lineStart..if i <= |file| then i else |file|]
      invariant i == |file| + 1 ==> lineStart == |file|
      invariant index <= |Lines(file)| && Lines(file)[index..] == Lines(file[lineStart..])
      invariant entries + Entries(Lines(file)[if index > start then index else start..]) == Entries(Lines(file)[start..])
    {
      if i == |file| || file[i] == '\n' {
        LineFound(file, lineStart, i);
        var line := file[lineStart..i];
        if i < |file| || line != "" {
          EntriesStep(Lines(file), index, start);
          if index >= start {
            var more := ReadEntry(line);
            entries := entries + more;
          }
          index := index + 1;
        }
        lineStart := if i < |file| then i + 1 else i;
      }
    }
    NoEntries();
    assert file[|file|..] == "";
  }

  method ReadEntry(line: string) returns (entry: seq<string>)
    ensures entry == Entry(line)
  {
    var len := |line|;
    if len > 0 && line[len - 1] == '\r' { len := len - 1; }
    if len == 0 { return []; }
    var unescaped := UnescapeNewlines(line[..len]);
    assert line[..|line|] == line;
    entry := [unescaped];
  }

  /** The line that ends at i, and what follows it. */
  lemma LineFound(file: string, lineStart: nat, i: nat)
    requires lineStart <= i <= |file| && '\n' !in file[lineStart..i] && (i < |file| ==> file[i] == '\n')
    ensures Lines(file[lineStart..]) ==
            if i == |file| && lineStart == i then []
            else [file[lineStart..i]] + Lines(file[if i < |file| then i + 1 else i..])
  {
    var s := file[lineStart..];
    assert s[..i - lineStart] == file[lineStart..i];
    LineEndIs(s, i - lineStart);
    if i < |file| { assert s[i - lineStart + 1..] == file[i + 1..]; } else { assert file[i..] == ""; }
  }

  lemma EntriesStep(lines: seq<string>, index: nat, start: nat)
    requires index < |lines|
    ensures index >= start ==> Entries(lines[index..]) == Entry(lines[index]) + Entries(lines[index + 1..])
  {
    assert lines[index..][1..] == lines[index + 1..];
  }
}
