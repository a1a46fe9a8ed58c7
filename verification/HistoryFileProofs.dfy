/** What survives a trip through the history file, exactly. */
module HistoryFileProofs {
  import opened Text
  import opened HistoryFile

  /** A backslash directly followed by the letter n somewhere in the text. */
  ghost predicate HasPair(t: string) { exists i :: 0 <= i < |t| - 1 && t[i] == '\\' && t[i + 1] == 'n' }

  lemma {:induction false} NoPairNoEscape(t: string)
    ensures EscapeCount(t) == 0 <==> !HasPair(t)
  {
    if t != "" {
      if EscapedNewline(t) {
        assert HasPair(t);
      } else {
        NoPairNoEscape(t[1..]);
        if HasPair(t) {
          var i :| 0 <= i < |t| - 1 && t[i] == '\\' && t[i + 1] == 'n';
          assert t[1..][i - 1] == '\\' && t[1..][i] == 'n';
        }
        if HasPair(t[1..]) {
          var i :| 0 <= i < |t[1..]| - 1 && t[1..][i] == '\\' && t[1..][i + 1] == 'n';
          assert t[i + 1] == '\\' && t[i + 2] == 'n';
        }
      }
    }
  }

  /** Unescaping does not see whether a text was escaped before. */
  lemma {:induction false} UnescapeEscape(t: string)
    ensures Unescape(Escape(t)) == Unescape(t)
  {
    if t != "" {
      var rest := t[1..];
      UnescapeEscape(rest);
      if t[0] == '\n' {
        assert Escape(t)[2..] == Escape(rest);
      } else {
        assert Escape(t)[1..] == Escape(rest);
        if EscapedNewline(t) {
          UnescapeEscape(t[2..]);
          assert rest[1..] == t[2..];
          assert Escape(t)[2..] == Escape(t[2..]);
        }
      }
    }
  }

  /** The escaping is undone exactly for texts without a backslash directly followed by n. */
  lemma {:induction false} EscapeRoundTripExactly(t: string)
    ensures Unescape(Escape(t)) == t <==> !HasPair(t)
  {
    UnescapeEscape(t);
    UnescapeLength(t);
    NoPairNoEscape(t);
  }

  // ---------------------------------------------------------------- lines of an appended file

  predicate Terminated(file: string) { file != "" ==> file[|file| - 1] == '\n' }

  lemma {:induction false} EscapeHasNoNewline(t: string)
    ensures '\n' !in Escape(t)
  {
    if t != "" { EscapeHasNoNewline(t[1..]); }
  }

  lemma {:induction false} LinesAppend(file: string, line: string)
    requires Terminated(file) && '\n' !in line
    ensures Lines(file + line + "\n") == Lines(file) + [line]
    decreases |file|
  {
    hide LineEnd, Lines;
    NoEntries();
    var s := file + line + "\n";
    if file == "" {
      assert s == line + "\n";
      assert s[..|line|] == line;
      LineEndIs(s, |line|);
      LinesCons(s);
      assert Rest(s) == "";
    } else {
      var e := LineEnd(file);
      FirstNewline(file);
      assert s[..e] == file[..e];
      LineEndIs(s, e);
      assert Rest(s) == s[e + 1..] == Rest(file) + line + "\n";
      LinesAppend(Rest(file), line);
      assert Lines(s) == [file[..e]] + Lines(Rest(s)) by { LinesCons(s); }
      assert Lines(file) == [file[..e]] + Lines(Rest(file)) by { LinesCons(file); }
    }
  }

  lemma LinesCons(file: string)
    requires file != ""
    ensures Lines(file) == [file[..LineEnd(file)]] + Lines(Rest(file))
  {
    hide LineEnd;
  }

  lemma FirstNewline(file: string)
    requires file != "" && Terminated(file)
    ensures LineEnd(file) < |file| && Terminated(file[LineEnd(file) + 1..])
  {
    hide LineEnd;
    assert file[..|file|] == file && file[|file| - 1] in file;
    var e := LineEnd(file);
    if e < |file| {
      var rest := file[e + 1..];
      assert rest != "" ==> rest[|rest| - 1] == file[|file| - 1];
    }
  }

  function AppendAll(file: string, texts: seq<string>): string
    decreases |texts|
  {
    if texts == [] then file else AppendAll(Append(file, texts[0]), texts[1..])
  }

  function NonEmpty(texts: seq<string>): seq<string> {
    if texts == [] then [] else (if texts[0] == "" then [] else [texts[0]]) + NonEmpty(texts[1..])
  }

  function EscapeAll(texts: seq<string>): (r: seq<string>)
    ensures |r| == |texts|
    ensures forall i :: 0 <= i < |r| ==> r[i] == Escape(texts[i])
  {
    if texts == [] then [] else [Escape(texts[0])] + EscapeAll(texts[1..])
  }

  /** Each stored text adds its own escaped line. */
  lemma {:induction false} AppendedLines(file: string, texts: seq<string>)
    requires Terminated(file)
    ensures Terminated(AppendAll(file, texts))
    ensures Lines(AppendAll(file, texts)) == Lines(file) + EscapeAll(NonEmpty(texts))
    decreases |texts|
  {
    hide Lines, Escape;
    if texts != [] {
      var t := texts[0];
      var next := Append(file, t);
      if t != "" {
        EscapeHasNoNewline(t);
        LinesAppend(file, Escape(t));
        EscapeAllCons(t, NonEmpty(texts[1..]));
      } else {
        assert [] + NonEmpty(texts[1..]) == NonEmpty(texts[1..]);
      }
      AppendedLines(next, texts[1..]);
    }
  }

  lemma EscapeAllCons(t: string, rest: seq<string>)
    ensures EscapeAll([t] + rest) == [Escape(t)] + EscapeAll(rest)
  {
    assert ([t] + rest)[1..] == rest;
  }

  // ---------------------------------------------------------------- loading

  /** A text that comes back unchanged: no backslash-n pair, no carriage return at its end. */
  ghost predicate Storable(t: string) { t != "" && !HasPair(t) && t[|t| - 1] != '\r' }

  lemma {:induction false} EscapeLast(t: string)
    requires t != ""
    ensures Escape(t) != "" && (Escape(t)[|Escape(t)| - 1] == '\r' <==> t[|t| - 1] == '\r')
  {
    if |t| > 1 {
      EscapeLast(t[1..]);
    } else {
      assert t[1..] == "";
      EscapeNone();
    }
  }

  lemma EscapeCons(t: string)
    requires t != ""
    ensures Escape(t) == (if t[0] == '\n' then "\\n" else [t[0]]) + Escape(t[1..])
  {
  }

  lemma {:induction false} EscapeButLast(t: string)
    requires t != "" && t[|t| - 1] == '\r'
    ensures Escape(t)[..|Escape(t)| - 1] == Escape(t[..|t| - 1])
  {
    if |t| > 1 {
      hide Escape;
      var rest := t[1..];
      var first := if t[0] == '\n' then "\\n" else [t[0]];
      EscapeButLast(rest);
      EscapeLast(rest);
      assert Escape(t) == first + Escape(rest) by { EscapeCons(t); }
      assert t[..|t| - 1][1..] == rest[..|rest| - 1];
      assert Escape(t[..|t| - 1]) == first + Escape(rest[..|rest| - 1]) by { EscapeCons(t[..|t| - 1]); }
    } else {
      assert t[1..] == "" && t[..0] == "";
      EscapeNone();
    }
  }

  /** What one stored text is loaded as. */
  lemma EntryOfStored(t: string)
    requires t != ""
    ensures Entry(Escape(t)) == if TrimReturn(t) == "" then [] else [Unescape(TrimReturn(t))]
  {
    hide Escape, Unescape;
    EscapeLast(t);
    if t[|t| - 1] == '\r' {
      EscapeButLast(t);
      var u := t[..|t| - 1];
      assert TrimReturn(Escape(t)) == Escape(u);
      UnescapeEscape(u);
      EscapeNone();
      if u != "" { EscapeLast(u); }
    } else {
      UnescapeEscape(t);
    }
  }

  lemma StoredUnchangedExactly(t: string)
    requires t != ""
    ensures Entry(Escape(t)) == [t] <==> Storable(t)
    ensures |Entry(Escape(t))| <= 1
  {
    hide Unescape, Escape;
    EntryOfStored(t);
    UnescapeLength(TrimReturn(t));
    NoPairNoEscape(t);
    UnescapeLength(t);
  }

  lemma {:induction false} EntriesUnchangedExactly(texts: seq<string>)
    requires forall i :: 0 <= i < |texts| ==> texts[i] != ""
    ensures Entries(EscapeAll(texts)) == texts <==> forall t :: t in texts ==> Storable(t)
    ensures |Entries(EscapeAll(texts))| <= |texts|
  {
    hide Entry, Storable, Escape, Entries;
    if texts == [] {
      NoEntries();
    } else {
      var t, rest := texts[0], texts[1..];
      StoredUnchangedExactly(t);
      EntriesUnchangedExactly(rest);
      var entry, more := Entry(Escape(t)), Entries(EscapeAll(rest));
      assert Entries(EscapeAll(texts)) == entry + more by { EntriesCons(Escape(t), EscapeAll(rest)); }
      assert texts == [t] + rest;
      FirstAndRest(entry, more, t, rest);
    }
  }

  lemma EntriesCons(line: string, rest: seq<string>)
    ensures Entries([line] + rest) == Entry(line) + Entries(rest)
  {
    assert ([line] + rest)[1..] == rest;
  }

  /** With at most one entry in front and no more entries than texts behind, equality splits. */
  lemma FirstAndRest(entry: seq<string>, more: seq<string>, t: string, rest: seq<string>)
    requires |entry| <= 1 && |more| <= |rest|
    ensures entry + more == [t] + rest <==> entry == [t] && more == rest
  {
    if entry + more == [t] + rest {
      assert |entry| == 1 && entry[0] == (entry + more)[0];
      assert more == (entry + more)[1..] && rest == ([t] + rest)[1..];
    }
  }

  lemma {:induction false} NonEmptyTexts(texts: seq<string>)
    ensures forall i :: 0 <= i < |NonEmpty(texts)| ==> NonEmpty(texts)[i] != ""
  {
    if texts != [] { NonEmptyTexts(texts[1..]); }
  }

  lemma EscapeAllLast(texts: seq<string>, limit: nat)
    ensures Last(EscapeAll(texts), limit) == EscapeAll(Last(texts, limit))
  {
  }

  /** Appending any texts to an empty file and loading with a limit gives back the last `limit`
      non-empty texts in order, exactly when each of these is storable. */
  lemma {:induction false} LoadGivesLastTextsExactly(texts: seq<string>, limit: nat)
    requires limit > 0
    ensures LoadRecent(AppendAll("", texts), limit) == Last(NonEmpty(texts), limit) <==>
            forall t :: t in Last(NonEmpty(texts), limit) ==> Storable(t)
  {
    hide Entries, Storable, Lines, AppendAll, NonEmpty, EscapeAll, Last;
    var stored := NonEmpty(texts);
    AppendedLines("", texts);
    NoEntries();
    assert [] + EscapeAll(stored) == EscapeAll(stored);
    EscapeAllLast(stored, limit);
    NonEmptyTexts(texts);
    LastNonEmpty(stored, limit);
    EntriesUnchangedExactly(Last(stored, limit));
  }

  lemma LastNonEmpty(texts: seq<string>, limit: nat)
    requires forall i :: 0 <= i < |texts| ==> texts[i] != ""
    ensures forall i :: 0 <= i < |Last(texts, limit)| ==> Last(texts, limit)[i] != ""
  {
  }

  /** Two texts that do not survive: a backslash followed by n becomes a newline, and a carriage
      return at the end is cut off. */
  lemma {:induction false} LostTexts()
    ensures LoadRecent(AppendAll("", ["\\n"]), 1) != ["\\n"]
    ensures LoadRecent(AppendAll("", ["a\r"]), 1) != ["a\r"]
  {
    hide LoadRecent, AppendAll;
    var pair, ret := "\\n", "a\r";
    assert pair[0] == '\\' && pair[1] == 'n' && HasPair(pair);
    assert NonEmpty([pair]) == [pair] && NonEmpty([ret]) == [ret];
    assert pair in [pair] && ret in [ret];
    LoadGivesLastTextsExactly([pair], 1);
    LoadGivesLastTextsExactly([ret], 1);
  }

  // ---------------------------------------------------------------- files written by others

  /** Unescaping turns the first backslash-n pair into a newline and goes on behind it; a text
      without a pair is left alone. */
  lemma {:induction false} UnescapeExactly(a: string, b: string)
    requires !HasPair(a)
    ensures Unescape(a) == a && Unescape(a + "\\n" + b) == a + "\n" + Unescape(b)
  {
    NoPairNoEscape(a);
    UnescapeLength(a);
    FirstPair(a, b);
  }

  lemma {:induction false} FirstPair(a: string, b: string)
    requires !HasPair(a)
    ensures Unescape(a + "\\n" + b) == a + "\n" + Unescape(b)
  {
    var s := a + "\\n" + b;
    if a == "" {
      assert s[2..] == b;
    } else {
      assert s[1..] == a[1..] + "\\n" + b;
      assert !EscapedNewline(s) by { if |a| > 1 { assert s[1] == a[1]; } }
      forall i | 0 <= i < |a[1..]| - 1 ensures !(a[1..][i] == '\\' && a[1..][i + 1] == 'n') { assert !(a[i + 1] == '\\' && a[i + 2] == 'n'); }
      FirstPair(a[1..], b);
      assert a == [a[0]] + a[1..];
    }
  }

  /** The lines of a file, each ended by a newline, and perhaps one that is not. */
  function FileOf(lines: seq<string>, unfinished: string): string {
    if lines == [] then unfinished else lines[0] + "\n" + FileOf(lines[1..], unfinished)
  }

  function AllLines(lines: seq<string>, unfinished: string): seq<string> { if unfinished == "" then lines else lines + [unfinished] }

  lemma {:induction false} LinesOfFile(lines: seq<string>, unfinished: string)
    requires (forall l :: l in lines ==> '\n' !in l) && '\n' !in unfinished
    ensures Lines(FileOf(lines, unfinished)) == AllLines(lines, unfinished)
  {
    hide LineEnd;
    if lines == [] {
      if unfinished != "" {
        assert unfinished[..|unfinished|] == unfinished;
        LineEndIs(unfinished, |unfinished|);
      }
    } else {
      var rest := FileOf(lines[1..], unfinished);
      var s := lines[0] + "\n" + rest;
      assert s[..|lines[0]|] == lines[0] && s[|lines[0]| + 1..] == rest;
      LineEndIs(s, |lines[0]|);
      LinesOfFile(lines[1..], unfinished);
      assert AllLines(lines, unfinished) == [lines[0]] + AllLines(lines[1..], unfinished);
    }
  }

  /** What a line is loaded as: without one final carriage return, unescaped, and not at all when
      nothing is left. */
  function Loaded(line: string): seq<string> {
    var text := if line != "" && line[|line| - 1] == '\r' then line[..|line| - 1] else line;
    if text == "" then [] else [Unescape(text)]
  }

  /** The entries of lines, in order. */
  ghost predicate EntriesOf(entries: seq<string>, lines: seq<string>)
    decreases |lines|
  {
    if lines == [] then entries == []
    else Loaded(lines[0]) <= entries && EntriesOf(entries[|Loaded(lines[0])|..], lines[1..])
  }

  lemma {:induction false} EntriesAre(lines: seq<string>)
    ensures EntriesOf(Entries(lines), lines)
  {
    if lines != [] {
      EntriesAre(lines[1..]);
      var first := Loaded(lines[0]);
      assert Entries(lines) == first + Entries(lines[1..]);
      assert Entries(lines)[|first|..] == Entries(lines[1..]);
    }
  }

  lemma {:induction false} EntriesUnique(a: seq<string>, b: seq<string>, lines: seq<string>)
    requires EntriesOf(a, lines) && EntriesOf(b, lines)
    ensures a == b
    decreases |lines|
  {
    if lines != [] {
      var n := |Loaded(lines[0])|;
      EntriesUnique(a[n..], b[n..], lines[1..]);
      assert a == a[..n] + a[n..] && b == b[..n] + b[n..];
    }
  }

  /** Loading any file, whoever wrote it: the entries of its last lines, where a line without a
      final newline counts, and the limit counts empty lines too; none for a limit that is not
      positive. */
  lemma {:induction false} LoadOfAnyFile(lines: seq<string>, unfinished: string, limit: int, entries: seq<string>)
    requires (forall l :: l in lines ==> '\n' !in l) && '\n' !in unfinished
    ensures var all := AllLines(lines, unfinished);
            var first := if limit <= 0 then |all| else if |all| > limit then |all| - limit else 0;
            LoadRecent(FileOf(lines, unfinished), limit) == entries <==> EntriesOf(entries, all[first..])
  {
    hide Lines, Entries, EntriesOf;
    var all := AllLines(lines, unfinished);
    var first := if limit <= 0 then |all| else if |all| > limit then |all| - limit else 0;
    LinesOfFile(lines, unfinished);
    NoEntries();
    EntriesAre(all[first..]);
    assert LoadRecent(FileOf(lines, unfinished), limit) == Entries(all[first..]);
    if EntriesOf(entries, all[first..]) { EntriesUnique(entries, Entries(all[first..]), all[first..]); }
  }

  /** Appending never touches what is there. */
  lemma {:induction false} AppendsOnly(file: string, texts: seq<string>)
    ensures AppendAll(file, texts) == file + AppendAll("", texts)
    decreases |texts|
  {
    hide Escape;
    if texts != [] {
      AppendsOnly(Append(file, texts[0]), texts[1..]);
      AppendsOnly(Append("", texts[0]), texts[1..]);
      assert Append(file, texts[0]) == file + Append("", texts[0]);
    }
  }
}
