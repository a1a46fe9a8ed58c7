/** The single pass of the sanitiser as a chain of simple passes, one for each option. */
module SanitizerPipeline {
  import opened Text
  import opened Sanitizer

  /** Line ends as single newlines: a return becomes one, and a newline behind a return none. */
  function Unified(s: string): string {
    if s == "" then ""
    else
      var front, c := s[..|s| - 1], s[|s| - 1];
      Unified(front) + if c == '\r' then "\n" else if c == '\n' && EndsInReturn(front) then "" else [c]
  }

  predicate EndsInReturn(s: string) { s != "" && s[|s| - 1] == '\r' }

  /** Only printable characters, tabs and newlines. */
  function Filtered(s: string): string {
    if s == "" then ""
    else
      var c := s[|s| - 1];
      Filtered(s[..|s| - 1]) + if 32 <= c as int < 127 || c == '\t' || c == '\n' then [c] else ""
  }

  /** How many newlines stand behind the last printable character or tab. */
  function Run(s: string): nat {
    if s == "" then 0
    else
      var c := s[|s| - 1];
      if c == '\n' then Run(s[..|s| - 1]) + 1
      else if 32 <= c as int < 127 || c == '\t' then 0
      else Run(s[..|s| - 1])
  }

  /** At most two newlines of every run. */
  function Collapsed(s: string): string {
    if s == "" then ""
    else
      var front, c := s[..|s| - 1], s[|s| - 1];
      Collapsed(front) + if c == '\n' && Run(front) >= 2 then "" else [c]
  }

  function Pipeline(s: string, o: Options): string {
    var trimmed := if o.trim then TrimLeft(s) else s;
    var unified := if o.normalizeNewlines then Unified(trimmed) else trimmed;
    var filtered := if o.removeControl then Filtered(unified) else unified;
    var collapsed := if o.collapseNewlines then Collapsed(filtered) else filtered;
    if o.trim then TrimRight(collapsed) else collapsed
  }

  // ---------------------------------------------------------------- the loop, one character later

  /** The newline count after a text. */
  function CountAfter(s: string, n: nat, o: Options): nat
    decreases |s|
  {
    if s == "" then n else var (c, rest) := Next(s, o); CountAfter(rest, NewlinesAfter(c, n), o)
  }

  /** The newline that ends s + [c] belongs to the return before it. */
  predicate Joined(s: string, c: char, o: Options) { o.normalizeNewlines && c == '\n' && EndsInReturn(s) }

  function AsRead(c: char, o: Options): char { if o.normalizeNewlines && c == '\r' then '\n' else c }

  function Written(c: char, n: nat, o: Options): string { if Writes(c, n, o) then [c] else "" }

  lemma CleanNothing(n: nat, o: Options)
    ensures Clean("", n, o) == "" && CountAfter("", n, o) == n
  {
  }

  lemma CountStep(s: string, n: nat, o: Options)
    requires s != ""
    ensures CountAfter(s, n, o) == var (c, rest) := Next(s, o); CountAfter(rest, NewlinesAfter(c, n), o)
  {
  }

  /** Reading goes on in the same way when a character is added, save for a newline that joins. */
  lemma NextOfMore(s: string, c: char, o: Options)
    requires s != ""
    ensures var (d, rest) := Next(s, o);
            if |s| == 1 && Joined(s, c, o) then Next(s + [c], o) == (d, rest) && rest == ""
            else Next(s + [c], o) == (d, rest + [c]) && (Joined(rest, c, o) <==> Joined(s, c, o))
  {
    var t := s + [c];
    assert t[1..] == s[1..] + [c];
    if |s| > 1 { assert t[2..] == s[2..] + [c]; } else { assert t[2..] == ""; }
  }

  lemma {:induction false} CleanOfMore(s: string, c: char, n: nat, o: Options)
    ensures var count := CountAfter(s, n, o);
            && Clean(s + [c], n, o) == Clean(s, n, o) + (if Joined(s, c, o) then "" else Written(AsRead(c, o), count, o))
            && CountAfter(s + [c], n, o) == if Joined(s, c, o) then count else NewlinesAfter(AsRead(c, o), count)
    decreases |s|
  {
    hide Clean, Writes, NewlinesAfter, CountAfter, Next;
    if s == "" {
      OneChar(c, n, o);
      CleanNothing(n, o);
      assert s + [c] == [c];
    } else {
      var (d, rest) := Next(s, o);
      NextOfMore(s, c, o);
      CleanStep(s, n, o);
      CleanStep(s + [c], n, o);
      CountStep(s, n, o);
      CountStep(s + [c], n, o);
      if |s| == 1 && Joined(s, c, o) {
      } else {
        CleanOfMore(rest, c, NewlinesAfter(d, n), o);
        AddToThree(Written(d, n, o), Clean(rest, NewlinesAfter(d, n), o),
                   if Joined(s, c, o) then "" else Written(AsRead(c, o), CountAfter(s, n, o), o));
      }
    }
  }

  lemma AddToThree(a: string, b: string, c: string)
    ensures a + (b + c) == (a + b) + c
  {
  }

  lemma OneChar(c: char, n: nat, o: Options)
    ensures Clean([c], n, o) == Written(AsRead(c, o), n, o) && CountAfter([c], n, o) == NewlinesAfter(AsRead(c, o), n)
    ensures !Joined("", c, o)
  {
    hide Clean, Writes, NewlinesAfter;
    assert Next([c], o) == (AsRead(c, o), "");
    CleanStep([c], n, o);
    CleanNothing(NewlinesAfter(AsRead(c, o), n), o);
  }

  // ---------------------------------------------------------------- the chain, one character later

  function Unify(s: string, o: Options): string { if o.normalizeNewlines then Unified(s) else s }

  function Filter(s: string, o: Options): string { if o.removeControl then Filtered(s) else s }

  function Collapse(s: string, o: Options): string { if o.collapseNewlines then Collapsed(s) else s }

  lemma UnifyMore(s: string, c: char, o: Options)
    ensures Unify(s + [c], o) == Unify(s, o) + if Joined(s, c, o) then "" else [AsRead(c, o)]
  {
    assert (s + [c])[..|s|] == s;
  }

  lemma FilterMore(s: string, c: char, o: Options)
    ensures Filter(s + [c], o) == Filter(s, o) + if o.removeControl && !Printable(c) && c != '\n' then "" else [c]
  {
    assert (s + [c])[..|s|] == s;
  }

  lemma CollapseMore(s: string, c: char, o: Options)
    ensures Collapse(s + [c], o) == Collapse(s, o) + if o.collapseNewlines && c == '\n' && Run(s) >= 2 then "" else [c]
    ensures Run(s + [c]) == NewlinesAfter(c, Run(s))
  {
    assert (s + [c])[..|s|] == s;
  }

  /** Control characters do not count, whether they are still there or not. */
  lemma FilterRun(s: string, c: char, o: Options)
    requires o.removeControl && !Printable(c) && c != '\n'
    ensures NewlinesAfter(c, Run(s)) == Run(s)
  {
  }

  lemma {:induction false} LoopIsChain(s: string, o: Options)
    ensures var filtered := Filter(Unify(s, o), o);
            Clean(s, 0, o) == Collapse(filtered, o) && CountAfter(s, 0, o) == Run(filtered)
  {
    hide Clean, CountAfter, Unify, Filter, Collapse, Run, NewlinesAfter, Joined, AsRead;
    if s == "" {
      NothingInChain(o);
    } else {
      var front, c := s[..|s| - 1], s[|s| - 1];
      assert s == front + [c];
      LoopIsChain(front, o);
      CleanOfMore(front, c, 0, o);
      UnifyMore(front, c, o);
      if Joined(front, c, o) {
        assert Clean(front, 0, o) + "" == Clean(front, 0, o) && Unify(front, o) + "" == Unify(front, o);
      } else {
        OneLink(front, Unify(front, o), AsRead(c, o), o);
      }
    }
  }

  lemma OneLink(front: string, unified: string, d: char, o: Options)
    requires Clean(front, 0, o) == Collapse(Filter(unified, o), o) && CountAfter(front, 0, o) == Run(Filter(unified, o))
    ensures var filtered, count := Filter(unified + [d], o), Run(Filter(unified, o));
            && Clean(front, 0, o) + Written(d, count, o) == Collapse(filtered, o)
            && NewlinesAfter(d, count) == Run(filtered)
  {
    hide Clean, CountAfter, Filter, Collapse, Run;
    FilterMore(unified, d, o);
    var before := Filter(unified, o);
    if o.removeControl && !Printable(d) && d != '\n' {
      assert before + "" == before && Clean(front, 0, o) + "" == Clean(front, 0, o);
      FilterRun(before, d, o);
    } else {
      CollapseMore(before, d, o);
    }
  }

  lemma NothingInChain(o: Options)
    ensures Clean("", 0, o) == "" && CountAfter("", 0, o) == 0
    ensures Unify("", o) == "" && Filter("", o) == "" && Collapse("", o) == "" && Run("") == 0
  {
  }

  /** For every text and all options, the single pass does what the chain of simple passes does. */
  lemma {:induction false} SanitizeIsPipeline(s: string, o: Options)
    ensures Sanitize(s, o) == Pipeline(s, o)
  {
    hide Clean, Unified, Filtered, Collapsed, Run, TrimLeft, TrimRight;
    LoopIsChain(if o.trim then TrimLeft(s) else s, o);
  }
}
