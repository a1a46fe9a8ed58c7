/** What default sanitising leaves, and how often it has to be repeated. */
module SanitizerProofs {
  import opened Text
  import opened Sanitizer

  predicate Allowed(c: char) { Printable(c) || c == '\n' }

  ghost predicate OnlyAllowed(s: string) { forall i :: 0 <= i < |s| ==> Allowed(s[i]) }

  /** No three newlines in a row. */
  ghost predicate NoTriple(s: string) {
    forall i :: 0 <= i < |s| - 2 ==> !(s[i] == '\n' && s[i + 1] == '\n' && s[i + 2] == '\n')
  }

  /** The same with n newlines in front. */
  predicate RunsOk(s: string, n: nat) {
    s == "" || if s[0] == '\n' then n < 2 && RunsOk(s[1..], n + 1) else RunsOk(s[1..], 0)
  }

  lemma {:induction false} RunsFewer(s: string, n: nat, m: nat)
    requires RunsOk(s, n) && m <= n
    ensures RunsOk(s, m)
  {
    if s != "" && s[0] == '\n' { RunsFewer(s[1..], n + 1, m + 1); }
  }

  lemma {:induction false} RunsAreNoTriples(s: string)
    ensures RunsOk(s, 0) <==> NoTriple(s)
    ensures RunsOk(s, 1) <==> NoTriple(s) && !(|s| >= 2 && s[0] == '\n' && s[1] == '\n')
    ensures forall n: nat :: n >= 2 ==> (RunsOk(s, n) <==> NoTriple(s) && !(|s| >= 1 && s[0] == '\n'))
  {
    if s != "" {
      var rest := s[1..];
      RunsAreNoTriples(rest);
      NoTripleTail(s);
    }
  }

  lemma NoTripleTail(s: string)
    requires s != ""
    ensures NoTriple(s) <==> NoTriple(s[1..]) && !(|s| >= 3 && s[0] == '\n' && s[1] == '\n' && s[2] == '\n')
  {
    var rest := s[1..];
    if NoTriple(s) {
      forall i | 0 <= i < |rest| - 2 ensures !(rest[i] == '\n' && rest[i + 1] == '\n' && rest[i + 2] == '\n') {
        assert s[i + 1] == rest[i] && s[i + 2] == rest[i + 1] && s[i + 3] == rest[i + 2];
      }
    }
    if NoTriple(rest) {
      forall i | 1 <= i < |s| - 2 ensures !(s[i] == '\n' && s[i + 1] == '\n' && s[i + 2] == '\n') {
        assert rest[i - 1] == s[i] && rest[i] == s[i + 1] && rest[i + 1] == s[i + 2];
      }
    }
  }

  lemma SliceTidy(s: string, i: nat, j: nat)
    requires i <= j <= |s| && OnlyAllowed(s) && NoTriple(s)
    ensures OnlyAllowed(s[i..j]) && NoTriple(s[i..j])
  {
    var t := s[i..j];
    forall k | 0 <= k < |t| - 2 ensures !(t[k] == '\n' && t[k + 1] == '\n' && t[k + 2] == '\n') {
      assert t[k] == s[i + k] && t[k + 1] == s[i + k + 1] && t[k + 2] == s[i + k + 2];
    }
  }

  // ---------------------------------------------------------------- one pass

  lemma {:induction false} CleanIsTidy(s: string, n: nat)
    ensures OnlyAllowed(Clean(s, n, DEFAULTS)) && RunsOk(Clean(s, n, DEFAULTS), n)
    decreases |s|
  {
    hide Clean, Next;
    if s == "" {
      NothingToClean(DEFAULTS);
    } else {
      CleanStep(s, n, DEFAULTS);
      var (c, rest) := Next(s, DEFAULTS);
      var m := NewlinesAfter(c, n);
      CleanIsTidy(rest, m);
      if Writes(c, n, DEFAULTS) {
        assert ([c] + Clean(rest, m, DEFAULTS))[1..] == Clean(rest, m, DEFAULTS);
      } else {
        RunsFewer(Clean(rest, m, DEFAULTS), m, n);
        assert "" + Clean(rest, m, DEFAULTS) == Clean(rest, m, DEFAULTS);
      }
    }
  }

  /** Tidy text is not changed by the main loop. */
  lemma {:induction false} TidyIsClean(s: string, n: nat)
    requires OnlyAllowed(s) && RunsOk(s, n)
    ensures Clean(s, n, DEFAULTS) == s
  {
    if s != "" {
      assert s[0] != '\r' && Next(s, DEFAULTS) == (s[0], s[1..]);
      assert OnlyAllowed(s[1..]);
      TidyIsClean(s[1..], NewlinesAfter(s[0], n));
    }
  }

  lemma {:induction false} TrimRightKeeps(s: string)
    requires s != "" ==> !IsSpace(s[|s| - 1])
    ensures TrimRight(s) == s
  {
  }

  /** One pass leaves only printable characters, tabs and newlines, at most two newlines in a
      row, and no whitespace at the end. */
  lemma {:induction false} SanitizeIsTidy(s: string)
    ensures var out := Sanitize(s, DEFAULTS);
            OnlyAllowed(out) && NoTriple(out) && (out != "" ==> !IsSpace(out[|out| - 1]))
  {
    hide Clean, TrimLeft, TrimRight;
    var cleaned := Clean(TrimLeft(s), 0, DEFAULTS);
    CleanIsTidy(TrimLeft(s), 0);
    RunsAreNoTriples(cleaned);
    TrimRightFacts(cleaned);
    var out := TrimRight(cleaned);
    SliceTidy(cleaned, 0, |out|);
    assert cleaned[0..|out|] == out;
  }

  /** A second pass only removes leading whitespace. */
  lemma {:induction false} SecondPassTrims(s: string)
    ensures Sanitize(Sanitize(s, DEFAULTS), DEFAULTS) == TrimLeft(Sanitize(s, DEFAULTS))
  {
    hide Clean, Sanitize, TrimLeft, TrimRight;
    var out := Sanitize(s, DEFAULTS);
    SanitizeIsTidy(s);
    TidyIsTrimmedOnly(out);
  }

  lemma TidyIsTrimmedOnly(t: string)
    requires OnlyAllowed(t) && NoTriple(t) && (t != "" ==> !IsSpace(t[|t| - 1]))
    ensures Sanitize(t, DEFAULTS) == TrimLeft(t)
  {
    hide Clean, TrimLeft, TrimRight, IsSpace;
    var trimmed := TrimLeft(t);
    TrimLeftFacts(t);
    SliceTidy(t, |t| - |trimmed|, |t|);
    assert t[|t| - |trimmed|..|t|] == trimmed;
    RunsAreNoTriples(trimmed);
    TidyIsClean(trimmed, 0);
    TrimRightKeeps(trimmed);
  }

  lemma {:induction false} TrimLeftKeeps(s: string)
    requires s != "" ==> !IsSpace(s[0])
    ensures TrimLeft(s) == s
  {
  }

  /** Sanitising reaches a fixed point after at most two passes. */
  lemma {:induction false} FixedAfterTwoPasses(s: string)
    ensures var twice := Sanitize(Sanitize(s, DEFAULTS), DEFAULTS);
            Sanitize(twice, DEFAULTS) == twice
  {
    hide Sanitize, TrimLeft, IsSpace;
    SecondPassTrims(s);
    SecondPassTrims(Sanitize(s, DEFAULTS));
    var out := Sanitize(s, DEFAULTS);
    TrimLeftFacts(out);
    TrimLeftKeeps(TrimLeft(out));
  }

  // ---------------------------------------------------------------- when one pass is enough

  predicate Visible(c: char) { 32 < c as int < 127 }

  ghost predicate SomeVisible(s: string) { exists i :: 0 <= i < |s| && Visible(s[i]) }

  lemma VisibleCons(c: char, rest: string)
    ensures SomeVisible([c] + rest) <==> Visible(c) || SomeVisible(rest)
  {
    var s := [c] + rest;
    if SomeVisible(rest) {
      var i :| 0 <= i < |rest| && Visible(rest[i]);
      assert s[i + 1] == rest[i];
    }
    if Visible(c) { assert s[0] == c; }
    if SomeVisible(s) {
      var i :| 0 <= i < |s| && Visible(s[i]);
      if i > 0 { assert rest[i - 1] == s[i]; }
    }
  }

  lemma {:induction false} CleanKeepsVisible(s: string, n: nat)
    ensures SomeVisible(Clean(s, n, DEFAULTS)) <==> SomeVisible(s)
    decreases |s|
  {
    hide Clean, SomeVisible, Next;
    if s == "" {
      NothingToClean(DEFAULTS);
    } else {
      CleanStep(s, n, DEFAULTS);
      var (c, rest) := Next(s, DEFAULTS);
      var m := NewlinesAfter(c, n);
      CleanKeepsVisible(rest, m);
      VisibleCons(c, Clean(rest, m, DEFAULTS));
      assert "" + Clean(rest, m, DEFAULTS) == Clean(rest, m, DEFAULTS);
      NextVisible(s);
    }
  }

  lemma NextVisible(s: string)
    requires s != ""
    ensures var (c, rest) := Next(s, DEFAULTS); SomeVisible(s) <==> Visible(c) || SomeVisible(rest)
  {
    hide SomeVisible;
    VisibleCons(s[0], s[1..]);
    assert [s[0]] + s[1..] == s;
    if |s| > 1 && s[0] == '\r' && s[1] == '\n' {
      VisibleCons(s[1], s[2..]);
      assert [s[1]] + s[2..] == s[1..];
    }
  }

  lemma {:induction false} TrimLeftVisible(s: string)
    ensures SomeVisible(TrimLeft(s)) <==> SomeVisible(s)
  {
    hide SomeVisible;
    if s != "" && IsSpace(s[0]) {
      TrimLeftVisible(s[1..]);
      VisibleCons(s[0], s[1..]);
      assert [s[0]] + s[1..] == s;
    }
  }

  lemma {:induction false} TrimRightEmpty(s: string)
    requires OnlyAllowed(s)
    ensures TrimRight(s) == "" <==> !SomeVisible(s)
  {
    if s != "" {
      var front, c := s[..|s| - 1], s[|s| - 1];
      TrimRightEmpty(front);
      if IsSpace(c) {
        assert forall i :: 0 <= i < |front| ==> front[i] == s[i];
        if SomeVisible(s) {
          var i :| 0 <= i < |s| && Visible(s[i]);
          assert front[i] == s[i];
        }
      } else {
        assert Visible(c);
        TrimRightFacts(s);
      }
    }
  }

  /** The result is empty exactly when the text has no visible character. */
  lemma {:induction false} EmptyExactly(s: string)
    ensures Sanitize(s, DEFAULTS) == "" <==> !SomeVisible(s)
  {
    hide Clean, TrimLeft, TrimRight, SomeVisible;
    CleanIsTidy(TrimLeft(s), 0);
    CleanKeepsVisible(TrimLeft(s), 0);
    TrimLeftVisible(s);
    TrimRightEmpty(Clean(TrimLeft(s), 0, DEFAULTS));
  }

  /** The text from its first character on that is not removed. */
  function DropRemoved(s: string): (r: string)
    ensures r != "" ==> Printable(r[0]) || r[0] == '\n' || r[0] == '\r'
  {
    if s != "" && !Printable(s[0]) && s[0] != '\n' && s[0] != '\r' then DropRemoved(s[1..]) else s
  }

  lemma {:induction false} CleanSkipsRemoved(s: string)
    ensures Clean(s, 0, DEFAULTS) == Clean(DropRemoved(s), 0, DEFAULTS)
  {
    if s != "" && !Printable(s[0]) && s[0] != '\n' && s[0] != '\r' { CleanSkipsRemoved(s[1..]); }
  }

  lemma FirstCleaned(s: string)
    requires s != "" && (Printable(s[0]) || s[0] == '\n' || s[0] == '\r')
    ensures var out := Clean(s, 0, DEFAULTS); out != "" && (IsSpace(out[0]) <==> IsSpace(s[0]))
  {
    hide Clean;
    CleanStep(s, 0, DEFAULTS);
  }

  /** One pass is enough exactly when, behind the leading whitespace and then the characters that
      are removed, no whitespace comes next, or when there is nothing visible at all. */
  lemma {:induction false} OnePassEnoughExactly(s: string)
    ensures Sanitize(Sanitize(s, DEFAULTS), DEFAULTS) == Sanitize(s, DEFAULTS) <==>
            !SomeVisible(s) || (var t := DropRemoved(TrimLeft(s)); t != "" && !IsSpace(t[0]))
  {
    hide Clean, TrimLeft, TrimRight, SomeVisible, DropRemoved, IsSpace;
    SecondPassTrims(s);
    EmptyExactly(s);
    var out := Sanitize(s, DEFAULTS);
    LeadingSpaceStays(out);
    TrimLeftFacts(out);
    if SomeVisible(s) { FirstOfResult(s); }
  }

  lemma LeadingSpaceStays(s: string)
    ensures TrimLeft(s) == s <==> s == "" || !IsSpace(s[0])
  {
    hide IsSpace;
    if s != "" && IsSpace(s[0]) { TrimLeftFacts(s[1..]); }
  }

  lemma FirstOfResult(s: string)
    requires SomeVisible(s)
    ensures var out, t := Sanitize(s, DEFAULTS), DropRemoved(TrimLeft(s));
            out != "" && t != "" && (IsSpace(out[0]) <==> IsSpace(t[0]))
  {
    hide Clean, TrimLeft, TrimRight, SomeVisible, DropRemoved, IsSpace;
    EmptyExactly(s);
    var t := DropRemoved(TrimLeft(s));
    var cleaned := Clean(TrimLeft(s), 0, DEFAULTS);
    CleanSkipsRemoved(TrimLeft(s));
    NothingToClean(DEFAULTS);
    TrimRightFacts(cleaned);
    assert t != "";
    FirstCleaned(t);
    assert TrimRight(cleaned)[0] == cleaned[0];
  }

  /** A control byte in front of a space: the first pass leaves the space, the second removes it. */
  lemma {:induction false} TwoPassesNeeded()
    ensures Sanitize(['\U{1}', ' ', 'a'], DEFAULTS) != Sanitize(Sanitize(['\U{1}', ' ', 'a'], DEFAULTS), DEFAULTS)
  {
    hide Sanitize, Clean;
    var s := ['\U{1}', ' ', 'a'];
    assert TrimLeft(s) == s;
    assert s[1..] == [' ', 'a'];
    assert DropRemoved(s) == [' ', 'a'];
    assert Visible(s[2]);
    OnePassEnoughExactly(s);
  }
}
