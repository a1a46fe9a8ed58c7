/** The C string functions that the text algorithms share. A pointer into a string is modelled by
    the suffix it points at; strings hold no NUL. */
module Text {
  import opened Wrappers

  /** isspace in the C locale. */
  predicate IsSpace(c: char) { c as int == 32 || 9 <= c as int <= 13 }

  /** The pattern p stands at index i of s. */
  predicate At(s: string, p: string, i: nat) { i + |p| <= |s| && s[i..i + |p|] == p }

  /** p stands nowhere in s. */
  ghost predicate Free(s: string, p: string) { forall i: nat :: !At(s, p, i) }

  /** strstr: the index of the first occurrence. */
  function Find(s: string, p: string): (r: Option<nat>)
    ensures r.Some? ==> At(s, p, r.value)
  {
    if At(s, p, 0) then Some(0)
    else if s == "" then None
    else
      match Find(s[1..], p)
      case None => None
      case Some(k) => assert s[1..][k..k + |p|] == s[k + 1..k + 1 + |p|]; Some(k + 1)
  }

  lemma FoundWithin(s: string, p: string)
    ensures Find(s, p).Some? ==> Find(s, p).value + |p| <= |s|
  {
    hide Find;
  }

  /** Find is exact: it misses nothing, and nothing before its answer. */
  lemma {:induction false} FindMissesNothing(s: string, p: string, i: nat)
    requires At(s, p, i)
    ensures Find(s, p).Some? && Find(s, p).value <= i
  {
    if !At(s, p, 0) {
      assert s[1..][i - 1..i - 1 + |p|] == s[i..i + |p|];
      FindMissesNothing(s[1..], p, i - 1);
    }
  }

  lemma FindNone(s: string, p: string)
    ensures Find(s, p).None? <==> Free(s, p)
  {
    if Find(s, p).None? {
      forall i: nat ensures !At(s, p, i) {
        if At(s, p, i) { FindMissesNothing(s, p, i); }
      }
    }
  }

  /** The first occurrence is the one with none before it. */
  lemma FindIs(s: string, p: string, k: nat)
    requires At(s, p, k) && forall i :: 0 <= i < k ==> !At(s, p, i)
    ensures Find(s, p) == Some(k)
  {
    FindMissesNothing(s, p, k);
  }

  /** The index of the first newline, or the length. */
  function LineEnd(s: string): (e: nat)
    ensures e <= |s| && (e < |s| ==> s[e] == '\n') && '\n' !in s[..e]
  {
    if s == "" || s[0] == '\n' then 0
    else
      var e := LineEnd(s[1..]) + 1;
      assert s[..e] == [s[0]] + s[1..][..e - 1];
      e
  }

  lemma {:induction false} LineEndIs(s: string, e: nat)
    requires e <= |s| && (e < |s| ==> s[e] == '\n') && '\n' !in s[..e]
    ensures LineEnd(s) == e
  {
    if e > 0 {
      assert s[..e][0] == s[0] && s[..e][1..] == s[1..][..e - 1];
      LineEndIs(s[1..], e - 1);
    }
  }

  function TrimLeft(s: string): string {
    if s != "" && IsSpace(s[0]) then TrimLeft(s[1..]) else s
  }

  function TrimRight(s: string): string {
    if s != "" && IsSpace(s[|s| - 1]) then TrimRight(s[..|s| - 1]) else s
  }

  function Trim(s: string): string { TrimRight(TrimLeft(s)) }

  /** Neither end is a space. */
  predicate Trimmed(s: string) { s != "" ==> !IsSpace(s[0]) && !IsSpace(s[|s| - 1]) }

  lemma {:induction false} TrimLeftFacts(s: string)
    ensures TrimLeft(s) != "" ==> !IsSpace(TrimLeft(s)[0])
    ensures |TrimLeft(s)| <= |s| && TrimLeft(s) == s[|s| - |TrimLeft(s)|..]
  {
    if s != "" && IsSpace(s[0]) { TrimLeftFacts(s[1..]); }
  }

  lemma {:induction false} TrimRightFacts(s: string)
    ensures TrimRight(s) != "" ==> !IsSpace(TrimRight(s)[|TrimRight(s)| - 1])
    ensures TrimRight(s) <= s
    ensures s != "" && !IsSpace(s[0]) ==> TrimRight(s) != ""
  {
    if s != "" && IsSpace(s[|s| - 1]) { TrimRightFacts(s[..|s| - 1]); }
  }

  lemma TrimFacts(s: string)
    ensures Trimmed(Trim(s))
    ensures s != "" && !IsSpace(s[0]) ==> Trim(s) != ""
  {
    TrimLeftFacts(s);
    TrimRightFacts(TrimLeft(s));
  }

  /** Skipping the spaces that `while (isspace(*p)) p++` skips. */
  method SkipSpaces(s: string) returns (r: string)
    ensures r == TrimLeft(s)
  {
    var i := 0;
    while i < |s| && IsSpace(s[i])
      invariant i <= |s| && TrimLeft(s[i..]) == TrimLeft(s)
    {
      assert s[i..][1..] == s[i + 1..];
      i := i + 1;
    }
    r := s[i..];
  }

  lemma TrimRightDrop(t: string, end: nat)
    requires end < |t| && IsSpace(t[end])
    ensures TrimRight(t[..end + 1]) == TrimRight(t[..end])
  {
    assert t[..end + 1][..end] == t[..end];
  }

  lemma TrimRightStop(t: string)
    requires t != "" && !IsSpace(t[|t| - 1])
    ensures TrimRight(t) == t
  {
  }

  /** trim_whitespace: from the left, then back from the end while that is past the start. */
  method TrimWhitespace(s: string) returns (r: string)
    ensures r == Trim(s)
  {
    hide TrimRight, TrimLeft, IsSpace;
    var t := SkipSpaces(s);
    TrimLeftFacts(s);
    if t == "" {
      r := "";
      TrimRightFacts(t);
      return;
    }
    var end := |t| - 1;
    assert t[..end + 1] == t;
    while end > 0 && IsSpace(t[end])
      invariant 0 <= end < |t| && TrimRight(t[..end + 1]) == TrimRight(t)
    {
      TrimRightDrop(t, end);
      end := end - 1;
    }
    r := t[..end + 1];
    TrimRightStop(r);
  }

  /** Where the current line ends. */
  method ScanLine(s: string) returns (e: nat)
    ensures e == LineEnd(s)
  {
    e := 0;
    while e < |s| && s[e] != '\n'
      invariant e <= |s| && '\n' !in s[..e]
    {
      e := e + 1;
    }
    LineEndIs(s, e);
  }

  // ---------------------------------------------------------------- slices

  lemma SuffixOfSuffix(s: string, i: nat, j: nat)
    requires i + j <= |s|
    ensures s[i..][j..] == s[i + j..]
  {
  }

  /** A text in three parts, cut behind the second. */
  lemma CutParts(a: string, b: string, c: string)
    ensures var s, n := a + (b + c), |a| + |b|;
            |s| == n + |c| && s[n..] == c && s[..n] == a + b && s[0..n] == a + b && s[|a|..] == b + c
  {
  }

  lemma MiddleStands(a: string, p: string, c: string)
    ensures At(a + (p + c), p, |a|) && (a + (p + c))[..|a|] == a
  {
    var s := a + (p + c);
    assert s[|a|..|a| + |p|] == p;
  }

  /** A text cut around an occurrence. */
  lemma CutAround(s: string, p: string, k: nat)
    requires At(s, p, k)
    ensures k + |p| <= |s| && s == s[..k] + (p + s[k + |p|..])
  {
    assert s[k..] == s[k..k + |p|] + s[k + |p|..];
    assert s == s[..k] + s[k..];
  }

  // ---------------------------------------------------------------- occurrences and concatenation

  /** A pattern without newline does not reach over a newline. */
  lemma AtAfterLine(a: string, b: string, p: string, i: nat)
    requires a != "" ==> a[|a| - 1] == '\n'
    requires '\n' !in p && p != "" && Free(a, p)
    ensures At(a + b, p, i) <==> i >= |a| && At(b, p, i - |a|)
  {
    var s := a + b;
    if i >= |a| {
      if i + |p| <= |s| { assert s[i..i + |p|] == b[i - |a|..i - |a| + |p|]; }
    } else if i + |p| <= |a| {
      assert s[i..i + |p|] == a[i..i + |p|];
      assert !At(a, p, i);
    } else {
      assert s[|a| - 1] == '\n';
      NewlineInside(s, p, i, |a| - 1);
    }
  }

  lemma NewlineInside(s: string, p: string, i: nat, k: nat)
    requires i <= k < |s| && k < i + |p| && s[k] == '\n'
    ensures At(s, p, i) ==> '\n' in p
  {
    if At(s, p, i) { assert s[i..i + |p|][k - i] == '\n'; }
  }

  lemma FindAfterLine(a: string, b: string, p: string)
    requires a != "" ==> a[|a| - 1] == '\n'
    requires '\n' !in p && p != "" && Free(a, p)
    ensures Find(a + b, p) == match Find(b, p) case Some(k) => Some(|a| + k) case None => None
  {
    hide At, Find, Free;
    match Find(b, p)
    case Some(k) =>
      AtAfterLine(a, b, p, |a| + k);
      forall i | 0 <= i < |a| + k ensures !At(a + b, p, i) { NotBefore(a, b, p, k, i); }
      FindIs(a + b, p, |a| + k);
    case None =>
      FindNone(b, p);
      FreeAfterLine(a, b, p);
      FindNone(a + b, p);
  }

  lemma NotBefore(a: string, b: string, p: string, k: nat, i: nat)
    requires a != "" ==> a[|a| - 1] == '\n'
    requires '\n' !in p && p != "" && Free(a, p)
    requires Find(b, p) == Some(k) && i < |a| + k
    ensures !At(a + b, p, i)
  {
    hide At, Find, Free;
    AtAfterLine(a, b, p, i);
    if i >= |a| && At(b, p, i - |a|) { FindMissesNothing(b, p, i - |a|); }
  }

  lemma FreeAfterLine(a: string, b: string, p: string)
    requires a != "" ==> a[|a| - 1] == '\n'
    requires '\n' !in p && p != "" && Free(a, p)
    ensures Free(a + b, p) <==> Free(b, p)
  {
    forall i: nat ensures At(a + b, p, i) <==> i >= |a| && At(b, p, i - |a|) { AtAfterLine(a, b, p, i); }
    if Free(a + b, p) {
      forall i: nat ensures !At(b, p, i) { assert !At(a + b, p, i + |a|); }
    }
  }

  lemma AtPart(s: string, p: string, i: nat, j: nat, k: nat)
    requires i <= j <= |s|
    ensures At(s[i..j], p, k) ==> At(s, p, i + k)
  {
    var part := s[i..j];
    if At(part, p, k) {
      var n := k + |p|;
      assert part[k..n] == s[i + k..i + n] by {
        forall q | 0 <= q < |p| ensures part[k..n][q] == s[i + k..i + n][q] {
          assert part[k + q] == s[i + k + q];
        }
      }
    }
  }

  /** A part of a text free of p is free of p. */
  lemma FreePart(s: string, p: string, i: nat, j: nat)
    requires i <= j <= |s| && Free(s, p)
    ensures Free(s[i..j], p)
  {
    forall k: nat ensures !At(s[i..j], p, k) { AtPart(s, p, i, j, k); }
  }
}
