/** Replacing every occurrence of a text: count, compute the size in machine words, copy. */
module ReplaceAll {
  import opened Wrappers
  import opened Text

  const WORD: nat := 0x1_0000_0000_0000_0000

  /** The pieces between the occurrences found from left to right without overlap. */
  function Pieces(s: string, old_: string): (r: seq<string>)
    requires old_ != ""
    ensures r != []
    decreases |s|
  {
    match Find(s, old_)
    case None => [s]
    case Some(k) => [s[..k]] + Pieces(s[k + |old_|..], old_)
  }

  function Join(pieces: seq<string>, sep: string): string
    requires pieces != []
  {
    if |pieces| == 1 then pieces[0] else pieces[0] + sep + Join(pieces[1..], sep)
  }

  // ---------------------------------------------------------------- what the pieces are

  /** Each piece but the last is followed by the first occurrence of the separator, and the last
      piece holds none. */
  ghost predicate LeftmostSplit(pieces: seq<string>, sep: string)
    requires pieces != []
  {
    if |pieces| == 1 then Free(pieces[0], sep)
    else Find(Join(pieces, sep), sep) == Some(|pieces[0]|) && LeftmostSplit(pieces[1..], sep)
  }

  lemma {:induction false} PiecesJoin(s: string, old_: string)
    requires old_ != ""
    ensures Join(Pieces(s, old_), old_) == s
    decreases |s|
  {
    hide Find;
    match Find(s, old_)
    case None =>
    case Some(k) =>
      PiecesJoin(s[k + |old_|..], old_);
      PiecesCons(s, old_, k);
      assert s == s[..k] + old_ + s[k + |old_|..] by { assert s[k..k + |old_|] == old_; }
  }

  lemma PiecesCons(s: string, old_: string, k: nat)
    requires old_ != "" && Find(s, old_) == Some(k)
    ensures var rest := Pieces(s[k + |old_|..], old_);
            Pieces(s, old_) == [s[..k]] + rest && Pieces(s, old_)[1..] == rest && |Pieces(s, old_)| > 1
  {
    hide Find;
  }

  /** The pieces are the leftmost split of the text ... */
  lemma {:induction false} PiecesAreLeftmost(s: string, old_: string)
    requires old_ != ""
    ensures LeftmostSplit(Pieces(s, old_), old_)
    decreases |s|
  {
    hide Find, Free;
    PiecesJoin(s, old_);
    FindNone(s, old_);
    match Find(s, old_)
    case None =>
    case Some(k) =>
      PiecesAreLeftmost(s[k + |old_|..], old_);
      PiecesCons(s, old_, k);
  }

  /** ... and the only one. */
  lemma {:induction false} LeftmostSplitIsUnique(pieces: seq<string>, sep: string)
    requires sep != "" && pieces != [] && LeftmostSplit(pieces, sep)
    ensures Pieces(Join(pieces, sep), sep) == pieces
  {
    hide Find, Free;
    var s := Join(pieces, sep);
    FindNone(s, sep);
    if |pieces| > 1 {
      var k := |pieces[0]|;
      LeftmostSplitIsUnique(pieces[1..], sep);
      assert s[..k] == pieces[0] && s[k + |sep|..] == Join(pieces[1..], sep);
      PiecesCons(s, sep, k);
    }
  }

  // ---------------------------------------------------------------- when the loops end

  /** Where the search stands after n rounds of `pos = strstr(pos, old); pos += strlen(old)`, None
      when the loop has ended. */
  function AfterRounds(src: string, old_: string, n: nat): Option<string> {
    if n == 0 then Some(src)
    else
      match AfterRounds(src, old_, n - 1)
      case None => None
      case Some(rest) =>
        match Find(rest, old_)
        case None => None
        case Some(k) => Some(rest[k + |old_|..])
  }

  lemma {:induction false} RoundsConsume(src: string, old_: string, n: nat)
    ensures AfterRounds(src, old_, n).Some? ==> |AfterRounds(src, old_, n).value| + n * |old_| <= |src|
  {
    hide Find;
    if n > 0 {
      RoundsConsume(src, old_, n - 1);
      assert n * |old_| == (n - 1) * |old_| + |old_|;
    }
  }

  lemma {:induction false} EmptyPatternStays(src: string, n: nat)
    ensures AfterRounds(src, "", n) == Some(src)
  {
    if n > 0 { EmptyPatternStays(src, n - 1); }
  }

  /** The counting and copying loops end if and only if the pattern is not empty. */
  lemma {:induction false} LoopsEndExactly(src: string, old_: string)
    ensures (exists n :: AfterRounds(src, old_, n) == None) <==> old_ != ""
  {
    if old_ == "" {
      forall n ensures AfterRounds(src, old_, n) == Some(src) { EmptyPatternStays(src, n); }
    } else {
      var n := |src| + 1;
      RoundsConsume(src, old_, n);
      assert n * |old_| >= n by { AtLeastOnce(n, |old_|); }
      assert AfterRounds(src, old_, n) == None;
    }
  }

  lemma AtLeastOnce(n: nat, m: nat)
    requires m >= 1
    ensures n * m >= n
  {
  }

  // ---------------------------------------------------------------- lengths

  /** The bytes of the pieces alone. */
  function TotalLength(pieces: seq<string>): nat {
    if pieces == [] then 0 else |pieces[0]| + TotalLength(pieces[1..])
  }

  lemma {:induction false} JoinLength(pieces: seq<string>, sep: string)
    requires pieces != []
    ensures |Join(pieces, sep)| == TotalLength(pieces) + (|pieces| - 1) * |sep|
  {
    if |pieces| > 1 {
      JoinLength(pieces[1..], sep);
      assert (|pieces| - 1) * |sep| == (|pieces| - 2) * |sep| + |sep|;
    } else {
      assert pieces[1..] == [];
    }
  }

  /** The size expression of the C code, every operation modulo 2^64. */
  function WrappedLength(contentLen: nat, count: nat, oldLen: nat, newLen: nat): nat {
    (contentLen + count * ((newLen - oldLen) % WORD)) % WORD
  }

  lemma WrapIsExact(contentLen: nat, count: nat, oldLen: nat, newLen: nat, trueLen: int)
    requires trueLen == contentLen + count * (newLen - oldLen)
    ensures WrappedLength(contentLen, count, oldLen, newLen) == trueLen % WORD
  {
    var d := newLen - oldLen;
    var q := d / WORD;
    assert d == q * WORD + d % WORD;
    assert count * d == count * q * WORD + count * (d % WORD) by { Distribute(count, q * WORD, d % WORD); Regroup(count, q); }
    ModShift(contentLen + count * (d % WORD), count * q);
  }

  lemma Distribute(a: int, b: int, c: int)
    ensures a * (b + c) == a * b + a * c
  {
  }

  lemma Regroup(a: int, b: int)
    ensures a * (b * WORD) == a * b * WORD
  {
  }

  lemma ModShift(a: int, k: int)
    ensures (a + k * WORD) % WORD == a % WORD
  {
  }

  /** The computed size is the size of the result exactly when that fits in a machine word, even
      when the new text is shorter and the difference wraps around. */
  lemma {:induction false} LengthExactWhenItFits(content: string, old_: string, new_: string)
    requires old_ != ""
    ensures var pieces := Pieces(content, old_);
            WrappedLength(|content|, |pieces| - 1, |old_|, |new_|) == |Join(pieces, new_)| <==> |Join(pieces, new_)| < WORD
  {
    hide Pieces, Join, WrappedLength;
    var pieces := Pieces(content, old_);
    var trueLen := |Join(pieces, new_)|;
    TrueLength(content, old_, new_);
    WrapIsExact(|content|, |pieces| - 1, |old_|, |new_|, trueLen);
    SmallMod(trueLen);
  }

  lemma SmallMod(n: nat)
    ensures n % WORD == n <==> n < WORD
  {
  }

  lemma TrueLength(content: string, old_: string, new_: string)
    requires old_ != ""
    ensures var pieces := Pieces(content, old_);
            |Join(pieces, new_)| == |content| + (|pieces| - 1) * (|new_| - |old_|)
  {
    hide Pieces, Join, TotalLength;
    var pieces := Pieces(content, old_);
    PiecesJoin(content, old_);
    JoinLength(pieces, old_);
    JoinLength(pieces, new_);
    Difference(|pieces| - 1, |new_|, |old_|);
  }

  lemma Difference(count: nat, a: nat, b: nat)
    ensures count * (a - b) == count * a - count * b
  {
  }

  // ---------------------------------------------------------------- the program

  method CountOccurrences(content: string, old_: string) returns (count: nat)
    requires old_ != ""
    ensures count == |Pieces(content, old_)| - 1
  {
    hide Find, Pieces;
    count := 0;
    var src := content;
    var pos := Find(src, old_);
    while pos.Some?
      invariant pos == Find(src, old_) && count + |Pieces(src, old_)| == |Pieces(content, old_)|
      decreases |src|
    {
      PiecesCons(src, old_, pos.value);
      count := count + 1;
      src := src[pos.value + |old_|..];
      pos := Find(src, old_);
    }
    OnePiece(src, old_);
  }

  lemma OnePiece(s: string, old_: string)
    requires old_ != "" && Find(s, old_) == None
    ensures Pieces(s, old_) == [s]
  {
    hide Find;
  }

  /** memcpy into the result buffer. */
  method CopyInto(buffer: array<char>, at: nat, s: string)
    requires at + |s| <= buffer.Length
    modifies buffer
    ensures buffer[..at + |s|] == old(buffer[..at]) + s
  {
    forall i | 0 <= i < |s| { buffer[at + i] := s[i]; }
  }

  /** str_replace_all: None when nothing is replaced; otherwise the pieces joined by the new text.
      Every write stays inside the allocated buffer and the last one fills it. */
  method StrReplaceAll(content: string, old_: string, new_: string) returns (result: Option<string>, count: nat)
    requires old_ != ""
    requires |Join(Pieces(content, old_), new_)| < WORD
    ensures count == |Pieces(content, old_)| - 1
    ensures result == if count == 0 then None else Some(Join(Pieces(content, old_), new_))
  {
    hide Find, Pieces;
    count := CountOccurrences(content, old_);
    if count == 0 { return None, 0; }
    var resultLen := WrappedLength(|content|, count, |old_|, |new_|);
    LengthExactWhenItFits(content, old_, new_);
    var text := CopyPieces(content, old_, new_, resultLen);
    result := Some(text);
  }

  method CopyPieces(content: string, old_: string, new_: string, resultLen: nat) returns (text: string)
    requires old_ != "" && resultLen == |Join(Pieces(content, old_), new_)|
    ensures text == Join(Pieces(content, old_), new_)
  {
    hide Find, Pieces;
    ghost var all := Join(Pieces(content, old_), new_);
    var buffer := new char[resultLen];
    var dest := 0;
    var src := content;
    var pos := Find(src, old_);
    while pos.Some?
      invariant pos == Find(src, old_) && dest <= buffer.Length
      invariant buffer[..dest] + Join(Pieces(src, old_), new_) == all
      decreases |src|
    {
      JoinStep(src, old_, new_, pos.value);
      ghost var more := Join(Pieces(src[pos.value + |old_|..], old_), new_);
      ghost var done := buffer[..dest];
      assert all == done + (src[..pos.value] + new_ + more);
      assert |all| == dest + pos.value + |new_| + |more|;
      CopyInto(buffer, dest, src[..pos.value]);
      dest := dest + pos.value;
      CopyInto(buffer, dest, new_);
      dest := dest + |new_|;
      assert buffer[..dest] == done + src[..pos.value] + new_;
      src := src[pos.value + |old_|..];
      pos := Find(src, old_);
    }
    LastPiece(src, old_, new_);
    CopyInto(buffer, dest, src);
    text := buffer[..];
  }

  lemma JoinStep(s: string, old_: string, new_: string, k: nat)
    requires old_ != "" && Find(s, old_) == Some(k)
    ensures Join(Pieces(s, old_), new_) == s[..k] + new_ + Join(Pieces(s[k + |old_|..], old_), new_)
  {
    hide Find;
    PiecesCons(s, old_, k);
  }

  lemma LastPiece(s: string, old_: string, new_: string)
    requires old_ != "" && Find(s, old_) == None
    ensures Join(Pieces(s, old_), new_) == s
  {
  }
}
