/** Base64 encoding and decoding as index loops over arrays, and the regrouping of bits that
    section 4 of RFC 4648 prescribes. */
module Base64 {
  type Byte = x: int | 0 <= x < 256

  // ---------------------------------------------------------------- the tables

  function Table(v: nat): (c: char)
    requires v < 64
    ensures c != '='
  {
    if v < 26 then ('A' as int + v) as char
    else if v < 52 then ('a' as int + v - 26) as char
    else if v < 62 then ('0' as int + v - 52) as char
    else if v == 62 then '+' else '/'
  }

  /** The decoding table; any other character counts as 0. */
  function Untable(c: char): (v: nat)
    ensures v < 64
  {
    if 'A' <= c <= 'Z' then c as int - 'A' as int
    else if 'a' <= c <= 'z' then c as int - 'a' as int + 26
    else if '0' <= c <= '9' then c as int - '0' as int + 52
    else if c == '+' then 62
    else if c == '/' then 63
    else 0
  }

  lemma UntableTable(v: nat)
    requires v < 64
    ensures Untable(Table(v)) == v
  {
  }

  // ---------------------------------------------------------------- what the loops compute

  function Triple(a: Byte, b: Byte, c: Byte): nat { a * 65536 + b * 256 + c }

  /** The four characters of three bytes. */
  function Quad(a: Byte, b: Byte, c: Byte): (q: seq<char>)
    ensures |q| == 4
  {
    var t := Triple(a, b, c);
    [Table(t / 262144 % 64), Table(t / 4096 % 64), Table(t / 64 % 64), Table(t % 64)]
  }

  function ByteAt(data: seq<Byte>, i: nat): Byte { if i < |data| then data[i] else 0 }

  function Drop<T>(s: seq<T>, n: nat): (r: seq<T>)
    ensures |r| == if n <= |s| then |s| - n else 0
  {
    if n <= |s| then s[n..] else []
  }

  function EncodeGroups(data: seq<Byte>): seq<char>
    decreases |data|
  {
    if data == [] then [] else Quad(data[0], ByteAt(data, 1), ByteAt(data, 2)) + EncodeGroups(Drop(data, 3))
  }

  lemma {:induction false} EncodeLength(data: seq<Byte>)
    ensures |EncodeGroups(data)| == 4 * ((|data| + 2) / 3)
    decreases |data|
  {
    hide Quad;
    if data != [] {
      EncodeLength(Drop(data, 3));
      Thirds(|data|);
    }
  }

  lemma Thirds(n: nat)
    requires n > 0
    ensures (n + 2) / 3 == 1 + ((if n >= 3 then n - 3 else 0) + 2) / 3
  {
  }

  function Padding(n: nat): (p: nat)
    ensures p <= 2
  {
    (3 - n % 3) % 3
  }

  function Equals(n: nat): seq<char> { seq(n, _ => '=') }

  /** The groups, with the padding written over their end. */
  function Encode(data: seq<Byte>): seq<char> {
    EncodeLength(data);
    var groups, pad := EncodeGroups(data), Padding(|data|);
    groups[..|groups| - pad] + Equals(pad)
  }

  function Strip(s: seq<char>): (r: seq<char>)
    ensures r <= s
  {
    if s != [] && s[|s| - 1] == '=' then Strip(s[..|s| - 1]) else s
  }

  function SextetAt(s: seq<char>, i: nat): (v: nat)
    ensures v < 64
  {
    if i < |s| then Untable(s[i]) else 0
  }

  function Join(a: nat, b: nat, c: nat, d: nat): nat { a * 262144 + b * 4096 + c * 64 + d }

  function Bytes(t: nat): (r: seq<Byte>)
    ensures |r| == 3
  {
    [t / 65536 % 256, t / 256 % 256, t % 256]
  }

  function DecodeGroups(s: seq<char>): seq<Byte>
    decreases |s|
  {
    if s == [] then []
    else Bytes(Join(SextetAt(s, 0), SextetAt(s, 1), SextetAt(s, 2), SextetAt(s, 3))) + DecodeGroups(Drop(s, 4))
  }

  lemma {:induction false} DecodeLength(s: seq<char>)
    ensures |DecodeGroups(s)| == 3 * ((|s| + 3) / 4)
    decreases |s|
  {
    hide Bytes;
    if s != [] {
      DecodeLength(Drop(s, 4));
      Quarters(|s|);
    }
  }

  lemma Quarters(n: nat)
    requires n > 0
    ensures (n + 3) / 4 == 1 + ((if n >= 4 then n - 4 else 0) + 3) / 4
  {
  }

  function Decode(text: seq<char>): seq<Byte> {
    var s := Strip(text);
    DecodeLength(s);
    DecodeGroups(s)[..|s| * 3 / 4]
  }

  // ---------------------------------------------------------------- the programs

  method Base64Encode(data: array<Byte>) returns (out: array<char>)
    ensures fresh(out) && out[..] == Encode(data[..])
  {
    hide EncodeGroups;
    out := new char[4 * ((data.Length + 2) / 3)];
    EncodeLoop(data, out);
    EncodeLength(data[..]);
    WritePadding(out, (3 - data.Length % 3) % 3);
  }

  method EncodeLoop(data: array<Byte>, out: array<char>)
    requires out.Length == 4 * ((data.Length + 2) / 3)
    modifies out
    ensures out[..] == EncodeGroups(data[..])
  {
    hide EncodeGroups, Quad;
    var n := data.Length;
    ghost var d := data[..];
    ghost var all := EncodeGroups(d);
    EncodeLength(d);
    var i, j := 0, 0;
    while i < n
      invariant d == data[..] && j <= out.Length
      invariant out[..j] + EncodeGroups(Drop(d, i)) == all
    {
      GroupStep(d, i);
      ghost var done, rest := out[..j], EncodeGroups(Drop(d, i + 3));
      ghost var quad := Quad(d[i], ByteAt(d, i + 1), ByteAt(d, i + 2));
      assert all == done + (quad + rest) && |all| == j + 4 + |rest|;
      WriteQuad(out, j, data[i], if i + 1 < n then data[i + 1] else 0, if i + 2 < n then data[i + 2] else 0);
      assert all == done + quad + rest;
      i, j := i + 3, j + 4;
    }
    NoGroups();
    assert out[..j] == all;
  }

  lemma NoGroups()
    ensures EncodeGroups([]) == [] && DecodeGroups([]) == []
  {
  }

  /** The padding, written from the end backwards. */
  method WritePadding(out: array<char>, pad: nat)
    requires pad <= out.Length
    modifies out
    ensures out[..] == old(out[..])[..out.Length - pad] + Equals(pad)
  {
    var length := out.Length;
    ghost var before := out[..];
    for k := 0 to pad
      invariant forall q :: 0 <= q < length - k ==> out[q] == before[q]
      invariant forall q :: length - k <= q < length ==> out[q] == '='
    {
      out[length - 1 - k] := '=';
    }
  }

  lemma GroupStep(d: seq<Byte>, i: nat)
    requires i < |d|
    ensures EncodeGroups(Drop(d, i)) == Quad(d[i], ByteAt(d, i + 1), ByteAt(d, i + 2)) + EncodeGroups(Drop(d, i + 3))
  {
    hide Quad;
    var rest := Drop(d, i);
    assert Drop(rest, 3) == Drop(d, i + 3);
    assert ByteAt(rest, 1) == ByteAt(d, i + 1) && ByteAt(rest, 2) == ByteAt(d, i + 2);
  }

  method WriteQuad(out: array<char>, j: nat, a: Byte, b: Byte, c: Byte)
    requires j + 4 <= out.Length
    modifies out
    ensures out[..j + 4] == old(out[..j]) + Quad(a, b, c)
  {
    var t := Triple(a, b, c);
    out[j] := Table(t / 262144 % 64);
    out[j + 1] := Table(t / 4096 % 64);
    out[j + 2] := Table(t / 64 % 64);
    out[j + 3] := Table(t % 64);
  }

  method Base64Decode(data: array<char>) returns (out: array<Byte>)
    ensures fresh(out) && out[..] == Decode(data[..])
  {
    hide DecodeGroups, Strip;
    var n := SkipPadding(data);
    out := new Byte[n * 3 / 4](_ => 0);
    DecodeLoop(data, n, out);
    assert out[..] == out[..out.Length];
  }

  method SkipPadding(data: array<char>) returns (n: nat)
    ensures n <= data.Length && data[..n] == Strip(data[..])
  {
    n := data.Length;
    assert data[..n] == data[..];
    while n > 0 && data[n - 1] == '='
      invariant n <= data.Length
      invariant Strip(data[..n]) == Strip(data[..])
    {
      assert data[..n][..n - 1] == data[..n - 1];
      n := n - 1;
    }
  }

  method DecodeLoop(data: array<char>, n: nat, out: array<Byte>)
    requires n <= data.Length && out.Length == n * 3 / 4
    modifies out
    ensures out.Length <= |DecodeGroups(data[..n])|
    ensures out[..] == DecodeGroups(data[..n])[..out.Length]
  {
    hide DecodeGroups, Bytes;
    ghost var s := data[..n];
    ghost var all := DecodeGroups(s);
    DecodeLength(s);
    ghost var done: seq<Byte> := [];
    var i, j := 0, 0;
    while i < n
      invariant s == data[..n] && j <= out.Length && j <= |done|
      invariant done + DecodeGroups(Drop(s, i)) == all
      invariant j == out.Length || j == |done|
      invariant out[..j] == done[..j]
    {
      var t := ReadGroup(data, n, i);
      UngroupStep(s, i);
      ghost var bytes := Bytes(t);
      Regrouped(done, bytes, DecodeGroups(Drop(s, i + 4)), all);
      ghost var k := j;
      j := WriteBytes(out, j, t);
      PrefixOfBoth(done, bytes, k, j);
      done := done + bytes;
      i := i + 4;
    }
    NoGroups();
    assert done == all && |all| >= out.Length;
    assert out[..] == out[..j];
  }

  lemma Regrouped(a: seq<Byte>, b: seq<Byte>, c: seq<Byte>, all: seq<Byte>)
    requires a + (b + c) == all
    ensures (a + b) + c == all
  {
  }

  /** The first j bytes of a and b when all of a, or nothing of b, is among them. */
  lemma PrefixOfBoth(a: seq<Byte>, b: seq<Byte>, k: nat, j: nat)
    requires k <= |a| && k <= j <= k + |b| && (k == |a| || j == k)
    ensures (a + b)[..j] == a[..k] + b[..j - k]
  {
  }

  lemma UngroupStep(s: seq<char>, i: nat)
    requires i < |s|
    ensures DecodeGroups(Drop(s, i)) ==
            Bytes(Join(SextetAt(s, i), SextetAt(s, i + 1), SextetAt(s, i + 2), SextetAt(s, i + 3))) + DecodeGroups(Drop(s, i + 4))
  {
    hide Bytes, Join, Untable;
    var rest := Drop(s, i);
    assert Drop(rest, 4) == Drop(s, i + 4);
    assert forall k: nat :: SextetAt(rest, k) == SextetAt(s, i + k);
  }

  /** Four characters as one 24-bit number; characters past the end count as NUL. */
  method ReadGroup(data: array<char>, n: nat, i: nat) returns (t: nat)
    requires i < n <= data.Length
    ensures var s := data[..n]; t == Join(SextetAt(s, i), SextetAt(s, i + 1), SextetAt(s, i + 2), SextetAt(s, i + 3))
  {
    var a := Untable(data[i]);
    var b := Untable(if i + 1 < n then data[i + 1] else '\0');
    var c := Untable(if i + 2 < n then data[i + 2] else '\0');
    var d := Untable(if i + 3 < n then data[i + 3] else '\0');
    t := Join(a, b, c, d);
  }

  method WriteBytes(out: array<Byte>, at: nat, t: nat) returns (j: nat)
    requires at <= out.Length
    modifies out
    ensures j == if at + 3 <= out.Length then at + 3 else out.Length
    ensures out[..j] == old(out[..at]) + Bytes(t)[..j - at]
  {
    j := at;
    if j < out.Length { out[j] := t / 65536 % 256; j := j + 1; }
    if j < out.Length { out[j] := t / 256 % 256; j := j + 1; }
    if j < out.Length { out[j] := t % 256; j := j + 1; }
  }
}
