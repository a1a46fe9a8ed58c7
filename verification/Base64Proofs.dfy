/** Decoding inverts encoding, and the encoder does what section 4 of RFC 4648 prescribes. */
module Base64Proofs {
  import opened Base64

  // ---------------------------------------------------------------- digits of a 24-bit number

  lemma Sextets(t: nat)
    requires t < 16777216
    ensures Base64.Join(t / 262144 % 64, t / 4096 % 64, t / 64 % 64, t % 64) == t
    ensures t / 262144 < 64
  {
    var u := t / 64;
    var v := u / 64;
    assert t / 4096 == v && t / 262144 == v / 64;
  }

  lemma Octets(a: Byte, b: Byte, c: Byte)
    ensures Bytes(Triple(a, b, c)) == [a, b, c] && Triple(a, b, c) < 16777216
  {
    BytesOfTriple(a, b, c);
    DivisionChain(Triple(a, b, c));
  }

  lemma BytesOfTriple(a: Byte, b: Byte, c: Byte)
    ensures var t := Triple(a, b, c); t % 256 == c && t / 256 % 256 == b && t / 256 / 256 == a
  {
    var t := Triple(a, b, c);
    assert t == 256 * (256 * a + b) + c;
    assert t / 256 == 256 * a + b;
  }

  lemma DivisionChain(t: nat)
    ensures t / 64 / 64 == t / 4096 && t / 4096 / 64 == t / 262144 && t / 256 / 256 == t / 65536
    ensures t < 16777216 ==> t / 262144 % 64 == t / 262144 && t / 65536 % 256 == t / 65536
  {
    DivideSextets(t);
    DivideOctets(t);
  }

  lemma DivideSextets(t: nat)
    ensures t / 64 / 64 == t / 4096 && t / 4096 / 64 == t / 262144
  {
  }

  lemma DivideOctets(t: nat)
    ensures t / 256 / 256 == t / 65536
  {
  }

  /** What the characters of three bytes decode to. */
  lemma QuadSextets(a: Byte, b: Byte, c: Byte)
    ensures var q, t := Quad(a, b, c), Triple(a, b, c);
            && Untable(q[0]) == t / 262144 % 64 && Untable(q[1]) == t / 4096 % 64
            && Untable(q[2]) == t / 64 % 64 && Untable(q[3]) == t % 64
  {
    hide Table, Untable;
    var t := Triple(a, b, c);
    UntableTable(t / 262144 % 64);
    UntableTable(t / 4096 % 64);
    UntableTable(t / 64 % 64);
    UntableTable(t % 64);
  }

  /** Missing bytes make the last characters stand for 0. */
  lemma MissingAreZero(a: Byte, b: Byte)
    ensures Triple(a, b, 0) % 64 == 0
    ensures Triple(a, 0, 0) / 64 % 64 == 0
  {
  }

  // ---------------------------------------------------------------- the round trip

  /** The characters in front of the padding. */
  function Significant(data: seq<Byte>): (r: seq<char>)
    ensures |r| == 4 * ((|data| + 2) / 3) - Padding(|data|)
  {
    EncodeLength(data);
    EncodeGroups(data)[..|EncodeGroups(data)| - Padding(|data|)]
  }

  lemma {:induction false} NoEqualsSign(data: seq<Byte>)
    ensures '=' !in EncodeGroups(data)
    decreases |data|
  {
    hide Table;
    if data != [] { NoEqualsSign(Drop(data, 3)); }
  }

  lemma {:induction false} StripEquals(s: seq<char>, n: nat)
    requires s != [] ==> s[|s| - 1] != '='
    ensures Strip(s + Equals(n)) == s
  {
    if n == 0 {
      assert s + Equals(n) == s;
    } else {
      var t := s + Equals(n);
      assert t[..|t| - 1] == s + Equals(n - 1);
      StripEquals(s, n - 1);
    }
  }

  lemma StripEncoded(data: seq<Byte>)
    ensures Strip(Encode(data)) == Significant(data)
  {
    hide EncodeGroups, Strip;
    NoEqualsSign(data);
    EncodeLength(data);
    var s := Significant(data);
    if s != [] { assert s[|s| - 1] == EncodeGroups(data)[|s| - 1]; }
    StripEquals(s, Padding(|data|));
  }

  lemma SignificantLength(n: nat)
    ensures (4 * ((n + 2) / 3) - Padding(n)) * 3 / 4 == n
  {
    var q, r := n / 3, n % 3;
    assert n == 3 * q + r;
    assert (n + 2) / 3 == if r == 0 then q else q + 1;
  }

  /** A full group decodes to its bytes, whatever follows. */
  lemma GroupDecodes(a: Byte, b: Byte, c: Byte, rest: seq<char>)
    ensures DecodeGroups(Quad(a, b, c) + rest) == [a, b, c] + DecodeGroups(rest)
  {
    hide Quad, Bytes, Untable, Triple, Base64.Join;
    var q := Quad(a, b, c);
    var s := q + rest;
    assert Drop(s, 4) == rest;
    QuadSextets(a, b, c);
    Octets(a, b, c);
    Sextets(Triple(a, b, c));
  }

  /** An unfinished last group decodes to its bytes and zeros. */
  lemma PartialDecodes(a: Byte, b: Byte, k: nat)
    requires k == 3 || (k == 2 && b == 0)
    ensures DecodeGroups(Quad(a, b, 0)[..k]) == [a, b, 0]
  {
    hide Quad, Bytes, Untable, Triple, Base64.Join;
    var q := Quad(a, b, 0);
    var s := q[..k];
    assert Drop(s, 4) == [];
    NoGroups();
    QuadSextets(a, b, 0);
    Octets(a, b, 0);
    MissingAreZero(a, b);
    Sextets(Triple(a, b, 0));
    assert s[0] == q[0] && s[1] == q[1];
  }

  lemma {:induction false} SignificantDecodes(data: seq<Byte>)
    ensures |data| <= |DecodeGroups(Significant(data))| && DecodeGroups(Significant(data))[..|data|] == data
    decreases |data|
  {
    hide Quad, DecodeGroups;
    EncodeLength(data);
    if data == [] {
      NoGroups();
    } else if |data| >= 3 {
      var rest := data[3..];
      EncodeLength(rest);
      var quad := Quad(data[0], data[1], data[2]);
      assert Padding(|data|) == Padding(|rest|);
      assert EncodeGroups(data) == quad + EncodeGroups(rest);
      assert Significant(data) == quad + Significant(rest);
      GroupDecodes(data[0], data[1], data[2], Significant(rest));
      SignificantDecodes(rest);
      assert data == [data[0], data[1], data[2]] + rest;
    } else {
      LastGroup(data);
    }
  }

  lemma LastGroup(data: seq<Byte>)
    requires 0 < |data| < 3
    ensures |data| <= |DecodeGroups(Significant(data))| && DecodeGroups(Significant(data))[..|data|] == data
  {
    hide Quad, DecodeGroups;
    EncodeLength(data);
    var b := if |data| == 2 then data[1] else 0;
    var quad := Quad(data[0], b, 0);
    assert Drop(data, 3) == [];
    NoGroups();
    assert EncodeGroups(data) == quad;
    assert Significant(data) == quad[..|data| + 1];
    PartialDecodes(data[0], b, |data| + 1);
  }

  /** Decoding the encoding of any bytes returns them, with their exact length. */
  lemma {:induction false} DecodeEncode(data: seq<Byte>)
    ensures Decode(Encode(data)) == data
  {
    hide Encode, DecodeGroups, Strip, Padding;
    StripEncoded(data);
    SignificantLength(|data|);
    SignificantDecodes(data);
  }

  // ---------------------------------------------------------------- the regrouping of bits

  function Pow2(k: nat): (p: nat)
    ensures p > 0
  {
    if k == 0 then 1 else 2 * Pow2(k - 1)
  }

  /** The last w binary digits of v, most significant first. */
  function Bits(v: int, w: nat): (r: seq<bool>)
    ensures |r| == w
    decreases w
  {
    if w == 0 then [] else Bits(v / 2, w - 1) + [v % 2 == 1]
  }

  function Value(bits: seq<bool>): (v: nat)
    ensures v < Pow2(|bits|)
  {
    if bits == [] then 0
    else 2 * Value(bits[..|bits| - 1]) + if bits[|bits| - 1] then 1 else 0
  }

  function AllBits(data: seq<Byte>): seq<bool> {
    if data == [] then [] else Bits(data[0], 8) + AllBits(data[1..])
  }

  function Zeros(n: nat): seq<bool> { seq(n, _ => false) }

  /** The table is the alphabet of section 4 of RFC 4648: A to Z, a to z, 0 to 9, + and /. */
  lemma {:induction false} TableIsAlphabet(v: nat)
    requires v < 64
    ensures Table(0) == 'A' && Table(25) == 'Z' && Table(26) == 'a' && Table(51) == 'z' && Table(52) == '0' && Table(61) == '9'
    ensures Table(62) == '+' && Table(63) == '/'
    ensures v !in {25, 51, 61, 62, 63} ==> Table(v + 1) as int == Table(v) as int + 1
  {
  }

  function SixBits(bits: seq<bool>): char
    requires |bits| == 6
  {
    assert Pow2(6) == 64 by { assert Pow2(3) == 8; }
    Table(Value(bits))
  }

  /** Six bits at a time; missing bits of the last group are zero. */
  function Regroup(bits: seq<bool>): seq<char> {
    if bits == [] then []
    else if |bits| < 6 then [SixBits(bits + Zeros(6 - |bits|))]
    else [SixBits(bits[..6])] + Regroup(bits[6..])
  }

  /** Section 4 of RFC 4648: regrouped bits, padded to a multiple of four characters. */
  function Rfc4648(data: seq<Byte>): seq<char> {
    var chars := Regroup(AllBits(data));
    chars + Equals((4 - |chars| % 4) % 4)
  }

  lemma DivUnique(v: int, m: int, q: int, r: int)
    requires m > 0 && v == m * q + r && 0 <= r < m
    ensures v / m == q && v % m == r
  {
    var d := v / m - q;
    assert v == m * (v / m) + v % m;
    assert m * d == r - v % m;
    MulSign(m, d);
  }

  lemma MulSign(m: int, d: int)
    requires m > 0
    ensures d > 0 ==> m * d >= m
    ensures d < 0 ==> m * d <= -m
  {
  }

  lemma Halving(v: int, m: nat)
    requires m > 0
    ensures v / (2 * m) == (v / 2) / m && (v % (2 * m)) / 2 == (v / 2) % m && (v % (2 * m)) % 2 == v % 2
  {
    var q, r := v / (2 * m), v % (2 * m);
    assert v == (2 * m) * q + r;
    assert (2 * m) * q == 2 * (m * q);
    assert v / 2 == m * q + r / 2;
    DivUnique(v / 2, m, q, r / 2);
  }

  lemma {:induction false} BitsSplit(v: int, w: nat, k: nat)
    ensures Bits(v, w + k) == Bits(v / Pow2(k), w) + Bits(v % Pow2(k), k)
    decreases k
  {
    if k > 0 {
      BitsSplit(v / 2, w, k - 1);
      Halving(v, Pow2(k - 1));
    }
  }

  lemma {:induction false} ValueBits(v: nat, w: nat)
    requires v < Pow2(w)
    ensures Value(Bits(v, w)) == v
  {
    if w > 0 {
      var b := Bits(v, w);
      assert b[..|b| - 1] == Bits(v / 2, w - 1);
      ValueBits(v / 2, w - 1);
    }
  }

  lemma PowersOfTwo()
    ensures Pow2(6) == 64 && Pow2(8) == 256 && Pow2(12) == 4096 && Pow2(16) == 65536 && Pow2(18) == 262144
  {
    assert Pow2(2) == 4;
    assert Pow2(4) == 16;
    assert Pow2(6) == 64;
    assert Pow2(8) == 256;
    assert Pow2(10) == 1024;
    assert Pow2(12) == 4096;
    assert Pow2(14) == 16384;
    assert Pow2(16) == 65536;
    assert Pow2(18) == 262144;
  }

  /** The bits of three bytes are those of the 24-bit number, and of its four 6-bit digits. */
  lemma TripleBits(a: Byte, b: Byte, c: Byte)
    ensures var t := Triple(a, b, c);
            && Bits(a, 8) + Bits(b, 8) + Bits(c, 8) == Bits(t, 24)
            && Bits(t, 24) == Bits(t / 262144 % 64, 6) + Bits(t / 4096 % 64, 6) + Bits(t / 64 % 64, 6) + Bits(t % 64, 6)
  {
    hide Bits, Pow2;
    PowersOfTwo();
    var t := Triple(a, b, c);
    BitsSplit(t, 16, 8);
    BitsSplit(t / 256, 8, 8);
    BytesOfTriple(a, b, c);
    BitsSplit(t, 18, 6);
    BitsSplit(t / 64, 12, 6);
    BitsSplit(t / 4096, 6, 6);
    DivisionChain(t);
  }

  lemma SixBitsOfDigit(v: nat)
    requires v < 64
    ensures SixBits(Bits(v, 6)) == Table(v)
  {
    hide Table, Pow2, Value;
    PowersOfTwo();
    ValueBits(v, 6);
  }

  /** Regrouping k bits of four digits yields the first digits' characters. */
  lemma RegroupSix(bits: seq<bool>, v: nat)
    requires |bits| >= 6 && bits[..6] == Bits(v, 6) && v < 64
    ensures Regroup(bits) == [Table(v)] + Regroup(bits[6..])
  {
    SixBitsOfDigit(v);
  }

  lemma GroupRegroups(a: Byte, b: Byte, c: Byte, rest: seq<bool>)
    ensures Regroup(Bits(a, 8) + Bits(b, 8) + Bits(c, 8) + rest) == Quad(a, b, c) + Regroup(rest)
  {
    hide Bits, Regroup, Table, Triple;
    TripleBits(a, b, c);
    var t := Triple(a, b, c);
    var b0, b1, b2, b3 := Bits(t / 262144 % 64, 6), Bits(t / 4096 % 64, 6), Bits(t / 64 % 64, 6), Bits(t % 64, 6);
    var s := b0 + (b1 + (b2 + (b3 + rest)));
    assert Bits(a, 8) + Bits(b, 8) + Bits(c, 8) + rest == s;
    assert s[6..] == b1 + (b2 + (b3 + rest));
    RegroupSix(s, t / 262144 % 64);
    assert (b1 + (b2 + (b3 + rest)))[6..] == b2 + (b3 + rest);
    RegroupSix(b1 + (b2 + (b3 + rest)), t / 4096 % 64);
    assert (b2 + (b3 + rest))[6..] == b3 + rest;
    RegroupSix(b2 + (b3 + rest), t / 64 % 64);
    assert (b3 + rest)[6..] == rest;
    RegroupSix(b3 + rest, t % 64);
  }

  lemma {:induction false} ZeroBits(w: nat)
    ensures Bits(0, w) == Zeros(w)
  {
    if w > 0 { ZeroBits(w - 1); }
  }

  /** Cutting zero bits off the end of a list keeps the characters it fills. */
  lemma {:induction false} RegroupPrefix(bits: seq<bool>, n: nat)
    requires n <= |bits| && |bits| % 6 == 0 && bits[n..] == Zeros(|bits| - n)
    ensures (n + 5) / 6 <= |Regroup(bits)| && Regroup(bits[..n]) == Regroup(bits)[..(n + 5) / 6]
    decreases |bits|
  {
    hide SixBits;
    if n == 0 {
    } else if n < 6 {
      assert bits[..n] + Zeros(6 - n) == bits[..6] by {
        forall i | n <= i < 6 ensures bits[i] == false { assert bits[i] == bits[n..][i - n]; }
      }
    } else {
      var rest := bits[6..];
      assert rest[n - 6..] == bits[n..] && bits[..n][6..] == rest[..n - 6] && bits[..n][..6] == bits[..6];
      RegroupPrefix(rest, n - 6);
    }
  }

  lemma {:induction false} EncodeRegroups(data: seq<Byte>)
    ensures Regroup(AllBits(data)) == Significant(data)
    decreases |data|
  {
    hide Quad, Bits, Regroup;
    EncodeLength(data);
    if data == [] {
      assert Regroup([]) == [] by { NothingRegroups(); }
    } else if |data| >= 3 {
      var rest := data[3..];
      EncodeLength(rest);
      var quad := Quad(data[0], data[1], data[2]);
      assert Padding(|data|) == Padding(|rest|);
      assert EncodeGroups(data) == quad + EncodeGroups(rest);
      assert Significant(data) == quad + Significant(rest);
      ThreeBytesOfBits(data);
      GroupRegroups(data[0], data[1], data[2], AllBits(rest));
      EncodeRegroups(rest);
    } else {
      LastRegroups(data);
    }
  }

  lemma NothingRegroups()
    ensures Regroup([]) == []
  {
  }

  lemma ThreeBytesOfBits(data: seq<Byte>)
    requires |data| >= 3
    ensures AllBits(data) == Bits(data[0], 8) + Bits(data[1], 8) + Bits(data[2], 8) + AllBits(data[3..])
  {
    hide Bits;
    assert data[1..][1..] == data[2..] && data[2..][1..] == data[3..];
    assert AllBits(data[1..]) == Bits(data[1], 8) + AllBits(data[2..]);
    assert AllBits(data[2..]) == Bits(data[2], 8) + AllBits(data[3..]);
  }

  lemma LastRegroups(data: seq<Byte>)
    requires 0 < |data| < 3
    ensures Regroup(AllBits(data)) == Significant(data)
  {
    hide Quad, Bits, Regroup;
    EncodeLength(data);
    var b := if |data| == 2 then data[1] else 0;
    var quad := Quad(data[0], b, 0);
    assert Drop(data, 3) == [];
    NoGroups();
    assert EncodeGroups(data) == quad;
    assert Significant(data) == quad[..|data| + 1];
    var all := Bits(data[0], 8) + Bits(b, 8) + Bits(0, 8);
    GroupRegroups(data[0], b, 0, []);
    NothingRegroups();
    assert all + [] == all;
    LastFilled(data, b);
    RegroupPrefix(all, 8 * |data|);
  }

  /** The bits of an unfinished group, filled up with zero bits. */
  lemma LastFilled(data: seq<Byte>, b: Byte)
    requires 0 < |data| < 3 && b == if |data| == 2 then data[1] else 0
    ensures var all, n := Bits(data[0], 8) + Bits(b, 8) + Bits(0, 8), 8 * |data|;
            all[..n] == AllBits(data) && all[n..] == Zeros(24 - n)
  {
    hide Bits, AllBits;
    ZeroBits(8);
    LastBits(data);
    var all := Bits(data[0], 8) + Bits(b, 8) + Bits(0, 8);
    if |data| == 2 {
      assert all[16..] == Bits(0, 8);
    } else {
      assert all[8..] == Zeros(8) + Zeros(8);
    }
  }

  lemma LastBits(data: seq<Byte>)
    requires 0 < |data| < 3
    ensures AllBits(data) == if |data| == 2 then Bits(data[0], 8) + Bits(data[1], 8) else Bits(data[0], 8)
  {
    hide Bits;
    assert AllBits([]) == [];
    if |data| == 2 { assert data[1..][1..] == []; } else { assert data[1..] == []; }
  }

  /** The encoder refines the regrouping with padding of the standard. */
  lemma {:induction false} EncodeIsRfc4648(data: seq<Byte>)
    ensures Encode(data) == Rfc4648(data)
  {
    hide EncodeGroups, Regroup, AllBits;
    EncodeRegroups(data);
    EncodeLength(data);
    PaddingIs(|data|);
  }

  lemma PaddingIs(n: nat)
    ensures (4 - (4 * ((n + 2) / 3) - Padding(n)) % 4) % 4 == Padding(n)
  {
  }
}
