/** What the decoder makes of any text, encoded or not: six bits from each character, regrouped into
    eights. */
module Base64Decoding {
  import opened Base64
  import opened Base64Proofs

  /** The decoding table inverts the encoding one, and any other character counts as 0. */
  lemma {:induction false} UntableExactly(c: char, v: nat)
    requires v < 64
    ensures Untable(c) == v <==> Table(v) == c || (v == 0 && forall w: nat :: w < 64 ==> Table(w) != c)
  {
    UntableTable(v);
    if Untable(c) == 0 && c != 'A' {
      forall w: nat | w < 64 ensures Table(w) != c { UntableTable(w); }
    } else {
      TableUntable(c);
    }
  }

  lemma TableUntable(c: char)
    requires Untable(c) != 0 || c == 'A'
    ensures Table(Untable(c)) == c
  {
  }

  /** Only the padding at the very end is skipped. */
  lemma {:induction false} StripExactly(text: seq<char>)
    ensures text == Strip(text) + Equals(|text| - |Strip(text)|)
    ensures Strip(text) != [] ==> Strip(text)[|Strip(text)| - 1] != '='
  {
    if text != [] && text[|text| - 1] == '=' { StripExactly(text[..|text| - 1]); }
  }

  /** The six bits of each character. */
  function DigitBits(s: seq<char>): (r: seq<bool>)
    ensures |r| == 6 * |s|
  {
    if s == [] then [] else Bits(Untable(s[0]), 6) + DigitBits(s[1..])
  }

  /** Eight bits at a time; an incomplete last group is dropped. */
  function Octets8(bits: seq<bool>): seq<int> {
    if |bits| < 8 then [] else [Value(bits[..8])] + Octets8(bits[8..])
  }

  lemma OneOctet(v: nat, rest: seq<bool>)
    requires v < 256
    ensures Octets8(Bits(v, 8) + rest) == [v] + Octets8(rest)
  {
    hide Bits, Value, Pow2;
    PowersOfTwo();
    ValueBits(v, 8);
    var bits := Bits(v, 8) + rest;
    assert bits[..8] == Bits(v, 8) && bits[8..] == rest;
  }

  lemma JoinDigits(a: nat, b: nat, c: nat, d: nat)
    requires a < 64 && b < 64 && c < 64 && d < 64
    ensures var t := Join(a, b, c, d);
            && t < 16777216 && t % 64 == d && t / 64 % 64 == c && t / 4096 % 64 == b && t / 262144 == a
  {
    var t := Join(a, b, c, d);
    assert t == 64 * (64 * (64 * a + b) + c) + d;
    assert t / 64 == 64 * (64 * a + b) + c;
    assert t / 64 / 64 == 64 * a + b;
    assert t / 64 / 64 / 64 == a;
    DivisionChain(t);
  }

  /** The bits of four digits are those of three bytes. */
  lemma JoinBits(a: nat, b: nat, c: nat, d: nat)
    requires a < 64 && b < 64 && c < 64 && d < 64
    ensures var r := Bytes(Join(a, b, c, d));
            Bits(a, 6) + Bits(b, 6) + Bits(c, 6) + Bits(d, 6) == Bits(r[0], 8) + Bits(r[1], 8) + Bits(r[2], 8)
  {
    hide Bits, Pow2;
    var t := Join(a, b, c, d);
    JoinDigits(a, b, c, d);
    DivisionChain(t);
    var r := Bytes(t);
    BytesBack(t);
    TripleBits(r[0], r[1], r[2]);
  }

  lemma BytesBack(t: nat)
    requires t < 16777216
    ensures Triple(Bytes(t)[0], Bytes(t)[1], Bytes(t)[2]) == t
  {
    DivisionChain(t);
    var q := t / 256;
    assert t == 256 * q + t % 256 && q == 256 * (q / 256) + q % 256;
  }

  lemma FourDigits(s: seq<char>)
    requires |s| >= 4
    ensures DigitBits(s) == Bits(Untable(s[0]), 6) + Bits(Untable(s[1]), 6) + Bits(Untable(s[2]), 6) + Bits(Untable(s[3]), 6) + DigitBits(s[4..])
  {
    hide Bits, Untable, DigitBits;
    DigitStep(s, 0);
    DigitStep(s, 1);
    DigitStep(s, 2);
    DigitStep(s, 3);
    assert s[0..] == s;
    FiveParts(Bits(Untable(s[0]), 6), Bits(Untable(s[1]), 6), Bits(Untable(s[2]), 6), Bits(Untable(s[3]), 6), DigitBits(s[4..]));
  }

  lemma FiveParts(a: seq<bool>, b: seq<bool>, c: seq<bool>, d: seq<bool>, e: seq<bool>)
    ensures a + (b + (c + (d + e))) == a + b + c + d + e
  {
    assert c + (d + e) == c + d + e;
    assert b + (c + d + e) == b + c + d + e;
  }

  lemma DigitStep(s: seq<char>, k: nat)
    requires k < |s|
    ensures DigitBits(s[k..]) == Bits(Untable(s[k]), 6) + DigitBits(s[k + 1..])
  {
    assert s[k..][1..] == s[k + 1..];
  }

  lemma ThreeOctets(r: seq<Byte>, rest: seq<bool>)
    requires |r| == 3
    ensures Octets8(Bits(r[0], 8) + Bits(r[1], 8) + Bits(r[2], 8) + rest) == [r[0], r[1], r[2]] + Octets8(rest)
  {
    hide Bits, Octets8;
    var b1, b2 := Bits(r[1], 8) + (Bits(r[2], 8) + rest), Bits(r[2], 8) + rest;
    assert Bits(r[0], 8) + Bits(r[1], 8) + Bits(r[2], 8) + rest == Bits(r[0], 8) + b1;
    OneOctet(r[0], b1);
    OneOctet(r[1], b2);
    OneOctet(r[2], rest);
  }

  lemma {:induction false} DigitsDecode(s: seq<char>)
    ensures |s| * 3 / 4 <= |DecodeGroups(s)| && DecodeGroups(s)[..|s| * 3 / 4] == Octets8(DigitBits(s))
    decreases |s|
  {
    hide Bits, Untable, Bytes, Octets8, DigitBits, Join, DecodeGroups;
    if s == [] {
      NoGroups();
      NoDigits();
    } else if |s| < 4 {
      LastDigits(s);
    } else {
      var a, b, c, d := Untable(s[0]), Untable(s[1]), Untable(s[2]), Untable(s[3]);
      var r, rest := Bytes(Join(a, b, c, d)), s[4..];
      UngroupStep(s, 0);
      assert Drop(s, 0) == s && Drop(s, 4) == rest;
      FourDigits(s);
      JoinBits(a, b, c, d);
      ThreeOctets(r, DigitBits(rest));
      DigitsDecode(rest);
      assert |s| * 3 / 4 == 3 + |rest| * 3 / 4;
      PrefixBehind(r, DecodeGroups(rest), |rest| * 3 / 4);
    }
  }

  lemma NoDigits()
    ensures Octets8(DigitBits([])) == []
  {
  }

  lemma PrefixBehind(r: seq<Byte>, more: seq<Byte>, n: nat)
    requires |r| == 3 && n <= |more|
    ensures (r + more)[..3 + n] == [r[0], r[1], r[2]] + more[..n]
  {
  }

  /** One, two or three characters at the end: none, one or two bytes. */
  lemma LastDigits(s: seq<char>)
    requires 0 < |s| < 4
    ensures |s| * 3 / 4 <= |DecodeGroups(s)| && DecodeGroups(s)[..|s| * 3 / 4] == Octets8(DigitBits(s))
  {
    hide Bits, Untable, Bytes, Octets8, DigitBits, Join, DecodeGroups;
    var a := Untable(s[0]);
    var b := if |s| > 1 then Untable(s[1]) else 0;
    var c := if |s| > 2 then Untable(s[2]) else 0;
    var r := Bytes(Join(a, b, c, 0));
    UngroupStep(s, 0);
    assert Drop(s, 0) == s && Drop(s, 4) == [];
    NoGroups();
    assert DecodeGroups(s) == r;
    JoinBits(a, b, c, 0);
    var all := Bits(r[0], 8) + Bits(r[1], 8) + Bits(r[2], 8);
    FewDigits(s);
    assert DigitBits(s) == all[..6 * |s|];
    FewOctets(r, |s|);
  }

  lemma FewDigits(s: seq<char>)
    requires 0 < |s| < 4
    ensures DigitBits(s) == (Bits(Untable(s[0]), 6) + Bits(if |s| > 1 then Untable(s[1]) else 0, 6)
                             + Bits(if |s| > 2 then Untable(s[2]) else 0, 6) + Bits(0, 6))[..6 * |s|]
  {
    hide Bits, Untable;
    assert DigitBits(s) == Bits(Untable(s[0]), 6) + DigitBits(s[1..]);
    if |s| > 1 {
      assert s[1..][0] == s[1] && s[1..][1..] == s[2..];
      if |s| > 2 { assert s[2..][0] == s[2] && s[2..][1..] == []; }
    }
  }

  lemma FewOctets(r: seq<Byte>, n: nat)
    requires |r| == 3 && 0 < n < 4
    ensures Octets8((Bits(r[0], 8) + Bits(r[1], 8) + Bits(r[2], 8))[..6 * n]) == r[..n * 3 / 4]
  {
    hide Bits;
    var all := Bits(r[0], 8) + Bits(r[1], 8) + Bits(r[2], 8);
    if n == 2 {
      var rest := Bits(r[1], 8)[..4];
      assert all[..12] == Bits(r[0], 8) + rest;
      OneOctet(r[0], rest);
      assert r[..1] == [r[0]] + [];
    } else if n == 3 {
      var rest := Bits(r[2], 8)[..2];
      assert all[..18] == Bits(r[0], 8) + (Bits(r[1], 8) + rest);
      OneOctet(r[0], Bits(r[1], 8) + rest);
      OneOctet(r[1], rest);
      assert r[..2] == [r[0]] + ([r[1]] + []);
    }
  }

  /** Decoding any text: the padding at its end is skipped, every other character gives six bits,
      and the bits are regrouped into bytes, without an incomplete last one. */
  lemma {:induction false} DecodeRegroups(text: seq<char>)
    ensures Decode(text) == Octets8(DigitBits(Strip(text)))
  {
    hide Octets8, DigitBits, Strip, DecodeGroups;
    DigitsDecode(Strip(text));
  }
}
