/** Bytes, little-endian lengths, and UTF-8 text (section 4 of RFC 3629). */
module Bytes {

  newtype Byte = b: int | 0 <= b < 0x100

  /** Names of topics and consumer groups, as the bytes of their UTF-8 encoding. */
  type Text = seq<Byte>

  const ZERO: Byte := 0x00
  const NEWLINE: Byte := 0x0A
  const COLON: Byte := 0x3A
  const U32_LIMIT: nat := 0x1_0000_0000

  /** The position of the first `b` in `s`, or `|s|` when there is none. */
  function IndexOf(s: seq<Byte>, b: Byte): (i: nat)
    ensures i <= |s|
    ensures forall k | 0 <= k < i :: s[k] != b
    ensures i < |s| ==> s[i] == b
  {
    if s == [] || s[0] == b then 0 else 1 + IndexOf(s[1..], b)
  }

  lemma IndexOfUnique(s: seq<Byte>, b: Byte, i: nat)
    requires i <= |s| && forall k | 0 <= k < i :: s[k] != b
    requires i < |s| ==> s[i] == b
    ensures IndexOf(s, b) == i
  {
    var j := IndexOf(s, b);
    assert !(j < i) && !(i < j);
  }

  /** The four little-endian bytes of `n as u32`: the cast keeps `n` modulo 2^32. */
  function EncodeU32(n: nat): (bytes: seq<Byte>)
    ensures |bytes| == 4
  {
    var q1 := n / 0x100;
    var q2 := q1 / 0x100;
    var q3 := q2 / 0x100;
    [(n % 0x100) as Byte, (q1 % 0x100) as Byte, (q2 % 0x100) as Byte, (q3 % 0x100) as Byte]
  }

  function DecodeU32(s: seq<Byte>): nat
    requires |s| >= 4
  {
    s[0] as nat + 0x100 * s[1] as nat + 0x1_0000 * s[2] as nat + 0x100_0000 * s[3] as nat
  }

  /** Digit by digit to the base of 256, the lowest first. */
  lemma U32Digits(n: nat)
    ensures var bytes := EncodeU32(n);
            && bytes[0] as nat == n % 256
            && bytes[1] as nat == n / 256 % 256
            && bytes[2] as nat == n / 65536 % 256
            && bytes[3] as nat == n / 16777216 % 256
  {
  }

  lemma U32RoundTrip(n: nat, rest: seq<Byte>)
    ensures DecodeU32(EncodeU32(n) + rest) == n % U32_LIMIT
  {
    var s, bytes := EncodeU32(n) + rest, EncodeU32(n);
    assert s[0] == bytes[0] && s[1] == bytes[1] && s[2] == bytes[2] && s[3] == bytes[3];
    var q4 := n / 0x100 / 0x100 / 0x100 / 0x100;
    assert n == DecodeU32(s) + U32_LIMIT * q4;
    RemainderUnique(n, q4, DecodeU32(s));
  }

  lemma RemainderUnique(n: nat, q: nat, r: nat)
    requires n == r + U32_LIMIT * q && r < U32_LIMIT
    ensures n % U32_LIMIT == r
  {
  }

  predicate IsTail(s: seq<Byte>, i: nat) {
    i < |s| && 0x80 <= s[i] <= 0xBF
  }

  predicate InRange(s: seq<Byte>, i: nat, low: Byte, high: Byte) {
    i < |s| && low <= s[i] <= high
  }

  /** Length of the UTF-8 sequence at the head of `s`, or 0 when the head is ill-formed. */
  function SequenceLength(s: seq<Byte>): (n: nat)
    requires s != []
    ensures n <= |s|
  {
    if s[0] <= 0x7F then 1
    else if 0xC2 <= s[0] <= 0xDF then (if IsTail(s, 1) then 2 else 0)
    else if s[0] == 0xE0 then (if InRange(s, 1, 0xA0, 0xBF) && IsTail(s, 2) then 3 else 0)
    else if s[0] == 0xED then (if InRange(s, 1, 0x80, 0x9F) && IsTail(s, 2) then 3 else 0)
    else if 0xE1 <= s[0] <= 0xEF then (if IsTail(s, 1) && IsTail(s, 2) then 3 else 0)
    else if s[0] == 0xF0 then (if InRange(s, 1, 0x90, 0xBF) && IsTail(s, 2) && IsTail(s, 3) then 4 else 0)
    else if 0xF1 <= s[0] <= 0xF3 then (if IsTail(s, 1) && IsTail(s, 2) && IsTail(s, 3) then 4 else 0)
    else if s[0] == 0xF4 then (if InRange(s, 1, 0x80, 0x8F) && IsTail(s, 2) && IsTail(s, 3) then 4 else 0)
    else 0
  }

  predicate ValidUtf8(s: seq<Byte>)
    decreases |s|
  {
    s == [] || (SequenceLength(s) > 0 && ValidUtf8(s[SequenceLength(s)..]))
  }

  // ---------- What UTF-8 encodes ----------

  /** A Unicode scalar value: a code point that is no surrogate. */
  predicate IsScalar(c: nat) {
    c <= 0x10FFFF && !(0xD800 <= c <= 0xDFFF)
  }

  predicate AllScalars(cs: seq<nat>) {
    forall i | 0 <= i < |cs| :: IsScalar(cs[i])
  }

  /** The bytes of one scalar value, by the table of section 3 of RFC 3629. */
  function EncodeScalar(c: nat): (bytes: seq<Byte>)
    requires IsScalar(c)
    ensures 1 <= |bytes| <= 4
  {
    if c < 0x80 then [c as Byte]
    else if c < 0x800 then [(0xC0 + c / 64) as Byte, (0x80 + c % 64) as Byte]
    else if c < 0x1_0000 then [(0xE0 + c / 4096) as Byte, (0x80 + c / 64 % 64) as Byte, (0x80 + c % 64) as Byte]
    else
      [(0xF0 + c / 0x4_0000) as Byte, (0x80 + c / 4096 % 64) as Byte, (0x80 + c / 64 % 64) as Byte,
       (0x80 + c % 64) as Byte]
  }

  function EncodeText(cs: seq<nat>): seq<Byte>
    requires AllScalars(cs)
  {
    if cs == [] then [] else EncodeScalar(cs[0]) + EncodeText(cs[1..])
  }

  /** The scalar value at the head of well-formed bytes. */
  function DecodeScalar(s: seq<Byte>): nat
    requires s != [] && SequenceLength(s) > 0
  {
    match SequenceLength(s)
    case 1 => s[0] as nat
    case 2 => 64 * (s[0] as nat - 0xC0) + (s[1] as nat - 0x80)
    case 3 => 4096 * (s[0] as nat - 0xE0) + 64 * (s[1] as nat - 0x80) + (s[2] as nat - 0x80)
    case _ =>
      0x4_0000 * (s[0] as nat - 0xF0) + 4096 * (s[1] as nat - 0x80) + 64 * (s[2] as nat - 0x80) + (s[3] as nat - 0x80)
  }

  lemma ThreeBytesEncoded(c: nat, rest: seq<Byte>)
    requires IsScalar(c) && 0x800 <= c < 0x1_0000
    ensures SequenceLength(EncodeScalar(c) + rest) == 3
  {
    var a, b := c / 4096, c / 64 % 64;
    assert c == 4096 * a + 64 * b + c % 64;
    assert a == 0 ==> b >= 0x20;
    assert a == 0xD ==> b <= 0x1F;
  }

  lemma FourBytesEncoded(c: nat, rest: seq<Byte>)
    requires IsScalar(c) && 0x1_0000 <= c
    ensures SequenceLength(EncodeScalar(c) + rest) == 4
  {
    var a, b := c / 0x4_0000, c / 4096 % 64;
    assert c / 4096 == 64 * a + b;
    assert a == 0 ==> b >= 0x10;
    assert a == 4 ==> b <= 0xF;
  }

  lemma ScalarEncoded(c: nat, rest: seq<Byte>)
    requires IsScalar(c)
    ensures SequenceLength(EncodeScalar(c) + rest) == |EncodeScalar(c)|
  {
    if 0x800 <= c < 0x1_0000 {
      ThreeBytesEncoded(c, rest);
    } else if 0x1_0000 <= c {
      FourBytesEncoded(c, rest);
    }
  }

  lemma Digits64(a: nat, b: nat)
    requires b < 64
    ensures (64 * a + b) / 64 == a && (64 * a + b) % 64 == b
  {
  }

  lemma TwoBytesDecoded(s: seq<Byte>)
    requires s != [] && SequenceLength(s) == 2
    ensures IsScalar(DecodeScalar(s)) && EncodeScalar(DecodeScalar(s)) == s[..2]
  {
    Digits64(s[0] as nat - 0xC0, s[1] as nat - 0x80);
  }

  lemma ThreeBytesDecoded(s: seq<Byte>)
    requires s != [] && SequenceLength(s) == 3
    ensures IsScalar(DecodeScalar(s)) && EncodeScalar(DecodeScalar(s)) == s[..3]
  {
    var a, b, c := s[0] as nat - 0xE0, s[1] as nat - 0x80, s[2] as nat - 0x80;
    assert DecodeScalar(s) == 64 * (64 * a + b) + c;
    Digits64(64 * a + b, c);
    Digits64(a, b);
    assert DecodeScalar(s) / 4096 == DecodeScalar(s) / 64 / 64;
  }

  lemma FourBytesDecoded(s: seq<Byte>)
    requires s != [] && SequenceLength(s) == 4
    ensures IsScalar(DecodeScalar(s)) && EncodeScalar(DecodeScalar(s)) == s[..4]
  {
    var a, b, c, d := s[0] as nat - 0xF0, s[1] as nat - 0x80, s[2] as nat - 0x80, s[3] as nat - 0x80;
    var scalar := DecodeScalar(s);
    assert scalar == 64 * (64 * (64 * a + b) + c) + d;
    Digits64(64 * (64 * a + b) + c, d);
    Digits64(64 * a + b, c);
    Digits64(a, b);
    assert scalar / 4096 == scalar / 64 / 64 && scalar / 0x4_0000 == scalar / 64 / 64 / 64;
  }

  lemma ScalarDecoded(s: seq<Byte>)
    requires s != [] && SequenceLength(s) > 0
    ensures IsScalar(DecodeScalar(s)) && EncodeScalar(DecodeScalar(s)) == s[..SequenceLength(s)]
  {
    match SequenceLength(s) {
      case 1 =>
      case 2 => TwoBytesDecoded(s);
      case 3 => ThreeBytesDecoded(s);
      case _ => FourBytesDecoded(s);
    }
  }

  lemma {:induction false} TextIsValid(cs: seq<nat>)
    requires AllScalars(cs)
    ensures ValidUtf8(EncodeText(cs))
  {
    if cs != [] {
      var head, tail := EncodeScalar(cs[0]), EncodeText(cs[1..]);
      ScalarEncoded(cs[0], tail);
      assert (head + tail)[|head|..] == tail;
      TextIsValid(cs[1..]);
    }
  }

  lemma {:induction false} ValidIsText(s: seq<Byte>) returns (cs: seq<nat>)
    requires ValidUtf8(s)
    ensures AllScalars(cs) && EncodeText(cs) == s
    decreases |s|
  {
    if s == [] {
      cs := [];
    } else {
      var n := SequenceLength(s);
      var later := ValidIsText(s[n..]);
      ScalarDecoded(s);
      cs := [DecodeScalar(s)] + later;
      assert cs[1..] == later;
      assert s == s[..n] + s[n..];
    }
  }

  /** The bytes that pass for text are those that encode some scalar values. */
  lemma ValidUtf8Exact(s: seq<Byte>)
    ensures ValidUtf8(s) <==> exists cs: seq<nat> :: AllScalars(cs) && EncodeText(cs) == s
  {
    if ValidUtf8(s) {
      var cs := ValidIsText(s);
    }
    forall cs: seq<nat> | AllScalars(cs) && EncodeText(cs) == s ensures ValidUtf8(s) {
      TextIsValid(cs);
    }
  }
}
