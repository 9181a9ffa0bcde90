/**
 Byte strings: little-endian integers and UTF-8.

 A Python `str` is a sequence of code points, lone surrogates included, which is what makes
 encoding it partial; a Dafny `string` cannot hold a surrogate, so texts are sequences of
 integers here.
 */
module Bytes {

  import opened Wrappers

  type Byte = b: int | 0 <= b < 256
  type ByteString = seq<Byte>

  type CodePoint = c: int | 0 <= c < 0x11_0000
  type Text = seq<CodePoint>

  /** The code points of a literal in the code. */
  function TextOf(s: string): (t: Text)
    ensures |t| == |s|
    ensures forall i :: 0 <= i < |s| ==> t[i] == s[i] as int
  {
    seq(|s|, i requires 0 <= i < |s| => s[i] as int)
  }

  /** `b"".join(parts)`. */
  function Joined(parts: seq<ByteString>): ByteString {
    if parts == [] then [] else parts[0] + Joined(parts[1..])
  }

  lemma {:induction false} JoinedConcat(a: seq<ByteString>, b: seq<ByteString>)
    ensures Joined(a + b) == Joined(a) + Joined(b)
  {
    if a == [] {
      assert a + b == b;
    } else {
      JoinedConcat(a[1..], b);
      assert (a + b)[0] == a[0] && (a + b)[1..] == a[1..] + b;
      Associative(a[0], Joined(a[1..]), Joined(b));
    }
  }

  lemma Associative(a: ByteString, b: ByteString, c: ByteString)
    ensures a + (b + c) == a + b + c
  {
  }

  lemma JoinedAppend(parts: seq<ByteString>, last: ByteString)
    ensures Joined(parts + [last]) == Joined(parts) + last
  {
    JoinedConcat(parts, [last]);
    assert [last][1..] == [];
    assert Joined([last]) == last + [];
  }

  // ----- Little-endian integers

  function Pow256(n: nat): (p: nat)
    ensures p > 0
  {
    if n == 0 then 1 else 256 * Pow256(n - 1)
  }

  function LittleEndian(n: nat, width: nat): (b: ByteString)
    ensures |b| == width
  {
    if width == 0 then [] else [n % 256] + LittleEndian(n / 256, width - 1)
  }

  function FromLittleEndian(b: ByteString): (n: nat)
    ensures n < Pow256(|b|)
  {
    if b == [] then 0 else b[0] + 256 * FromLittleEndian(b[1..])
  }

  lemma {:induction false} LittleEndianRoundTrip(n: nat, width: nat)
    requires n < Pow256(width)
    ensures FromLittleEndian(LittleEndian(n, width)) == n
  {
    if width > 0 {
      LittleEndianRoundTrip(n / 256, width - 1);
      assert LittleEndian(n, width)[1..] == LittleEndian(n / 256, width - 1);
    }
  }

  /** Every byte string of a width is what some number is written as. */
  lemma {:induction false} LittleEndianOf(b: ByteString)
    ensures LittleEndian(FromLittleEndian(b), |b|) == b
  {
    hide Pow256;
    if b != [] {
      LittleEndianOf(b[1..]);
      LowByte(b[0], FromLittleEndian(b[1..]));
      assert b == [b[0]] + b[1..];
    }
  }

  lemma LowByte(low: Byte, high: nat)
    ensures (low + 256 * high) % 256 == low && (low + 256 * high) / 256 == high
  {
  }

  lemma Pow256Values()
    ensures Pow256(4) == 0x1_0000_0000
    ensures Pow256(8) == 0x1_0000_0000_0000_0000
  {
    assert Pow256(1) == 256;
    assert Pow256(2) == 0x1_0000;
    assert Pow256(3) == 0x100_0000;
    assert Pow256(4) == 0x1_0000_0000;
    assert Pow256(5) == 0x100_0000_0000;
    assert Pow256(6) == 0x1_0000_0000_0000;
    assert Pow256(7) == 0x100_0000_0000_0000;
  }

  /** Two's complement in `width` bytes. */
  function SignedBytes(i: int, width: nat): (b: ByteString)
    requires -(Pow256(width) as int) <= 2 * i < Pow256(width)
    ensures |b| == width
  {
    LittleEndian(if i < 0 then i + Pow256(width) else i, width)
  }

  function FromSignedBytes(b: ByteString): (i: int)
    ensures -(Pow256(|b|) as int) <= 2 * i < Pow256(|b|)
  {
    AsSigned(FromLittleEndian(b), Pow256(|b|))
  }

  /** The value in [-modulus/2, modulus/2) congruent to `n`. */
  function AsSigned(n: nat, modulus: nat): int {
    if 2 * n >= modulus then n - modulus else n
  }

  lemma SignedRoundTrip(i: int, width: nat)
    requires -(Pow256(width) as int) <= 2 * i < Pow256(width)
    ensures FromSignedBytes(SignedBytes(i, width)) == i
  {
    LittleEndianRoundTrip(if i < 0 then i + Pow256(width) else i, width);
  }

  lemma SignedBytesOf(b: ByteString)
    ensures SignedBytes(FromSignedBytes(b), |b|) == b
  {
    LittleEndianOf(b);
  }

  // ----- UTF-8 (RFC 3629)

  predicate Surrogate(c: CodePoint) {
    0xD800 <= c < 0xE000
  }

  predicate ValidUnicode(t: Text) {
    forall i :: 0 <= i < |t| ==> !Surrogate(t[i])
  }

  predicate Tail(b: Byte) {
    0x80 <= b < 0xC0
  }

  /** Four groups of six bits, most significant first. */
  function SixBits(a: int, b: int, c: int, d: int): int {
    0x4_0000 * a + 0x1000 * b + 64 * c + d
  }

  function EncodeScalar(c: CodePoint): (b: ByteString)
    requires !Surrogate(c)
    ensures 1 <= |b| <= 4
  {
    if c < 0x80 then [c]
    else if c < 0x800 then [0xC0 + c / 64, 0x80 + c % 64]
    else if c < 0x1_0000 then [0xE0 + c / 0x1000, 0x80 + c / 64 % 64, 0x80 + c % 64]
    else [0xF0 + c / 0x4_0000, 0x80 + c / 0x1000 % 64, 0x80 + c / 64 % 64, 0x80 + c % 64]
  }

  /** One scalar value off the front of `b`, refused when overlong, out of range or a surrogate. */
  function DecodeScalar(b: ByteString): (r: Option<(CodePoint, nat)>)
    ensures r.Some? ==> 1 <= r.value.1 <= |b| && !Surrogate(r.value.0)
  {
    if |b| >= 1 && b[0] < 0x80 then Some((b[0], 1))
    else if |b| >= 2 && 0xC2 <= b[0] < 0xE0 && Tail(b[1]) then
      Some((SixBits(0, 0, b[0] - 0xC0, b[1] - 0x80), 2))
    else if |b| >= 3 && 0xE0 <= b[0] < 0xF0 && Tail(b[1]) && Tail(b[2]) then
      var c := SixBits(0, b[0] - 0xE0, b[1] - 0x80, b[2] - 0x80);
      if c < 0x800 || Surrogate(c) then None else Some((c, 3))
    else if |b| >= 4 && 0xF0 <= b[0] < 0xF5 && Tail(b[1]) && Tail(b[2]) && Tail(b[3]) then
      var c := SixBits(b[0] - 0xF0, b[1] - 0x80, b[2] - 0x80, b[3] - 0x80);
      if c < 0x1_0000 || c >= 0x11_0000 then None else Some((c, 4))
    else None
  }

  function EncodeUtf8(t: Text): ByteString
    requires ValidUnicode(t)
  {
    if t == [] then [] else EncodeScalar(t[0]) + EncodeUtf8(t[1..])
  }

  function DecodeUtf8(b: ByteString): (r: Option<Text>)
    ensures r.Some? ==> ValidUnicode(r.value)
    decreases |b|
  {
    if b == [] then Some([]) else
    match DecodeScalar(b)
    case None => None
    case Some((c, n)) =>
      match DecodeUtf8(b[n..])
      case None => None
      case Some(t) => Some([c] + t)
  }

  lemma SixBitsOf(c: nat)
    ensures c == SixBits(0, 0, c / 64, c % 64)
    ensures c == SixBits(0, c / 0x1000, c / 64 % 64, c % 64)
    ensures c == SixBits(c / 0x4_0000, c / 0x1000 % 64, c / 64 % 64, c % 64)
  {
    var d, e := c / 64, c / 0x1000;
    assert c == 64 * d + c % 64;
    assert d / 64 == e;
    assert d == 64 * e + d % 64;
    assert e / 64 == c / 0x4_0000;
    assert e == 64 * (c / 0x4_0000) + e % 64;
  }

  lemma EncodedScalarDecodes(c: CodePoint)
    requires !Surrogate(c)
    ensures DecodeScalar(EncodeScalar(c)) == Some((c, |EncodeScalar(c)|))
  {
    SixBitsOf(c);
  }

  /** Decoding looks at no byte past the scalar it returns. */
  lemma DecodedScalarIgnoresRest(b: ByteString, rest: ByteString)
    requires DecodeScalar(b).Some?
    ensures DecodeScalar(b + rest) == DecodeScalar(b)
  {
    var r := b + rest;
    assert |r| >= |b| && forall i :: 0 <= i < |b| ==> r[i] == b[i];
  }

  lemma ScalarRoundTrip(c: CodePoint, rest: ByteString)
    requires !Surrogate(c)
    ensures DecodeScalar(EncodeScalar(c) + rest) == Some((c, |EncodeScalar(c)|))
  {
    EncodedScalarDecodes(c);
    DecodedScalarIgnoresRest(EncodeScalar(c), rest);
  }

  lemma {:induction false} Utf8RoundTrip(t: Text)
    requires ValidUnicode(t)
    ensures DecodeUtf8(EncodeUtf8(t)) == Some(t)
  {
    if t != [] {
      var head, tail := EncodeScalar(t[0]), EncodeUtf8(t[1..]);
      ScalarRoundTrip(t[0], tail);
      Utf8RoundTrip(t[1..]);
      assert (head + tail)[|head|..] == tail;
      assert [t[0]] + t[1..] == t;
    }
  }

  /** Strict decoding accepts only what encoding writes. */
  lemma DecodedScalarEncodes(b: ByteString)
    requires DecodeScalar(b).Some?
    ensures EncodeScalar(DecodeScalar(b).value.0) == b[..DecodeScalar(b).value.1]
  {
    var (c, n) := DecodeScalar(b).value;
    if n == 2 {
      TwoBytes(b[0] - 0xC0, b[1] - 0x80);
    } else if n == 3 {
      ThreeBytes(b[0] - 0xE0, b[1] - 0x80, b[2] - 0x80);
    } else if n == 4 {
      FourBytes(b[0] - 0xF0, b[1] - 0x80, b[2] - 0x80, b[3] - 0x80);
    }
    hide EncodeScalar, SixBits;
  }

  lemma TwoBytes(c: nat, d: nat)
    requires 2 <= c < 32 && d < 64
    ensures EncodeScalar(SixBits(0, 0, c, d)) == [0xC0 + c, 0x80 + d]
  {
    SixBitsParts(0, 0, c, d);
  }

  lemma ThreeBytes(b: nat, c: nat, d: nat)
    requires b < 16 && c < 64 && d < 64 && SixBits(0, b, c, d) >= 0x800 && !Surrogate(SixBits(0, b, c, d))
    ensures EncodeScalar(SixBits(0, b, c, d)) == [0xE0 + b, 0x80 + c, 0x80 + d]
  {
    SixBitsParts(0, b, c, d);
  }

  lemma FourBytes(a: nat, b: nat, c: nat, d: nat)
    requires a < 5 && b < 64 && c < 64 && d < 64 && 0x1_0000 <= SixBits(a, b, c, d) < 0x11_0000
    ensures EncodeScalar(SixBits(a, b, c, d)) == [0xF0 + a, 0x80 + b, 0x80 + c, 0x80 + d]
  {
    SixBitsParts(a, b, c, d);
  }

  lemma SixBitsParts(a: nat, b: nat, c: nat, d: nat)
    requires b < 64 && c < 64 && d < 64
    ensures var s := SixBits(a, b, c, d);
            s % 64 == d && s / 64 % 64 == c && s / 0x1000 % 64 == b && s / 0x4_0000 == a
            && s / 0x1000 == 64 * a + b && s / 64 == 0x1000 * a + 64 * b + c
  {
    LowSix(0x1000 * a + 64 * b + c, d);
    LowSix(64 * a + b, c);
    LowSix(a, b);
    DivideTwice(SixBits(a, b, c, d), 64);
    DivideTwice(SixBits(a, b, c, d), 0x1000);
  }

  lemma LowSix(high: nat, low: nat)
    requires low < 64
    ensures (64 * high + low) / 64 == high && (64 * high + low) % 64 == low
  {
  }

  lemma DivideTwice(n: nat, m: nat)
    requires m == 64 || m == 0x1000
    ensures n / m / 64 == n / (64 * m)
  {
  }

  lemma {:induction false} Utf8DecodeEncodes(b: ByteString)
    requires DecodeUtf8(b).Some?
    ensures EncodeUtf8(DecodeUtf8(b).value) == b
    decreases |b|
  {
    hide DecodeScalar, EncodeScalar;
    if b != [] {
      var (c, n) := DecodeScalar(b).value;
      DecodedScalarEncodes(b);
      Utf8DecodeEncodes(b[n..]);
      assert DecodeUtf8(b).value[1..] == DecodeUtf8(b[n..]).value;
      assert b == b[..n] + b[n..];
    }
  }
}
