/**
 Bytes, little-endian 16-bit lengths and the UTF-8 well-formedness test that
 every string read from the wire goes through.
 */
module Bytes {

  type byte = b: int | 0 <= b < 256

  type Bytes = seq<byte>

  const U16_MAX := 0xFFFF

  // The bytes of a length are counted off, 256 at a time, so that the many
  // proofs about payloads meet no division; `U16LEIsArithmetic` and
  // `FromU16LEIsArithmetic` say that this is the usual arithmetic.

  function LowByte(n: nat): byte {
    if n < 256 then n else LowByte(n - 256)
  }

  function HighByte(n: nat): nat {
    if n < 256 then 0 else 1 + HighByte(n - 256)
  }

  function Pages(high: nat): nat {
    if high == 0 then 0 else 256 + Pages(high - 1)
  }

  lemma {:induction false} BytesAddUp(n: nat)
    ensures n == LowByte(n) + 256 * HighByte(n)
  {
    if n >= 256 {
      BytesAddUp(n - 256);
    }
  }

  lemma {:induction false} PagesAre(high: nat)
    ensures Pages(high) == 256 * high
  {
    if high > 0 {
      PagesAre(high - 1);
    }
  }

  /** The two bytes `put_u16_le` appends for a length that fits 16 bits. */
  function U16LE(n: nat): (r: Bytes)
    requires n <= U16_MAX
    ensures |r| == 2
  {
    BytesAddUp(n);
    [LowByte(n), HighByte(n)]
  }

  function FromU16LE(lo: byte, hi: byte): (n: nat)
    ensures n <= U16_MAX
  {
    PagesAre(hi);
    lo + Pages(hi)
  }

  lemma U16LEIsArithmetic(n: nat)
    requires n <= U16_MAX
    ensures U16LE(n) == [n % 256, n / 256]
  {
    BytesAddUp(n);
  }

  lemma FromU16LEIsArithmetic(lo: byte, hi: byte)
    ensures FromU16LE(lo, hi) == lo + 256 * hi
  {
    PagesAre(hi);
  }

  /** Reading two bytes as a length and writing it again gives the same two bytes. */
  lemma LengthBytes(lo: byte, hi: byte)
    ensures U16LE(FromU16LE(lo, hi)) == [lo, hi]
  {
    FromU16LEIsArithmetic(lo, hi);
    U16LEIsArithmetic(FromU16LE(lo, hi));
  }

  /** The bytes written for a length read back as that length. */
  lemma LengthReadsBack(n: nat)
    requires n <= U16_MAX
    ensures FromU16LE(U16LE(n)[0], U16LE(n)[1]) == n
  {
    BytesAddUp(n);
    PagesAre(HighByte(n));
  }

  predicate Continuation(b: int) {
    0x80 <= b <= 0xBF
  }

  predicate ThreeByteLead(a: int, b: int) {
    || (a == 0xE0 && 0xA0 <= b <= 0xBF)
    || ((0xE1 <= a <= 0xEC || 0xEE <= a <= 0xEF) && Continuation(b))
    || (a == 0xED && 0x80 <= b <= 0x9F)
  }

  predicate FourByteLead(a: int, b: int) {
    || (a == 0xF0 && 0x90 <= b <= 0xBF)
    || (0xF1 <= a <= 0xF3 && Continuation(b))
    || (a == 0xF4 && 0x80 <= b <= 0x8F)
  }

  /** Length of the well-formed UTF-8 sequence that starts `s`, or 0 if there is none. */
  function Utf8Width(s: seq<int>): (w: nat)
    ensures w <= |s|
  {
    if s == [] then 0
    else if 0 <= s[0] < 0x80 then 1
    else if |s| >= 2 && 0xC2 <= s[0] <= 0xDF && Continuation(s[1]) then 2
    else if |s| >= 3 && ThreeByteLead(s[0], s[1]) && Continuation(s[2]) then 3
    else if |s| >= 4 && FourByteLead(s[0], s[1]) && Continuation(s[2]) && Continuation(s[3]) then 4
    else 0
  }

  predicate ValidUtf8(s: seq<int>) {
    s == [] || (Utf8Width(s) > 0 && ValidUtf8(s[Utf8Width(s)..]))
  }

  lemma WidthStays(a: seq<int>, b: seq<int>)
    requires Utf8Width(a) > 0
    ensures Utf8Width(a + b) == Utf8Width(a)
  {
    assert forall i :: 0 <= i < |a| ==> (a + b)[i] == a[i];
  }

  lemma DropFromConcat(a: seq<int>, b: seq<int>, n: nat)
    requires n <= |a|
    ensures (a + b)[n..] == a[n..] + b
  {
  }

  lemma {:induction false} Utf8Concat(a: seq<int>, b: seq<int>)
    requires ValidUtf8(a) && ValidUtf8(b)
    ensures ValidUtf8(a + b)
    decreases |a|
  {
    if a == [] {
      assert a + b == b;
    } else {
      WidthStays(a, b);
      Utf8Concat(a[Utf8Width(a)..], b);
      DropFromConcat(a, b, Utf8Width(a));
    }
  }

  /** `s` encodes the Unicode scalar value `cp` in as few bytes as possible: the table in section 3 of RFC 3629. */
  predicate Encodes(cp: int, s: seq<int>) {
    || (|s| == 1 && 0 <= cp < 0x80 && s[0] == cp)
    || (|s| == 2 && 0x80 <= cp < 0x800 && Continuation(s[1]) && cp == 64 * (s[0] - 0xC0) + (s[1] - 0x80))
    || (|s| == 3 && 0x800 <= cp < 0x1_0000 && !(0xD800 <= cp <= 0xDFFF)
        && Continuation(s[1]) && Continuation(s[2])
        && cp == 0x1000 * (s[0] - 0xE0) + 64 * (s[1] - 0x80) + (s[2] - 0x80))
    || (|s| == 4 && 0x1_0000 <= cp <= 0x10_FFFF
        && Continuation(s[1]) && Continuation(s[2]) && Continuation(s[3])
        && cp == 0x4_0000 * (s[0] - 0xF0) + 0x1000 * (s[1] - 0x80) + 64 * (s[2] - 0x80) + (s[3] - 0x80))
  }

  /** The value of a sequence of that width. */
  function Scalar(s: seq<int>): int
    requires 1 <= |s| <= 4
  {
    if |s| == 1 then s[0]
    else if |s| == 2 then 64 * (s[0] - 0xC0) + (s[1] - 0x80)
    else if |s| == 3 then 0x1000 * (s[0] - 0xE0) + 64 * (s[1] - 0x80) + (s[2] - 0x80)
    else 0x4_0000 * (s[0] - 0xF0) + 0x1000 * (s[1] - 0x80) + 64 * (s[2] - 0x80) + (s[3] - 0x80)
  }

  lemma WidthIsEncoding(s: seq<int>)
    requires Utf8Width(s) > 0
    ensures Utf8Width(s) <= 4 && Encodes(Scalar(s[..Utf8Width(s)]), s[..Utf8Width(s)])
  {
  }

  lemma EncodingHasWidth(s: seq<int>, n: nat, cp: int)
    requires n <= |s| && Encodes(cp, s[..n])
    ensures Utf8Width(s) == n
  {
    assert forall i :: 0 <= i < n ==> s[..n][i] == s[i];
  }

  /** A text: encoded scalar values, one behind the other. */
  ghost predicate EncodedText(s: seq<int>)
    decreases |s|
  {
    s == [] || exists n: nat, cp :: 0 < n <= |s| && Encodes(cp, s[..n]) && EncodedText(s[n..])
  }

  /** The test accepts exactly the texts: no surrogates, nothing overlong, nothing above U+10FFFF. */
  lemma {:induction false} ValidExactly(s: seq<int>)
    ensures ValidUtf8(s) <==> EncodedText(s)
    decreases |s|
  {
    if s != [] && Utf8Width(s) > 0 {
      var n := Utf8Width(s);
      WidthIsEncoding(s);
      ValidExactly(s[n..]);
    }
    if s != [] && EncodedText(s) {
      var n: nat, cp :| 0 < n <= |s| && Encodes(cp, s[..n]) && EncodedText(s[n..]);
      EncodingHasWidth(s, n, cp);
    }
  }

  /** A Rust `String`: the bytes of its UTF-8 encoding. */
  type Text = s: Bytes | ValidUtf8(s)

  /** A `[u8; 32]`: nonces and HMAC-SHA256 outputs. */
  type Bytes32 = s: Bytes | |s| == 32 witness seq(32, i => 0)
}
