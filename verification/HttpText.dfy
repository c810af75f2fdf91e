/**
 The string operations that the HTTP code takes from Rust's standard library, on
 text written as bytes.
 */
module HttpText {
  import opened Bytes
  import opened Options
  import opened HttpReader

  function Codes(s: string): seq<int> {
    seq(|s|, i requires 0 <= i < |s| => s[i] as int)
  }

  /** `str::from_utf8` succeeds. */
  predicate IsUtf8(s: string) {
    ValidUtf8(Codes(s))
  }

  lemma Utf8Join(a: string, b: string)
    requires IsUtf8(a) && IsUtf8(b)
    ensures IsUtf8(a + b)
  {
    Utf8Concat(Codes(a), Codes(b));
    assert Codes(a + b) == Codes(a) + Codes(b);
  }

  predicate Ascii(s: string) {
    forall i :: 0 <= i < |s| ==> s[i] as int < 0x80
  }

  lemma {:induction false} AsciiIsUtf8(s: string)
    requires Ascii(s)
    ensures IsUtf8(s)
    decreases |s|
  {
    if s != "" {
      AsciiIsUtf8(s[1..]);
      assert Codes(s)[1..] == Codes(s[1..]);
    }
  }

  /** A string without line breaks. */
  predicate Plain(s: string) {
    forall i :: 0 <= i < |s| ==> s[i] != '\r' && s[i] != '\n'
  }

  predicate Lacks(s: string, c: char) {
    forall i :: 0 <= i < |s| ==> s[i] != c
  }

  // ---------------------------------------------------------------------
  // Splitting
  // ---------------------------------------------------------------------

  datatype Cut = Cut(head: string, tail: Option<string>)

  /** `split_once(c)`, and the first step of `split(c)`. */
  function CutAt(s: string, c: char): Cut {
    var i := IndexOf(s, c);
    if i == |s| then Cut(s, None) else Cut(s[..i], Some(s[i + 1..]))
  }

  lemma CutFirst(head: string, c: char, tail: string)
    requires Lacks(head, c)
    ensures CutAt(head + [c] + tail, c) == Cut(head, Some(tail))
  {
    var s := head + [c] + tail;
    assert forall k :: 0 <= k < |head| ==> s[k] == head[k];
    IndexOfIs(s, c, |head|);
    assert s[..|head|] == head && s[|head| + 1..] == tail;
  }

  lemma CutNone(s: string, c: char)
    requires Lacks(s, c)
    ensures CutAt(s, c) == Cut(s, None)
  {
    IndexOfIs(s, c, |s|);
  }

  function Split(s: string, c: char): (parts: seq<string>)
    ensures |parts| >= 1
    decreases |s|
  {
    var i := IndexOf(s, c);
    if i == |s| then [s] else [s[..i]] + Split(s[i + 1..], c)
  }

  lemma SplitFirst(head: string, c: char, tail: string)
    requires Lacks(head, c)
    ensures Split(head + [c] + tail, c) == [head] + Split(tail, c)
  {
    var s := head + [c] + tail;
    assert forall k :: 0 <= k < |head| ==> s[k] == head[k];
    IndexOfIs(s, c, |head|);
    assert s[..|head|] == head && s[|head| + 1..] == tail;
  }

  // ---------------------------------------------------------------------
  // Trimming
  // ---------------------------------------------------------------------

  /** `trim_end_matches` for a set of characters. */
  function TrimEndOf(s: string, cs: set<char>): string {
    if s != "" && s[|s| - 1] in cs then TrimEndOf(s[..|s| - 1], cs) else s
  }

  predicate AsciiSpace(c: char) {
    c == ' ' || '\t' <= c <= '\r'
  }

  /** The two- and three-byte encodings of the other `White_Space` characters. */
  predicate TwoByteSpace(a: int, b: int) {
    a == 0xC2 && (b == 0x85 || b == 0xA0)
  }

  predicate ThreeByteSpace(a: int, b: int, c: int) {
    || (a == 0xE1 && b == 0x9A && c == 0x80)
    || (a == 0xE2 && b == 0x80 && (0x80 <= c <= 0x8A || c == 0xA8 || c == 0xA9 || c == 0xAF))
    || (a == 0xE2 && b == 0x81 && c == 0x9F)
    || (a == 0xE3 && b == 0x80 && c == 0x80)
  }

  /** Length of the white-space character at the front, or 0. */
  function SpaceBefore(s: string): (n: nat)
    ensures n <= |s|
  {
    if s == "" then 0
    else if AsciiSpace(s[0]) then 1
    else if |s| >= 2 && TwoByteSpace(s[0] as int, s[1] as int) then 2
    else if |s| >= 3 && ThreeByteSpace(s[0] as int, s[1] as int, s[2] as int) then 3
    else 0
  }

  function SpaceAfter(s: string): (n: nat)
    ensures n <= |s|
  {
    var k := |s|;
    if k == 0 then 0
    else if AsciiSpace(s[k - 1]) then 1
    else if k >= 2 && TwoByteSpace(s[k - 2] as int, s[k - 1] as int) then 2
    else if k >= 3 && ThreeByteSpace(s[k - 3] as int, s[k - 2] as int, s[k - 1] as int) then 3
    else 0
  }

  function TrimStart(s: string): string
    decreases |s|
  {
    var n := SpaceBefore(s);
    if n == 0 then s else TrimStart(s[n..])
  }

  function TrimEnd(s: string): string
    decreases |s|
  {
    var n := SpaceAfter(s);
    if n == 0 then s else TrimEnd(s[..|s| - n])
  }

  function Trim(s: string): string {
    TrimEnd(TrimStart(s))
  }

  predicate Visible(c: char) {
    '!' <= c <= '~'
  }

  /** Starts and ends with a visible character. */
  predicate Tight(v: string) {
    v != "" && Visible(v[0]) && Visible(v[|v| - 1])
  }

  lemma TrimmedAlready(v: string)
    requires Tight(v)
    ensures Trim(v) == v && Trim(" " + v) == v
  {
    assert (" " + v)[1..] == v;
    assert SpaceBefore(v) == 0 && SpaceAfter(v) == 0;
    assert TrimStart(v) == v;
    assert TrimEnd(v) == v;
  }

  function Lower(c: char): char {
    if 'A' <= c <= 'Z' then (c as int + 32) as char else c
  }

  predicate EqIgnoreCase(a: string, b: string) {
    |a| == |b| && forall i :: 0 <= i < |a| ==> Lower(a[i]) == Lower(b[i])
  }

  // ---------------------------------------------------------------------
  // Numbers
  // ---------------------------------------------------------------------

  const USIZE := 0x1_0000_0000_0000_0000

  predicate IsDigit(c: char) {
    '0' <= c <= '9'
  }

  predicate AllDigits(s: string) {
    s != "" && forall i :: 0 <= i < |s| ==> IsDigit(s[i])
  }

  function DigitValue(c: char): nat
    requires IsDigit(c)
  {
    c as int - '0' as int
  }

  function DigitsValue(s: string): nat
    requires forall i :: 0 <= i < |s| ==> IsDigit(s[i])
  {
    if s == "" then 0 else 10 * DigitsValue(s[..|s| - 1]) + DigitValue(s[|s| - 1])
  }

  /** `str::parse::<usize>`: an optional plus sign, then digits, within 64 bits. */
  function ParseUsize(s: string): Option<nat> {
    var digits := if s != "" && s[0] == '+' then s[1..] else s;
    if !AllDigits(digits) || DigitsValue(digits) >= USIZE then None else Some(DigitsValue(digits))
  }

  /** `usize::to_string`. */
  function Decimal(n: nat): (s: string)
    ensures AllDigits(s)
  {
    var last := ('0' as int + n % 10) as char;
    if n < 10 then [last] else Decimal(n / 10) + [last]
  }

  lemma {:induction false} DecimalValue(n: nat)
    ensures DigitsValue(Decimal(n)) == n
  {
    var last := ('0' as int + n % 10) as char;
    if n < 10 {
      assert [last][..0] == "";
    } else {
      DecimalValue(n / 10);
      var s := Decimal(n);
      assert s[..|s| - 1] == Decimal(n / 10) && s[|s| - 1] == last;
    }
  }

  lemma DecimalRoundTrip(n: nat)
    requires n < USIZE
    ensures ParseUsize(Decimal(n)) == Some(n)
  {
    DecimalValue(n);
    assert IsDigit(Decimal(n)[0]);
  }
}
