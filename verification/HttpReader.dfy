/**
 The bounded readers of the static HTTP service, over a buffered stream that
 arrives in chunks.

 HTTP text is a sequence of bytes, written as a `string` with one `char` per byte.
 */
module HttpReader {
  import opened Options

  function Flatten(chunks: seq<string>): string {
    if chunks == [] then "" else chunks[0] + Flatten(chunks[1..])
  }

  predicate NonEmptyChunks(chunks: seq<string>) {
    forall i :: 0 <= i < |chunks| ==> chunks[i] != ""
  }

  /** What is left of the chunks after the first `n` bytes: boundaries further on do not move. */
  function Skip(chunks: seq<string>, n: nat): seq<string>
    requires n <= |Flatten(chunks)|
  {
    if n == 0 then chunks
    else if n < |chunks[0]| then [chunks[0][n..]] + chunks[1..]
    else Skip(chunks[1..], n - |chunks[0]|)
  }

  lemma {:induction false} SkipLeaves(chunks: seq<string>, n: nat)
    requires n <= |Flatten(chunks)|
    ensures Flatten(Skip(chunks, n)) == Flatten(chunks)[n..]
    ensures NonEmptyChunks(chunks) ==> NonEmptyChunks(Skip(chunks, n))
    decreases |chunks|
  {
    if n > 0 {
      if n < |chunks[0]| {
        assert Skip(chunks, n)[1..] == chunks[1..];
        assert Flatten(chunks)[n..] == chunks[0][n..] + Flatten(chunks[1..]);
      } else {
        SkipLeaves(chunks[1..], n - |chunks[0]|);
        assert Flatten(chunks)[n..] == Flatten(chunks[1..])[n - |chunks[0]|..];
      }
    }
  }

  lemma SkipLength(chunks: seq<string>, n: nat)
    requires n <= |Flatten(chunks)|
    ensures |Flatten(Skip(chunks, n))| == |Flatten(chunks)| - n
  {
    SkipLeaves(chunks, n);
  }

  lemma {:induction false} SkipSkip(chunks: seq<string>, m: nat, n: nat)
    requires NonEmptyChunks(chunks) && m + n <= |Flatten(chunks)|
    ensures n <= |Flatten(Skip(chunks, m))|
    ensures Skip(Skip(chunks, m), n) == Skip(chunks, m + n)
    decreases |chunks|
  {
    SkipLeaves(chunks, m);
    if m > 0 && n > 0 {
      var c := chunks[0];
      if m < |c| {
        var s := Skip(chunks, m);
        assert s[0] == c[m..] && s[1..] == chunks[1..];
        if m + n < |c| {
          assert c[m..][n..] == c[m + n..];
        }
      } else {
        SkipSkip(chunks[1..], m - |c|, n);
      }
    }
  }

  /** A `BufReader`: `fill_buf` shows the current chunk, `consume` advances inside it. */
  class BufReader {
    var chunks: seq<string>

    predicate Valid()
      reads this
    {
      NonEmptyChunks(chunks)
    }

    constructor (chunks: seq<string>)
      requires NonEmptyChunks(chunks)
      ensures this.chunks == chunks && Valid()
    {
      this.chunks := chunks;
    }

    function Rest(): string
      reads this
    {
      Flatten(chunks)
    }

    /** Empty exactly at end of file. */
    function FillBuf(): (chunk: string)
      reads this
      requires Valid()
      ensures chunk == "" <==> Rest() == ""
      ensures chunk <= Rest()
    {
      if chunks == [] then "" else chunks[0]
    }

    method Consume(n: nat)
      requires Valid() && n <= |FillBuf()|
      modifies this
      ensures Valid() && n <= |Flatten(old(chunks))| && chunks == Skip(old(chunks), n)
    {
      SkipLeaves(chunks, n);
      if n > 0 {
        if n < |chunks[0]| {
          chunks := [chunks[0][n..]] + chunks[1..];
        } else {
          chunks := chunks[1..];
        }
      }
    }
  }

  // ---------------------------------------------------------------------
  // Lines
  // ---------------------------------------------------------------------

  datatype LineResult = Line(bytes: string) | NoData | LineTooLong | ClosedMidLine

  /** Index of the first `delim`, or the length. */
  function IndexOf(s: string, delim: char): (i: nat)
    ensures i <= |s|
    ensures forall k :: 0 <= k < i ==> s[k] != delim
    ensures i < |s| ==> s[i] == delim
  {
    if s == "" || s[0] == delim then 0 else 1 + IndexOf(s[1..], delim)
  }

  lemma IndexOfIs(s: string, delim: char, i: nat)
    requires i <= |s| && (forall k :: 0 <= k < i ==> s[k] != delim) && (i < |s| ==> s[i] == delim)
    ensures IndexOf(s, delim) == i
  {
  }

  /** The line at the start of a whole stream, without looking at chunks. */
  function FirstLine(s: string, delim: char, max: nat): LineResult {
    var i := IndexOf(s, delim);
    if i < |s| then if i + 1 <= max then Line(s[..i + 1]) else LineTooLong
    else if |s| > max then LineTooLong
    else if s == "" then NoData
    else ClosedMidLine
  }

  /** Some delimiter lies within the first `max` bytes. */
  predicate DelimiterWithin(s: string, delim: char, max: nat) {
    exists k :: 0 <= k < |s| && k < max && s[k] == delim
  }

  /** What the reading of a line means: the line up to its first delimiter if that is within `max` bytes, or why there is none. */
  lemma FirstLineMeans(s: string, delim: char, max: nat)
    ensures
      var r := FirstLine(s, delim, max);
      && (r.Line? <==> DelimiterWithin(s, delim, max))
      && (r.Line? ==> r.bytes <= s && r.bytes != "" && IndexOf(r.bytes, delim) == |r.bytes| - 1)
      && (r.LineTooLong? <==> |s| > max && !DelimiterWithin(s, delim, max))
      && (r.NoData? <==> s == "")
  {
    var i := IndexOf(s, delim);
    if i < |s| {
      assert s[i] == delim;
      IndexOfIs(s[..i + 1], delim, i);
    }
  }

  /**
   `read_until_limited`. The result is the same for every way the stream is cut
   into chunks, and a line that is returned is exactly what was consumed.
   */
  method ReadUntilLimited(recv: BufReader, delim: char, max: nat) returns (r: LineResult)
    requires recv.Valid()
    modifies recv
    ensures recv.Valid()
    ensures r == FirstLine(old(recv.Rest()), delim, max)
    ensures r.Line? ==>
      && |r.bytes| <= |Flatten(old(recv.chunks))|
      && recv.chunks == Skip(old(recv.chunks), |r.bytes|)
  {
    var buf := "";
    ghost var start := recv.chunks;
    while true
      invariant recv.Valid() && Taken(start, buf, recv.chunks) && |buf| <= max
      invariant forall k :: 0 <= k < |buf| ==> buf[k] != delim
      decreases |recv.Rest()|
    {
      var chunk := recv.FillBuf();
      if chunk == "" {
        EverythingTaken(start, buf, recv.chunks);
        NoDelimiter(buf, "", delim, max);
        return if buf == "" then NoData else ClosedMidLine;
      }
      var pos := IndexOf(chunk, delim);
      TakeMore(start, buf, recv.chunks, |chunk|);
      if pos < |chunk| {
        TakeMore(start, buf, recv.chunks, pos + 1);
        DelimiterInChunk(buf, chunk, Flatten(start), pos, delim, max);
        if |buf| + pos + 1 > max {
          return LineTooLong;
        }
        recv.Consume(pos + 1);
        return Line(buf + chunk[..pos + 1]);
      }
      if |buf| + |chunk| > max {
        NoDelimiter(buf + chunk, Flatten(start)[|buf + chunk|..], delim, max);
        return LineTooLong;
      }
      recv.Consume(|chunk|);
      buf := buf + chunk;
    }
  }

  /** `buf` has been read off the front of `start`, and `left` is what remains. */
  ghost predicate Taken(start: seq<string>, buf: string, left: seq<string>) {
    && NonEmptyChunks(start)
    && buf <= Flatten(start)
    && left == Skip(start, |buf|)
  }

  lemma ExtendPrefix(all: string, buf: string, more: string)
    requires buf <= all && more <= all[|buf|..]
    ensures buf + more <= all && all == buf + more + all[|buf| + |more|..]
  {
    assert all[|buf|..] == more + all[|buf|..][|more|..];
    assert all == buf + all[|buf|..];
  }

  /** The next bytes of the stream are the next bytes of the current chunk. */
  lemma TakeMore(start: seq<string>, buf: string, left: seq<string>, n: nat)
    requires Taken(start, buf, left) && left != [] && n <= |left[0]|
    ensures n <= |Flatten(left)| && Taken(start, buf + left[0][..n], Skip(left, n))
    ensures Flatten(start) == buf + left[0][..n] + Flatten(start)[|buf| + n..]
  {
    SkipLeaves(start, |buf|);
    SkipSkip(start, |buf|, n);
    assert left[0][..n] <= Flatten(left);
    ExtendPrefix(Flatten(start), buf, left[0][..n]);
  }

  lemma EverythingTaken(start: seq<string>, buf: string, left: seq<string>)
    requires Taken(start, buf, left) && Flatten(left) == ""
    ensures Flatten(start) == buf + ""
  {
    SkipLeaves(start, |buf|);
    assert Flatten(start) == buf + Flatten(start)[|buf|..];
  }

  lemma DelimiterInChunk(buf: string, chunk: string, all: string, pos: nat, delim: char, max: nat)
    requires (forall k :: 0 <= k < |buf| ==> buf[k] != delim) && pos < |chunk| && pos == IndexOf(chunk, delim)
    requires buf + chunk[..pos + 1] <= all
    ensures FirstLine(all, delim, max) ==
      if |buf| + pos + 1 <= max then Line(buf + chunk[..pos + 1]) else LineTooLong
  {
    var line := buf + chunk[..pos + 1];
    assert forall k :: 0 <= k < |line| ==> all[k] == line[k];
    IndexOfIs(all, delim, |buf| + pos);
    assert all[..|line|] == line;
  }

  lemma NoDelimiter(taken: string, rest: string, delim: char, max: nat)
    requires forall k :: 0 <= k < |taken| ==> taken[k] != delim
    ensures |taken| > max ==> FirstLine(taken + rest, delim, max) == LineTooLong
    ensures rest == "" && |taken| <= max ==>
      FirstLine(taken + rest, delim, max) == if taken == "" then NoData else ClosedMidLine
  {
    assert forall k :: 0 <= k < |taken| ==> (taken + rest)[k] == taken[k];
  }

  // ---------------------------------------------------------------------
  // Header terminators
  // ---------------------------------------------------------------------

  /** A header section ends at byte `e`: with CR LF CR LF or with LF LF. */
  predicate EndsAt(s: string, e: int) {
    || (3 <= e < |s| && s[e - 3] == '\r' && s[e - 2] == '\n' && s[e - 1] == '\r' && s[e] == '\n')
    || (1 <= e < |s| && s[e - 1] == '\n' && s[e] == '\n')
  }

  function FirstEndFrom(s: string, e: nat): (r: Option<nat>)
    requires e <= |s|
    ensures r.Some? ==> e <= r.value < |s| && EndsAt(s, r.value) && forall k :: e <= k < r.value ==> !EndsAt(s, k)
    ensures r.None? ==> forall k :: e <= k < |s| ==> !EndsAt(s, k)
    decreases |s| - e
  {
    if e == |s| then None
    else if EndsAt(s, e) then Some(e)
    else FirstEndFrom(s, e + 1)
  }

  /** The last byte of the terminator that ends first. */
  function FirstEnd(s: string): (r: Option<nat>)
    ensures r.Some? ==> r.value < |s| && EndsAt(s, r.value) && forall k :: 0 <= k < r.value ==> !EndsAt(s, k)
    ensures r.None? ==> forall k :: 0 <= k < |s| ==> !EndsAt(s, k)
  {
    FirstEndFrom(s, 0)
  }

  lemma FirstEndIs(s: string, e: nat)
    requires e < |s| && EndsAt(s, e) && forall k :: 0 <= k < e ==> !EndsAt(s, k)
    ensures FirstEnd(s) == Some(e)
  {
  }

  lemma NoEnd(s: string)
    requires forall k :: 0 <= k < |s| ==> !EndsAt(s, k)
    ensures FirstEnd(s) == None
  {
  }

  /** `find_header_terminator` scans by where a terminator starts; the first to start is the first to end. */
  method FindHeaderTerminator(chunk: string) returns (r: Option<nat>)
    ensures r == FirstEnd(chunk)
  {
    for i := 0 to |chunk|
      invariant forall e :: 0 <= e < |chunk| && EndsAt(chunk, e) ==>
        if chunk[e - 1] == '\n' then i <= e - 1 else i <= e - 3
    {
      if i + 3 < |chunk| && chunk[i] == '\r' && chunk[i + 1] == '\n' && chunk[i + 2] == '\r' && chunk[i + 3] == '\n' {
        FirstEndIs(chunk, i + 3);
        return Some(i + 3);
      }
      if i + 1 < |chunk| && chunk[i] == '\n' && chunk[i + 1] == '\n' {
        FirstEndIs(chunk, i + 1);
        return Some(i + 1);
      }
    }
    NoEnd(chunk);
    return None;
  }

  // ---------------------------------------------------------------------
  // Header sections
  // ---------------------------------------------------------------------

  datatype HeadersResult = Headers(bytes: string) | HeadersTooLong | ClosedMidHeaders

  /** The terminator that the reader finds: the first one that lies inside a single chunk. */
  function FirstSeen(chunks: seq<string>): (r: Option<nat>)
    ensures r.Some? ==> r.value < |Flatten(chunks)|
  {
    if chunks == [] then None
    else
      var e := FirstEnd(chunks[0]);
      if e.Some? then e
      else
        var later := FirstSeen(chunks[1..]);
        if later.Some? then Some(|chunks[0]| + later.value) else None
  }

  /** The outcome for a stream `s` whose header section is taken to end at `end`, within `max` bytes. */
  function Bounded(s: string, end: Option<nat>, max: nat): HeadersResult
    requires end.Some? ==> end.value < |s|
  {
    if end.Some? then if end.value + 1 <= max then Headers(s[..end.value + 1]) else HeadersTooLong
    else if |s| > max then HeadersTooLong
    else ClosedMidHeaders
  }

  function HeadersOf(chunks: seq<string>, max: nat): HeadersResult {
    Bounded(Flatten(chunks), FirstSeen(chunks), max)
  }

  /** The header section of a whole stream, without looking at chunks. */
  function FirstHeaders(s: string, max: nat): HeadersResult {
    Bounded(s, FirstEnd(s), max)
  }

  predicate EndsWithin(s: string, max: nat) {
    exists e :: 0 <= e < |s| && e < max && EndsAt(s, e)
  }

  /** What the reading of a section means: the bytes up to the first terminator if that is within `max` bytes, or why there is none. */
  lemma FirstHeadersMeans(s: string, max: nat)
    ensures
      var r := FirstHeaders(s, max);
      && (r.Headers? <==> EndsWithin(s, max))
      && (r.Headers? ==> r.bytes <= s && r.bytes != "" && FirstEnd(s) == Some(|r.bytes| - 1))
      && (r.HeadersTooLong? <==> |s| > max && !EndsWithin(s, max))
  {
    if FirstEnd(s).Some? {
      assert EndsAt(s, FirstEnd(s).value);
    }
  }

  /** What the first-seen terminator of a stream is once its first `n` bytes have been passed without one. */
  ghost predicate NothingSeen(start: seq<string>, n: nat)
    requires n <= |Flatten(start)|
  {
    var later := FirstSeen(Skip(start, n));
    FirstSeen(start) == if later.Some? then Some(n + later.value) else None
  }

  lemma {:induction false} PassChunk(start: seq<string>, n: nat)
    requires NonEmptyChunks(start) && n <= |Flatten(start)| && NothingSeen(start, n)
    requires Skip(start, n) != [] && FirstEnd(Skip(start, n)[0]) == None
    ensures
      var m := n + |Skip(start, n)[0]|;
      m <= |Flatten(start)| && NothingSeen(start, m)
  {
    SkipLeaves(start, n);
    SkipSkip(start, n, |Skip(start, n)[0]|);
  }

  lemma TerminatorInChunk(start: seq<string>, buf: string, left: seq<string>, end: nat, max: nat)
    requires Taken(start, buf, left) && NothingSeen(start, |buf|)
    requires left != [] && FirstEnd(left[0]) == Some(end)
    ensures
      var section := buf + left[0][..end + 1];
      && EndsAt(section, |section| - 1)
      && HeadersOf(start, max) == (if |section| <= max then Headers(section) else HeadersTooLong)
      && Taken(start, section, Skip(left, end + 1))
  {
    var section := buf + left[0][..end + 1];
    TakeMore(start, buf, left, end + 1);
    assert FirstSeen(left) == Some(end);
    EndsAtBehind(buf, left[0][..end + 1], end);
    assert Flatten(start)[..|section|] == section;
  }

  lemma PassedTooMuch(start: seq<string>, n: nat, max: nat)
    requires n <= |Flatten(start)| && NothingSeen(start, n) && n > max
    ensures HeadersOf(start, max) == HeadersTooLong
  {
  }

  lemma NoTerminatorInChunk(start: seq<string>, buf: string, left: seq<string>, max: nat)
    requires Taken(start, buf, left) && NothingSeen(start, |buf|)
    requires left != [] && FirstEnd(left[0]) == None
    ensures Taken(start, buf + left[0], Skip(left, |left[0]|)) && NothingSeen(start, |buf + left[0]|)
    ensures |buf| + |left[0]| > max ==> HeadersOf(start, max) == HeadersTooLong
  {
    var chunk := left[0];
    assert chunk[..|chunk|] == chunk;
    TakeMore(start, buf, left, |chunk|);
    PassChunk(start, |buf|);
    if |buf| + |chunk| > max {
      PassedTooMuch(start, |buf + chunk|, max);
    }
  }

  /**
   `read_headers_limited`. What it returns is exactly what it consumed, within the
   cap and ending in a terminator.
   */
  method ReadHeadersLimited(recv: BufReader, max: nat) returns (r: HeadersResult)
    requires recv.Valid()
    modifies recv
    ensures recv.Valid()
    ensures r == HeadersOf(old(recv.chunks), max)
    ensures r.Headers? ==>
      && 0 < |r.bytes| <= max && EndsAt(r.bytes, |r.bytes| - 1)
      && r.bytes <= old(recv.Rest())
      && recv.chunks == Skip(old(recv.chunks), |r.bytes|)
  {
    var buf := "";
    ghost var start := recv.chunks;
    while true
      invariant recv.Valid() && Taken(start, buf, recv.chunks) && |buf| <= max
      invariant NothingSeen(start, |buf|)
      decreases |recv.Rest()|
    {
      var chunk := recv.FillBuf();
      if chunk == "" {
        EverythingTaken(start, buf, recv.chunks);
        return ClosedMidHeaders;
      }
      var end := FindHeaderTerminator(chunk);
      if end.Some? {
        TerminatorInChunk(start, buf, recv.chunks, end.value, max);
        var take := end.value + 1;
        if |buf| + take > max {
          return HeadersTooLong;
        }
        recv.Consume(take);
        return Headers(buf + chunk[..take]);
      }
      NoTerminatorInChunk(start, buf, recv.chunks, max);
      if |buf| + |chunk| > max {
        return HeadersTooLong;
      }
      ShorterAfterChunk(recv.chunks);
      recv.Consume(|chunk|);
      buf := buf + chunk;
    }
  }

  lemma ShorterAfterChunk(left: seq<string>)
    requires NonEmptyChunks(left) && left != []
    ensures |Flatten(Skip(left, |left[0]|))| < |Flatten(left)|
  {
    SkipLeaves(left, |left[0]|);
  }

  /** A terminator stays one when bytes are put in front of it. */
  lemma EndsAtBehind(before: string, s: string, e: nat)
    requires e < |s| && EndsAt(s, e)
    ensures EndsAt(before + s, |before| + e)
  {
    assert forall k :: 0 <= k < |s| ==> (before + s)[|before| + k] == s[k];
  }

  // ---------------------------------------------------------------------
  // When the chunked reader agrees with the whole stream
  // ---------------------------------------------------------------------

  /** The terminator that ends at byte `e` of the stream starts in the chunk it ends in. */
  predicate InOneChunk(chunks: seq<string>, e: nat) {
    && chunks != []
    && if e < |chunks[0]| then EndsAt(chunks[0], e) else InOneChunk(chunks[1..], e - |chunks[0]|)
  }

  lemma {:induction false} InOneChunkEnds(chunks: seq<string>, e: nat)
    requires InOneChunk(chunks, e)
    ensures e < |Flatten(chunks)| && EndsAt(Flatten(chunks), e)
    decreases |chunks|
  {
    if e < |chunks[0]| {
      assert forall k :: 0 <= k < |chunks[0]| ==> Flatten(chunks)[k] == chunks[0][k];
    } else {
      InOneChunkEnds(chunks[1..], e - |chunks[0]|);
      EndsAtBehind(chunks[0], Flatten(chunks[1..]), e - |chunks[0]|);
    }
  }

  /** The reader stops at the first terminator that lies inside one chunk. */
  lemma {:induction false} FirstSeenIsFirstInOneChunk(chunks: seq<string>)
    ensures FirstSeen(chunks).Some? ==> InOneChunk(chunks, FirstSeen(chunks).value)
    ensures forall e: nat :: InOneChunk(chunks, e) ==> FirstSeen(chunks).Some? && FirstSeen(chunks).value <= e
    decreases |chunks|
  {
    if chunks != [] {
      FirstSeenIsFirstInOneChunk(chunks[1..]);
    }
  }

  /**
   The chunked reader returns what a reader of the whole stream would exactly when
   the first terminator is absent, beyond the cap, or inside a single chunk.
   */
  lemma ChunkedReaderExactly(chunks: seq<string>, max: nat)
    ensures
      var whole := Flatten(chunks);
      var first := FirstEnd(whole);
      HeadersOf(chunks, max) == FirstHeaders(whole, max) <==>
        first.None? || first.value + 1 > max || InOneChunk(chunks, first.value)
  {
    var whole := Flatten(chunks);
    var first, seen := FirstEnd(whole), FirstSeen(chunks);
    FirstSeenIsFirstInOneChunk(chunks);
    if seen.Some? {
      InOneChunkEnds(chunks, seen.value);
    }
    if first.Some? && seen.Some? && seen.value != first.value {
      assert |whole[..seen.value + 1]| != |whole[..first.value + 1]|;
    }
  }

  /** A terminator cut by a chunk boundary is missed although the whole stream contains it. */
  lemma StraddlingTerminatorIsMissed()
    ensures FirstHeaders("a:b\r\n\r\n", 100) == Headers("a:b\r\n\r\n")
    ensures HeadersOf(["a:b\r\n", "\r\n"], 100) == ClosedMidHeaders
  {
    var s := "a:b\r\n\r\n";
    FirstEndIs(s, 6);
    assert s[..7] == s;
    NoEnd("a:b\r\n");
    NoEnd("\r\n");
    var chunks := ["a:b\r\n", "\r\n"];
    assert chunks[1..] == ["\r\n"] && chunks[1..][1..] == [];
    assert FirstSeen(chunks[1..][1..]) == None;
    assert FirstSeen(chunks[1..]) == None;
    assert Flatten(chunks[1..]) == "\r\n" && Flatten(chunks) == s;
  }

  /** Chunk boundaries that a reader has passed do not matter to a terminator further on. */
  lemma {:induction false} InOneChunkAfterSkip(chunks: seq<string>, n: nat, e: nat)
    requires n + e < |Flatten(chunks)| && InOneChunk(chunks, n + e) && e >= 3
    ensures InOneChunk(Skip(chunks, n), e)
    decreases |chunks|
  {
    if n > 0 {
      var c := chunks[0];
      if n < |c| {
        var s := Skip(chunks, n);
        assert s[0] == c[n..] && s[1..] == chunks[1..];
        if n + e < |c| {
          assert forall k :: 0 <= k < |c| - n ==> c[n..][k] == c[n + k];
        }
      } else {
        InOneChunkAfterSkip(chunks[1..], n - |c|, e);
      }
    }
  }

  lemma {:induction false} InOneChunkBeforeSkip(chunks: seq<string>, n: nat, e: nat, sum: nat)
    requires n <= |Flatten(chunks)| && InOneChunk(Skip(chunks, n), e) && sum == n + e
    ensures InOneChunk(chunks, sum)
    decreases |chunks|
  {
    if n > 0 {
      var c := chunks[0];
      if n < |c| {
        var s := Skip(chunks, n);
        assert s[0] == c[n..] && s[1..] == chunks[1..];
        if sum < |c| {
          assert c == c[..n] + c[n..];
          EndsAtBehind(c[..n], c[n..], e);
        }
      } else {
        InOneChunkBeforeSkip(chunks[1..], n - |c|, e, sum - |c|);
      }
    }
  }
}
