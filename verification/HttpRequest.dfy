/**
 `read_request`: one HTTP/1.1 request head off the stream, and the requests that
 it reads back as they were sent.
 */
module HttpRequest {
  import opened Options
  import opened HttpReader
  import opened HttpText

  const MAX_REQUEST_LINE := 8 * 1024
  const MAX_HEADERS := 64 * 1024
  const MAX_BODY_BYTES := 0

  datatype Request = Request(method': string, path: string, keepAlive: bool)

  datatype RequestError =
    | LineNotUtf8 | MissingPath | MissingVersion | BadVersion | LineLimit | ClosedInLine
    | HeadersNotUtf8 | BadContentLength | BodyTooLong(length: nat) | HeaderLimit | ClosedInHeaders

  /** `Drain` is the branch that would read a request body off the stream. */
  datatype ReadOutcome = Got(request: Request) | EndOfStream | Failed(error: RequestError) | Drain(length: nat)

  // ---------------------------------------------------------------------
  // The request line
  // ---------------------------------------------------------------------

  datatype LineParse = Parsed(method': string, path: string, version: string) | BadLine(error: RequestError)

  function ParseLine(line: string): LineParse {
    if !IsUtf8(line) then BadLine(LineNotUtf8)
    else
      var first := CutAt(TrimEndOf(line, {'\r', '\n'}), ' ');
      if first.tail.None? then BadLine(MissingPath)
      else
        var second := CutAt(first.tail.value, ' ');
        if second.tail.None? then BadLine(MissingVersion)
        else
          var version := CutAt(second.tail.value, ' ').head;
          if "HTTP/" <= version then Parsed(first.head, second.head, version) else BadLine(BadVersion)
  }

  lemma SplitCuts(s: string, c: char)
    ensures
      var cut := CutAt(s, c);
      Split(s, c) == if cut.tail.None? then [s] else [cut.head] + Split(cut.tail.value, c)
  {
  }

  /** The request line is cut at every space; the first three parts count, and the third must name a version. */
  lemma LineIsSplit(line: string)
    ensures
      var parts := Split(TrimEndOf(line, {'\r', '\n'}), ' ');
      ParseLine(line) ==
        if !IsUtf8(line) then BadLine(LineNotUtf8)
        else if |parts| == 1 then BadLine(MissingPath)
        else if |parts| == 2 then BadLine(MissingVersion)
        else if "HTTP/" <= parts[2] then Parsed(parts[0], parts[1], parts[2])
        else BadLine(BadVersion)
  {
    var s := TrimEndOf(line, {'\r', '\n'});
    SplitCuts(s, ' ');
    var first := CutAt(s, ' ');
    if first.tail.Some? {
      SplitCuts(first.tail.value, ' ');
      var second := CutAt(first.tail.value, ' ');
      if second.tail.Some? {
        SplitCuts(second.tail.value, ' ');
      }
    }
  }

  // ---------------------------------------------------------------------
  // The header section
  // ---------------------------------------------------------------------

  datatype Info = Info(length: nat, close: bool, keepAlive: bool)

  function ScanTokens(tokens: seq<string>, i: Info): Info {
    if tokens == [] then i
    else
      var tok := Trim(tokens[0]);
      ScanTokens(tokens[1..],
        if EqIgnoreCase(tok, "close") then i.(close := true)
        else if EqIgnoreCase(tok, "keep-alive") then i.(keepAlive := true)
        else i)
  }

  /** One `name: value` line, both sides trimmed. */
  function OnField(name: string, value: string, i: Info): Option<Info> {
    if EqIgnoreCase(name, "content-length") then
      var n := ParseUsize(value);
      if n.None? then None else Some(i.(length := n.value))
    else if EqIgnoreCase(name, "connection") then
      Some(ScanTokens(Split(value, ','), i))
    else
      Some(i)
  }

  /** The loop over the lines of the section; it stops at the first empty one. */
  function ScanLines(lines: seq<string>, i: Info): Option<Info> {
    if lines == [] then Some(i)
    else
      var line := TrimEndOf(lines[0], {'\r'});
      if line == "" then Some(i)
      else
        var cut := CutAt(line, ':');
        if cut.tail.None? then ScanLines(lines[1..], i)
        else
          var next := OnField(Trim(cut.head), Trim(cut.tail.value), i);
          if next.None? then None else ScanLines(lines[1..], next.value)
  }

  const NoInfo := Info(0, false, false)

  method ScanTokensLoop(tokens: seq<string>, i: Info) returns (r: Info)
    ensures r == ScanTokens(tokens, i)
  {
    r := i;
    assert tokens[0..] == tokens;
    for k := 0 to |tokens|
      invariant ScanTokens(tokens, i) == ScanTokens(tokens[k..], r)
    {
      assert tokens[k..][0] == tokens[k] && tokens[k..][1..] == tokens[k + 1..];
      var tok := Trim(tokens[k]);
      if EqIgnoreCase(tok, "close") {
        r := r.(close := true);
      } else if EqIgnoreCase(tok, "keep-alive") {
        r := r.(keepAlive := true);
      }
    }
  }

  /** The header loop of `read_request`, with its three running variables. */
  method ScanHeaders(section: string) returns (r: Option<Info>)
    ensures r == ScanLines(Split(section, '\n'), NoInfo)
  {
    var lines := Split(section, '\n');
    var i := NoInfo;
    assert lines[0..] == lines;
    for k := 0 to |lines|
      invariant ScanLines(lines, NoInfo) == ScanLines(lines[k..], i)
    {
      assert lines[k..][0] == lines[k] && lines[k..][1..] == lines[k + 1..];
      var line := TrimEndOf(lines[k], {'\r'});
      if line == "" {
        return Some(i);
      }
      var cut := CutAt(line, ':');
      if cut.tail.Some? {
        var name, value := Trim(cut.head), Trim(cut.tail.value);
        if EqIgnoreCase(name, "content-length") {
          var n := ParseUsize(value);
          if n.None? {
            return None;
          }
          i := i.(length := n.value);
        } else if EqIgnoreCase(name, "connection") {
          i := ScanTokensLoop(Split(value, ','), i);
        }
      }
    }
    return Some(i);
  }

  function KeepsAlive(version: string, i: Info): bool {
    if version == "HTTP/1.1" then !i.close
    else if version == "HTTP/1.0" then i.keepAlive
    else false
  }

  /** What follows once the header section has been read. */
  function Conclude(line: LineParse, section: string): ReadOutcome
    requires line.Parsed?
  {
    if !IsUtf8(section) then Failed(HeadersNotUtf8)
    else
      var info := ScanLines(Split(section, '\n'), NoInfo);
      if info.None? then Failed(BadContentLength)
      else if info.value.length > MAX_BODY_BYTES then Failed(BodyTooLong(info.value.length))
      else if info.value.length > 0 then Drain(info.value.length)
      else Got(Request(line.method', line.path, KeepsAlive(line.version, info.value)))
  }

  // ---------------------------------------------------------------------
  // Reading one request
  // ---------------------------------------------------------------------

  datatype ReadResult = ReadResult(outcome: ReadOutcome, left: seq<string>)

  /** `left` is only meaningful when a request was read: every other outcome closes the stream. */
  function ReadRequest(chunks: seq<string>): (r: ReadResult)
    ensures !r.outcome.Got? ==> r.left == []
  {
    match FirstLine(Flatten(chunks), '\n', MAX_REQUEST_LINE)
    case NoData => ReadResult(EndOfStream, [])
    case LineTooLong => ReadResult(Failed(LineLimit), [])
    case ClosedMidLine => ReadResult(Failed(ClosedInLine), [])
    case Line(bytes) =>
      var line := ParseLine(bytes);
      if line.BadLine? then ReadResult(Failed(line.error), [])
      else
        ReadSection(line, Skip(chunks, |bytes|))
  }

  function ReadSection(line: LineParse, rest: seq<string>): (r: ReadResult)
    requires line.Parsed?
    ensures !r.outcome.Got? ==> r.left == []
  {
    match HeadersOf(rest, MAX_HEADERS)
    case HeadersTooLong => ReadResult(Failed(HeaderLimit), [])
    case ClosedMidHeaders => ReadResult(Failed(ClosedInHeaders), [])
    case Headers(section) =>
      var outcome := Conclude(line, section);
      ReadResult(outcome, if outcome.Got? then Skip(rest, |section|) else [])
  }

  method ReadRequestFrom(recv: BufReader) returns (outcome: ReadOutcome)
    requires recv.Valid()
    modifies recv
    ensures recv.Valid()
    ensures outcome == ReadRequest(old(recv.chunks)).outcome
    ensures outcome.Got? ==> recv.chunks == ReadRequest(old(recv.chunks)).left
  {
    var read := ReadUntilLimited(recv, '\n', MAX_REQUEST_LINE);
    match read {
      case NoData => return EndOfStream;
      case LineTooLong => return Failed(LineLimit);
      case ClosedMidLine => return Failed(ClosedInLine);
      case Line(bytes) =>
        var line := ParseLine(bytes);
        if line.BadLine? {
          return Failed(line.error);
        }
        var headers := ReadHeadersLimited(recv, MAX_HEADERS);
        match headers {
          case HeadersTooLong => return Failed(HeaderLimit);
          case ClosedMidHeaders => return Failed(ClosedInHeaders);
          case Headers(section) =>
            if !IsUtf8(section) {
              return Failed(HeadersNotUtf8);
            }
            var info := ScanHeaders(section);
            if info.None? {
              return Failed(BadContentLength);
            }
            if info.value.length > MAX_BODY_BYTES {
              return Failed(BodyTooLong(info.value.length));
            }
            return Got(Request(line.method', line.path, KeepsAlive(line.version, info.value)));
        }
    }
  }

  /** The limit on bodies is zero, so the branch that drains one is never taken. */
  lemma NeverDrains(chunks: seq<string>)
    ensures !ReadRequest(chunks).outcome.Drain?
  {
  }

  // ---------------------------------------------------------------------
  // Messages
  // ---------------------------------------------------------------------

  datatype Field = Field(name: string, value: string)

  datatype Message = Message(method': string, path: string, version: string, fields: seq<Field>)

  predicate PlainField(f: Field) {
    Plain(f.name) && Lacks(f.name, ':') && Plain(f.value)
  }

  predicate PlainFields(fs: seq<Field>) {
    forall i :: 0 <= i < |fs| ==> PlainField(fs[i])
  }

  function Content(f: Field): string {
    f.name + ":" + f.value
  }

  function Section(fs: seq<Field>): string {
    if fs == [] then "\r\n" else Content(fs[0]) + "\r\n" + Section(fs[1..])
  }

  function RequestLine(m: Message): string {
    m.method' + " " + m.path + " " + m.version + "\r\n"
  }

  function Serialize(m: Message): string {
    RequestLine(m) + Section(m.fields)
  }

  // ---------------------------------------------------------------------
  // Where a header section ends
  // ---------------------------------------------------------------------

  /** Behind a line and its break, terminators are those of the rest, unless the rest starts with a break. */
  lemma EndsBehindLine(line: string, rest: string, e: nat)
    requires Plain(line) && line != "" && rest != "" && rest[0] != '\r' && rest[0] != '\n'
    requires e < |line| + 2 + |rest|
    ensures EndsAt(line + "\r\n" + rest, e) <==> e >= |line| + 2 && EndsAt(rest, e - |line| - 2)
  {
    var s := line + "\r\n" + rest;
    assert forall k :: 0 <= k < |line| ==> s[k] == line[k];
    assert s[|line|] == '\r' && s[|line| + 1] == '\n';
    assert forall k :: 0 <= k < |rest| ==> s[|line| + 2 + k] == rest[k];
  }

  lemma EndOfLastLine(line: string, tail: string)
    requires Plain(line) && line != ""
    ensures FirstEnd(line + "\r\n" + ("\r\n" + tail)) == Some(|line| + 3)
  {
    var s := line + "\r\n" + ("\r\n" + tail);
    assert forall k :: 0 <= k < |line| ==> s[k] == line[k];
    assert s[|line|] == '\r' && s[|line| + 1] == '\n' && s[|line| + 2] == '\r' && s[|line| + 3] == '\n';
    FirstEndIs(s, |line| + 3);
  }

  lemma ContentIsPlain(f: Field)
    requires PlainField(f)
    ensures Plain(Content(f)) && Content(f) != ""
    ensures Content(f)[0] != '\r' && Content(f)[0] != '\n'
  {
  }

  lemma EndBehindLine(line: string, rest: string)
    requires Plain(line) && line != "" && rest != "" && rest[0] != '\r' && rest[0] != '\n'
    requires FirstEnd(rest).Some?
    ensures FirstEnd(line + "\r\n" + rest) == Some(|line| + 2 + FirstEnd(rest).value)
  {
    var e := FirstEnd(rest).value;
    forall k | 0 <= k <= |line| + 2 + e
      ensures EndsAt(line + "\r\n" + rest, k) <==> k == |line| + 2 + e
    {
      EndsBehindLine(line, rest, k);
    }
    FirstEndIs(line + "\r\n" + rest, |line| + 2 + e);
  }

  lemma SectionCons(fs: seq<Field>, tail: string)
    requires fs != []
    ensures Section(fs) + tail == Content(fs[0]) + "\r\n" + (Section(fs[1..]) + tail)
    ensures |Section(fs)| == |Content(fs[0])| + 2 + |Section(fs[1..])|
    ensures |Content(fs[0])| >= 1 && (Section(fs) + tail)[0] == Content(fs[0])[0]
  {
  }

  /** The first terminator of a section with at least one field is its last. */
  lemma {:induction false} SectionEnds(fs: seq<Field>, tail: string)
    requires fs != [] && PlainFields(fs)
    ensures |Section(fs)| >= 5 && FirstEnd(Section(fs) + tail) == Some(|Section(fs)| - 1)
    decreases |fs|
  {
    SectionCons(fs, tail);
    ContentIsPlain(fs[0]);
    if |fs| == 1 {
      assert fs[1..] == [];
      EndOfLastLine(Content(fs[0]), tail);
    } else {
      SectionEnds(fs[1..], tail);
      SectionCons(fs[1..], tail);
      ContentIsPlain(fs[1]);
      EndBehindLine(Content(fs[0]), Section(fs[1..]) + tail);
    }
  }

  // ---------------------------------------------------------------------
  // What a header section means
  // ---------------------------------------------------------------------

  /** The scan on fields instead of lines. */
  function ScanFields(fs: seq<Field>, i: Info): Option<Info> {
    if fs == [] then Some(i)
    else
      var next := OnField(Trim(fs[0].name), Trim(fs[0].value), i);
      if next.None? then None else ScanFields(fs[1..], next.value)
  }

  lemma TrimReturn(line: string)
    requires Plain(line)
    ensures TrimEndOf(line + "\r", {'\r'}) == line
  {
    assert (line + "\r")[..|line|] == line;
    assert TrimEndOf(line, {'\r'}) == line;
  }

  /** The scan takes one field off a section that starts with its line. */
  lemma ScanOneLine(f: Field, rest: string, i: Info)
    requires PlainField(f)
    ensures
      var next := OnField(Trim(f.name), Trim(f.value), i);
      ScanLines(Split(Content(f) + "\r\n" + rest, '\n'), i) ==
        if next.None? then None else ScanLines(Split(rest, '\n'), next.value)
  {
    var line := Content(f);
    ContentIsPlain(f);
    assert line + "\r\n" + rest == (line + "\r") + ['\n'] + rest;
    SplitFirst(line + "\r", '\n', rest);
    TrimReturn(line);
    assert line == f.name + [':'] + f.value;
    CutFirst(f.name, ':', f.value);
  }

  lemma ScanLastLine(i: Info)
    ensures ScanLines(Split("\r\n", '\n'), i) == Some(i)
  {
    assert "\r" + ['\n'] + "" == "\r\n" && "" + "\r" == "\r";
    SplitFirst("\r", '\n', "");
    TrimReturn("");
  }

  lemma {:induction false} LinesAreFields(fs: seq<Field>, i: Info)
    requires PlainFields(fs)
    ensures ScanLines(Split(Section(fs), '\n'), i) == ScanFields(fs, i)
    decreases |fs|
  {
    if fs == [] {
      ScanLastLine(i);
    } else {
      ScanOneLine(fs[0], Section(fs[1..]), i);
      var next := OnField(Trim(fs[0].name), Trim(fs[0].value), i);
      if next.Some? {
        LinesAreFields(fs[1..], next.value);
      }
    }
  }

  /** A `Connection` field that lists `token`. */
  ghost predicate Lists(f: Field, token: string) {
    && EqIgnoreCase(Trim(f.name), "connection")
    && HasToken(Split(Trim(f.value), ','), token)
  }

  ghost predicate HasToken(tokens: seq<string>, token: string) {
    exists k :: 0 <= k < |tokens| && EqIgnoreCase(Trim(tokens[k]), token)
  }

  ghost predicate AnyLists(fs: seq<Field>, token: string) {
    exists k :: 0 <= k < |fs| && Lists(fs[k], token)
  }

  predicate Measures(f: Field) {
    EqIgnoreCase(Trim(f.name), "content-length")
  }

  /** Every announced length is a number. */
  ghost predicate Numeric(fs: seq<Field>) {
    forall k :: 0 <= k < |fs| && Measures(fs[k]) ==> ParseUsize(Trim(fs[k].value)).Some?
  }

  /** Field `k` is the last that announces a length. */
  ghost predicate LastMeasure(fs: seq<Field>, k: nat)
    requires k < |fs|
  {
    Measures(fs[k]) && forall i :: k < i < |fs| ==> !Measures(fs[i])
  }

  /** The length that counts: that of the last field to announce one, else `otherwise`. */
  ghost predicate Announces(fs: seq<Field>, otherwise: nat, n: nat) {
    || (n == otherwise && forall k :: 0 <= k < |fs| ==> !Measures(fs[k]))
    || (exists k: nat :: k < |fs| && LastMeasure(fs, k) && ParseUsize(Trim(fs[k].value)) == Some(n))
  }

  /** No body is announced. */
  ghost predicate BodyLess(fs: seq<Field>) {
    Numeric(fs) && Announces(fs, 0, 0)
  }

  /** The server's rule for keeping the connection open, read off the fields. */
  ghost predicate StaysOpen(m: Message) {
    || (m.version == "HTTP/1.1" && !AnyLists(m.fields, "close"))
    || (m.version == "HTTP/1.0" && AnyLists(m.fields, "keep-alive"))
  }

  lemma HasTokenCons(tokens: seq<string>, token: string)
    requires tokens != []
    ensures HasToken(tokens, token) <==> EqIgnoreCase(Trim(tokens[0]), token) || HasToken(tokens[1..], token)
  {
    if HasToken(tokens[1..], token) {
      var k :| 0 <= k < |tokens[1..]| && EqIgnoreCase(Trim(tokens[1..][k]), token);
      assert tokens[k + 1] == tokens[1..][k];
    }
    if HasToken(tokens, token) && !EqIgnoreCase(Trim(tokens[0]), token) {
      var k :| 0 <= k < |tokens| && EqIgnoreCase(Trim(tokens[k]), token);
      assert tokens[1..][k - 1] == tokens[k];
    }
  }

  lemma {:induction false} TokensMean(tokens: seq<string>, i: Info)
    ensures
      var r := ScanTokens(tokens, i);
      && r.length == i.length
      && (r.close <==> i.close || HasToken(tokens, "close"))
      && (r.keepAlive <==> i.keepAlive || HasToken(tokens, "keep-alive"))
    decreases |tokens|
  {
    if tokens != [] {
      HasTokenCons(tokens, "close");
      HasTokenCons(tokens, "keep-alive");
      var tok := Trim(tokens[0]);
      TokensMean(tokens[1..],
        if EqIgnoreCase(tok, "close") then i.(close := true)
        else if EqIgnoreCase(tok, "keep-alive") then i.(keepAlive := true)
        else i);
    }
  }

  lemma AnyListsCons(fs: seq<Field>, token: string)
    requires fs != []
    ensures AnyLists(fs, token) <==> Lists(fs[0], token) || AnyLists(fs[1..], token)
  {
    if AnyLists(fs[1..], token) {
      var k :| 0 <= k < |fs[1..]| && Lists(fs[1..][k], token);
      assert fs[k + 1] == fs[1..][k];
    }
    if AnyLists(fs, token) && !Lists(fs[0], token) {
      var k :| 0 <= k < |fs| && Lists(fs[k], token);
      assert fs[1..][k - 1] == fs[k];
    }
  }

  lemma NumericCons(fs: seq<Field>)
    requires fs != []
    ensures Numeric(fs) <==> Numeric(fs[1..]) && (Measures(fs[0]) ==> ParseUsize(Trim(fs[0].value)).Some?)
  {
    if Numeric(fs) {
      assert forall k :: 0 <= k < |fs[1..]| ==> fs[1..][k] == fs[k + 1];
    }
    if Numeric(fs[1..]) && (Measures(fs[0]) ==> ParseUsize(Trim(fs[0].value)).Some?) {
      forall k | 0 <= k < |fs| && Measures(fs[k]) ensures ParseUsize(Trim(fs[k].value)).Some? {
        assert k > 0 ==> fs[1..][k - 1] == fs[k];
      }
    }
  }

  /** A field that announces a length replaces what came before it. */
  lemma AnnouncesCons(fs: seq<Field>, otherwise: nat, first: nat, n: nat)
    requires fs != []
    requires if Measures(fs[0]) then ParseUsize(Trim(fs[0].value)) == Some(first) else first == otherwise
    requires Announces(fs[1..], first, n)
    ensures Announces(fs, otherwise, n)
  {
    var rest := fs[1..];
    assert forall i :: 0 <= i < |rest| ==> rest[i] == fs[i + 1];
    if n == first && forall k :: 0 <= k < |rest| ==> !Measures(rest[k]) {
      assert forall i :: 0 < i < |fs| ==> fs[i] == rest[i - 1];
      assert Measures(fs[0]) ==> LastMeasure(fs, 0);
    } else {
      var k: nat :| k < |rest| && LastMeasure(rest, k) && ParseUsize(Trim(rest[k].value)) == Some(n);
      forall i | k + 1 < i < |fs| ensures !Measures(fs[i]) {
        assert fs[i] == rest[i - 1];
      }
      assert LastMeasure(fs, k + 1);
    }
  }

  lemma OneFieldMeans(f: Field, i: Info)
    ensures
      var r := OnField(Trim(f.name), Trim(f.value), i);
      && (r.None? <==> Measures(f) && ParseUsize(Trim(f.value)).None?)
      && (r.Some? ==>
            && (if Measures(f) then ParseUsize(Trim(f.value)) == Some(r.value.length) else r.value.length == i.length)
            && (r.value.close <==> i.close || Lists(f, "close"))
            && (r.value.keepAlive <==> i.keepAlive || Lists(f, "keep-alive")))
  {
    if EqIgnoreCase(Trim(f.name), "connection") {
      TokensMean(Split(Trim(f.value), ','), i);
    }
  }

  /**
   What a header section says: it is an error exactly when some announced length is
   no number; the last announced length counts, and the options are those listed
   by any `Connection` field.
   */
  lemma {:induction false} FieldsMean(fs: seq<Field>, i: Info)
    ensures
      var r := ScanFields(fs, i);
      && (r.Some? <==> Numeric(fs))
      && (r.Some? ==>
            && Announces(fs, i.length, r.value.length)
            && (r.value.close <==> i.close || AnyLists(fs, "close"))
            && (r.value.keepAlive <==> i.keepAlive || AnyLists(fs, "keep-alive")))
    decreases |fs|
  {
    if fs != [] {
      AnyListsCons(fs, "close");
      AnyListsCons(fs, "keep-alive");
      NumericCons(fs);
      OneFieldMeans(fs[0], i);
      var next := OnField(Trim(fs[0].name), Trim(fs[0].value), i);
      if next.Some? {
        FieldsMean(fs[1..], next.value);
        if Numeric(fs) {
          AnnouncesCons(fs, i.length, next.value.length, ScanFields(fs, i).value.length);
        }
      }
    }
  }

  lemma AnnouncesOnce(fs: seq<Field>, a: nat, b: nat)
    requires Announces(fs, 0, a) && Announces(fs, 0, b)
    ensures a == b
  {
  }

  // ---------------------------------------------------------------------
  // Reading back what was sent
  // ---------------------------------------------------------------------

  /** A request line that fits its limit. */
  predicate SoundLine(m: Message) {
    && Plain(m.method') && Lacks(m.method', ' ') && Plain(m.path) && Lacks(m.path, ' ')
    && Plain(m.version) && Lacks(m.version, ' ') && "HTTP/" <= m.version
    && IsUtf8(RequestLine(m)) && |RequestLine(m)| <= 8192
  }

  /** A request head that fits the two limits. */
  predicate Sound(m: Message) {
    && SoundLine(m)
    && PlainFields(m.fields) && IsUtf8(Section(m.fields)) && |Section(m.fields)| <= 65536
  }

  /** A request without a body. */
  ghost predicate WellFormed(m: Message) {
    Sound(m) && BodyLess(m.fields)
  }

  lemma TrimBreak(line: string)
    requires Plain(line)
    ensures TrimEndOf(line + "\r\n", {'\r', '\n'}) == line
  {
    var s := line + "\r\n";
    assert s[..|s| - 1] == line + "\r";
    assert (line + "\r")[..|line|] == line;
    assert TrimEndOf(line, {'\r', '\n'}) == line;
    assert TrimEndOf(line + "\r", {'\r', '\n'}) == line;
  }

  lemma LineReadsBack(m: Message)
    requires SoundLine(m)
    ensures ParseLine(RequestLine(m)) == Parsed(m.method', m.path, m.version)
  {
    var rest := m.path + [' '] + m.version;
    var line := m.method' + [' '] + rest;
    assert Plain(line);
    assert RequestLine(m) == line + "\r\n";
    TrimBreak(line);
    CutFirst(m.method', ' ', rest);
    CutFirst(m.path, ' ', m.version);
    CutNone(m.version, ' ');
  }

  lemma FirstLineIs(line: string, tail: string, max: nat)
    requires Plain(line) && |line| + 2 <= max
    ensures FirstLine(line + "\r\n" + tail, '\n', max) == Line(line + "\r\n")
  {
    var s := line + "\r\n" + tail;
    assert forall k :: 0 <= k < |line| ==> s[k] == line[k];
    assert s[|line|] == '\r' && s[|line| + 1] == '\n';
    IndexOfIs(s, '\n', |line| + 1);
    assert s[..|line| + 2] == line + "\r\n";
  }

  lemma RequestLineFirst(m: Message, tail: string)
    requires SoundLine(m)
    ensures FirstLine(RequestLine(m) + tail, '\n', MAX_REQUEST_LINE) == Line(RequestLine(m))
  {
    var line := m.method' + " " + m.path + " " + m.version;
    assert Plain(line);
    FirstLineIs(line, tail, MAX_REQUEST_LINE);
    assert RequestLine(m) + tail == line + "\r\n" + tail;
  }

  /** The request that a message asks for. */
  ghost function Sent(m: Message): Request {
    Request(m.method', m.path, StaysOpen(m))
  }

  lemma SectionConcludes(m: Message)
    requires WellFormed(m)
    ensures Conclude(Parsed(m.method', m.path, m.version), Section(m.fields))
         == Got(Sent(m))
  {
    LinesAreFields(m.fields, NoInfo);
    FieldsMean(m.fields, NoInfo);
    AnnouncesOnce(m.fields, 0, ScanFields(m.fields, NoInfo).value.length);
  }

  /** The chunked reader finds the whole section when its terminator lies in one chunk. */
  lemma SectionReads(chunks: seq<string>, section: string, tail: string)
    requires 0 < |section| <= MAX_HEADERS && FirstEnd(section + tail) == Some(|section| - 1)
    requires Flatten(chunks) == section + tail && InOneChunk(chunks, |section| - 1)
    ensures HeadersOf(chunks, MAX_HEADERS) == Headers(section)
  {
    ChunkedReaderExactly(chunks, MAX_HEADERS);
    assert (section + tail)[..|section|] == section;
  }

  lemma ReadInTwoParts(chunks: seq<string>, line: string, parse: LineParse, section: string, request: Request)
    requires FirstLine(Flatten(chunks), '\n', MAX_REQUEST_LINE) == Line(line)
    requires parse.Parsed? && ParseLine(line) == parse
    requires HeadersOf(Skip(chunks, |line|), MAX_HEADERS) == Headers(section)
    requires Conclude(parse, section) == Got(request)
    ensures |section| <= |Flatten(Skip(chunks, |line|))|
    ensures ReadRequest(chunks) == ReadResult(Got(request), Skip(Skip(chunks, |line|), |section|))
  {
  }

  lemma TwoSkips(chunks: seq<string>, line: string, section: string)
    requires NonEmptyChunks(chunks) && |line| + |section| <= |Flatten(chunks)|
    ensures |section| <= |Flatten(Skip(chunks, |line|))|
    ensures Skip(Skip(chunks, |line|), |section|) == Skip(chunks, |line + section|)
  {
    SkipSkip(chunks, |line|, |section|);
  }

  /** Behind the request line, the chunked reader finds the whole section. */
  lemma SectionBehindLine(chunks: seq<string>, line: string, section: string, tail: string)
    requires Flatten(chunks) == line + section + tail
    requires 4 <= |section| <= MAX_HEADERS && FirstEnd(section + tail) == Some(|section| - 1)
    requires InOneChunk(chunks, |line + section| - 1)
    ensures Flatten(chunks) == line + (section + tail)
    ensures HeadersOf(Skip(chunks, |line|), MAX_HEADERS) == Headers(section)
  {
    SkipLeaves(chunks, |line|);
    assert Flatten(chunks)[|line|..] == section + tail;
    InOneChunkAfterSkip(chunks, |line|, |section| - 1);
    SectionReads(Skip(chunks, |line|), section, tail);
  }

  /** Where the section of a message ends. */
  lemma SectionPart(m: Message, section: string, tail: string)
    requires Sound(m) && m.fields != [] && section == Section(m.fields)
    ensures 4 <= |section| <= MAX_HEADERS && FirstEnd(section + tail) == Some(|section| - 1)
  {
    SectionEnds(m.fields, tail);
  }

  /** What the line and the section of a message read as, each on its own. */
  lemma MessageParts(m: Message, line: string, section: string)
    requires WellFormed(m) && line == RequestLine(m) && section == Section(m.fields)
    ensures ParseLine(line).Parsed? && Conclude(ParseLine(line), section) == Got(Sent(m))
  {
    LineReadsBack(m);
    SectionConcludes(m);
  }

  /** A line and a section that read as a request, in front of anything. */
  lemma PartsAreTaken(chunks: seq<string>, line: string, section: string, tail: string, request: Request)
    requires NonEmptyChunks(chunks) && Flatten(chunks) == line + section + tail
    requires 4 <= |section| <= MAX_HEADERS && FirstEnd(section + tail) == Some(|section| - 1)
    requires FirstLine(line + (section + tail), '\n', MAX_REQUEST_LINE) == Line(line)
    requires ParseLine(line).Parsed? && Conclude(ParseLine(line), section) == Got(request)
    requires InOneChunk(chunks, |line + section| - 1)
    ensures ReadRequest(chunks) == ReadResult(Got(request), Skip(chunks, |line + section|))
  {
    SectionBehindLine(chunks, line, section, tail);
    TwoSkips(chunks, line, section);
    ReadInTwoParts(chunks, line, ParseLine(line), section, request);
  }

  lemma LineAndSectionReadBack(chunks: seq<string>, m: Message, line: string, section: string, tail: string)
    requires WellFormed(m) && m.fields != [] && NonEmptyChunks(chunks)
    requires line == RequestLine(m) && section == Section(m.fields)
    requires Flatten(chunks) == line + section + tail
    requires line + section != "" && InOneChunk(chunks, |line + section| - 1)
    ensures ReadRequest(chunks) == ReadResult(Got(Sent(m)), Skip(chunks, |line + section|))
  {
    RequestLineFirst(m, section + tail);
    SectionPart(m, section, tail);
    MessageParts(m, line, section);
    PartsAreTaken(chunks, line, section, tail, Sent(m));
  }

  /**
   A well-formed request with at least one header field, whose terminator is not
   cut by a chunk boundary, is read back as it was sent, kept open or not by the
   server's rule, and nothing of what follows it is consumed.
   */
  lemma RequestReadsBack(chunks: seq<string>, m: Message, tail: string)
    requires WellFormed(m) && m.fields != [] && NonEmptyChunks(chunks)
    requires Flatten(chunks) == Serialize(m) + tail && InOneChunk(chunks, |Serialize(m)| - 1)
    ensures ReadRequest(chunks) == ReadResult(Got(Sent(m)), Skip(chunks, |Serialize(m)|))
  {
    LineAndSectionReadBack(chunks, m, RequestLine(m), Section(m.fields), tail);
  }

  // ---------------------------------------------------------------------
  // Exactly which requests are read back
  // ---------------------------------------------------------------------

  lemma SectionLeaves(line: LineParse, rest: seq<string>)
    requires line.Parsed? && ReadSection(line, rest).outcome.Got?
    ensures LeavesBehind(rest, ReadSection(line, rest).left)
  {
  }

  lemma PartsOfRead(chunks: seq<string>, line: string)
    requires FirstLine(Flatten(chunks), '\n', MAX_REQUEST_LINE) == Line(line)
    requires ReadRequest(chunks).outcome.Got?
    ensures LeavesBehind(Skip(chunks, |line|), ReadRequest(chunks).left)
  {
    SectionLeaves(ParseLine(line), Skip(chunks, |line|));
  }

  /** The chunked reader takes a header section off `rest` and leaves `left`. */
  ghost predicate LeavesBehind(rest: seq<string>, left: seq<string>) {
    var headers := HeadersOf(rest, MAX_HEADERS);
    && headers.Headers? && |headers.bytes| <= |Flatten(rest)|
    && left == Skip(rest, |headers.bytes|)
  }

  /** What the chunked reader takes ends with a terminator inside one chunk. */
  lemma LeftTells(rest: seq<string>, left: seq<string>, taken: int)
    requires LeavesBehind(rest, left) && |Flatten(left)| + taken == |Flatten(rest)|
    ensures 0 < taken && InOneChunk(rest, taken - 1)
  {
    SkipLength(rest, |HeadersOf(rest, MAX_HEADERS).bytes|);
    FirstSeenIsFirstInOneChunk(rest);
  }

  lemma ConsumedExactly(chunks: seq<string>, a: nat, taken: nat, n: nat)
    requires a + taken == n <= |Flatten(chunks)| && LeavesBehind(Skip(chunks, a), Skip(chunks, n))
    ensures 0 < taken && InOneChunk(Skip(chunks, a), taken - 1)
  {
    SkipLength(chunks, a);
    SkipLength(chunks, n);
    LeftTells(Skip(chunks, a), Skip(chunks, n), taken);
  }

  lemma Associate(a: string, b: string, c: string)
    ensures a + b + c == a + (b + c)
  {
  }

  lemma EmptySectionHasNoEnd(chunks: seq<string>, tail: string)
    requires Flatten(chunks) == "\r\n" + tail
    ensures !InOneChunk(chunks, 1)
  {
    if InOneChunk(chunks, 1) {
      InOneChunkEnds(chunks, 1);
    }
  }

  lemma SectionAfterLine(chunks: seq<string>, line: string, rest: string)
    requires Flatten(chunks) == line + rest
    ensures Flatten(Skip(chunks, |line|)) == rest
  {
    SkipLeaves(chunks, |line|);
    assert Flatten(chunks)[|line|..] == rest;
  }

  lemma BareBreakIsNotTaken(chunks: seq<string>, line: string, tail: string)
    requires Flatten(chunks) == line + ("\r\n" + tail)
    ensures !InOneChunk(Skip(chunks, |line|), 1)
  {
    SectionAfterLine(chunks, line, "\r\n" + tail);
    EmptySectionHasNoEnd(Skip(chunks, |line|), tail);
  }

  /** A read that stops at `n` behind a line of length `a` has found a whole terminator there. */
  lemma StopsAtTerminator(chunks: seq<string>, a: nat, taken: nat, n: nat)
    requires a + taken == n <= |Flatten(chunks)| && LeavesBehind(Skip(chunks, a), Skip(chunks, n))
    ensures 0 < taken && InOneChunk(Skip(chunks, a), taken - 1) && InOneChunk(chunks, n - 1)
  {
    ConsumedExactly(chunks, a, taken, n);
    InOneChunkBeforeSkip(chunks, a, taken - 1, n - 1);
  }

  /** A read that stops behind the message has found its request line and a section. */
  lemma StopsBehindMessage(chunks: seq<string>, m: Message, line: string, rest: string, n: nat)
    requires SoundLine(m) && line == RequestLine(m) && Flatten(chunks) == line + rest && n <= |Flatten(chunks)|
    requires ReadRequest(chunks).outcome.Got? && ReadRequest(chunks).left == Skip(chunks, n)
    ensures LeavesBehind(Skip(chunks, |line|), Skip(chunks, n))
  {
    RequestLineFirst(m, rest);
    PartsOfRead(chunks, line);
  }

  /** A request is read back as it was sent, and nothing else with it. */
  ghost predicate ReadBack(chunks: seq<string>, m: Message)
    requires |Serialize(m)| <= |Flatten(chunks)|
  {
    ReadRequest(chunks) == ReadResult(Got(Sent(m)), Skip(chunks, |Serialize(m)|))
  }

  lemma MessageSplits(m: Message, tail: string)
    ensures |Serialize(m)| == |RequestLine(m)| + |Section(m.fields)|
    ensures Serialize(m) + tail == RequestLine(m) + (Section(m.fields) + tail)
  {
    Associate(RequestLine(m), Section(m.fields), tail);
  }

  lemma ReadBackLeaves(chunks: seq<string>, m: Message, tail: string)
    requires SoundLine(m) && Flatten(chunks) == Serialize(m) + tail && ReadBack(chunks, m)
    ensures |RequestLine(m)| <= |Flatten(chunks)|
    ensures LeavesBehind(Skip(chunks, |RequestLine(m)|), Skip(chunks, |Serialize(m)|))
  {
    MessageSplits(m, tail);
    StopsBehindMessage(chunks, m, RequestLine(m), Section(m.fields) + tail, |Serialize(m)|);
  }

  lemma TerminatorIsThere(chunks: seq<string>, line: string, section: string, tail: string, size: nat)
    requires Flatten(chunks) == line + (section + tail) && size == |line| + |section|
    requires LeavesBehind(Skip(chunks, |line|), Skip(chunks, size))
    ensures size > 0 && InOneChunk(chunks, size - 1) && section != "\r\n"
  {
    StopsAtTerminator(chunks, |line|, |section|, size);
    if section == "\r\n" {
      BareBreakIsNotTaken(chunks, line, tail);
    }
  }

  lemma BareSection(fs: seq<Field>)
    requires fs == []
    ensures Section(fs) == "\r\n"
  {
  }

  lemma TerminatorOfMessage(chunks: seq<string>, m: Message, tail: string)
    requires Flatten(chunks) == Serialize(m) + tail && |RequestLine(m)| <= |Flatten(chunks)|
    requires LeavesBehind(Skip(chunks, |RequestLine(m)|), Skip(chunks, |Serialize(m)|))
    ensures |Serialize(m)| > 0 && m.fields != [] && InOneChunk(chunks, |Serialize(m)| - 1)
  {
    MessageSplits(m, tail);
    TerminatorIsThere(chunks, RequestLine(m), Section(m.fields), tail, |Serialize(m)|);
    if m.fields == [] {
      BareSection(m.fields);
    }
  }

  lemma OnlyReadBackWithTerminator(chunks: seq<string>, m: Message, tail: string)
    requires SoundLine(m) && Flatten(chunks) == Serialize(m) + tail && ReadBack(chunks, m)
    ensures |Serialize(m)| > 0 && m.fields != [] && InOneChunk(chunks, |Serialize(m)| - 1)
  {
    ReadBackLeaves(chunks, m, tail);
    TerminatorOfMessage(chunks, m, tail);
  }

  /**
   Whatever follows it and however the stream is cut, a well-formed request is read
   back exactly when it has a header field and its terminator is not cut by a chunk
   boundary.
   */
  lemma ReadBackExactly(chunks: seq<string>, m: Message, tail: string)
    requires WellFormed(m) && NonEmptyChunks(chunks) && Flatten(chunks) == Serialize(m) + tail
    ensures ReadBack(chunks, m) <==> m.fields != [] && InOneChunk(chunks, |Serialize(m)| - 1)
  {
    if ReadBack(chunks, m) {
      OnlyReadBackWithTerminator(chunks, m, tail);
    }
    if m.fields != [] && InOneChunk(chunks, |Serialize(m)| - 1) {
      RequestReadsBack(chunks, m, tail);
    }
  }

  // ---------------------------------------------------------------------
  // Requests with a body
  // ---------------------------------------------------------------------

  lemma ReadEndsAs(chunks: seq<string>, line: string, parse: LineParse, section: string)
    requires FirstLine(Flatten(chunks), '\n', MAX_REQUEST_LINE) == Line(line)
    requires parse.Parsed? && ParseLine(line) == parse
    requires HeadersOf(Skip(chunks, |line|), MAX_HEADERS) == Headers(section)
    ensures ReadRequest(chunks).outcome == Conclude(parse, section)
  {
  }

  lemma HeadIsRead(chunks: seq<string>, m: Message, line: string, section: string, tail: string)
    requires Sound(m) && m.fields != [] && NonEmptyChunks(chunks)
    requires line == RequestLine(m) && section == Section(m.fields)
    requires Flatten(chunks) == line + section + tail
    requires line + section != "" && InOneChunk(chunks, |line + section| - 1)
    ensures ReadRequest(chunks).outcome == Conclude(Parsed(m.method', m.path, m.version), section)
  {
    RequestLineFirst(m, section + tail);
    LineReadsBack(m);
    SectionEnds(m.fields, tail);
    SectionBehindLine(chunks, line, section, tail);
    ReadEndsAs(chunks, line, ParseLine(line), section);
  }

  lemma SectionMeans(m: Message)
    requires Sound(m)
    ensures
      var out := Conclude(Parsed(m.method', m.path, m.version), Section(m.fields));
      && (out == Failed(BadContentLength) <==> !Numeric(m.fields))
      && (forall n: nat :: out == Failed(BodyTooLong(n)) <==> n > 0 && Numeric(m.fields) && Announces(m.fields, 0, n))
      && (out.Got? <==> BodyLess(m.fields))
  {
    LinesAreFields(m.fields, NoInfo);
    FieldsMean(m.fields, NoInfo);
    forall n: nat | Numeric(m.fields) && Announces(m.fields, 0, n)
      ensures n == ScanFields(m.fields, NoInfo).value.length
    {
      AnnouncesOnce(m.fields, n, ScanFields(m.fields, NoInfo).value.length);
    }
  }

  /**
   A request head that the reader can take off the stream is answered exactly when
   it announces no body. One that announces a body is refused for it, however short,
   and one with a length that is no number for that.
   */
  lemma BodiesAreRefusedExactly(chunks: seq<string>, m: Message, tail: string)
    requires Sound(m) && m.fields != [] && NonEmptyChunks(chunks)
    requires Flatten(chunks) == Serialize(m) + tail && InOneChunk(chunks, |Serialize(m)| - 1)
    ensures
      var out := ReadRequest(chunks).outcome;
      && (out.Got? <==> BodyLess(m.fields))
      && (out == Failed(BadContentLength) <==> !Numeric(m.fields))
      && (forall n: nat :: out == Failed(BodyTooLong(n)) <==> n > 0 && Numeric(m.fields) && Announces(m.fields, 0, n))
  {
    HeadIsRead(chunks, m, RequestLine(m), Section(m.fields), tail);
    SectionMeans(m);
  }

  lemma OneDigit(c: char)
    requires IsDigit(c)
    ensures Trim([c]) == [c] && ParseUsize([c]) == Some(DigitValue(c))
  {
    var s := [c];
    TrimmedAlready(s);
    assert s[..|s| - 1] == "" && DigitsValue("") == 0;
    assert DigitsValue(s) == DigitValue(c);
  }

  lemma LengthName()
    ensures Tight("Content-Length") && EqIgnoreCase("Content-Length", "content-length")
  {
  }

  lemma NameMeasures(f: Field)
    requires f.name == "Content-Length"
    ensures Measures(f)
  {
    LengthName();
    TrimmedAlready(f.name);
  }

  lemma NothingAnnounced(n: nat)
    ensures Numeric([]) && Announces([], n, n)
  {
  }

  lemma SecondCounts(fs: seq<Field>, first: nat)
    requires |fs| == 2 && Measures(fs[0]) && Measures(fs[1])
    requires ParseUsize(Trim(fs[0].value)) == Some(first) && ParseUsize(Trim(fs[1].value)) == Some(0)
    ensures BodyLess(fs)
  {
    assert fs[1..][0] == fs[1] && fs[1..][1..] == [];
    NothingAnnounced(0);
    NumericCons(fs[1..]);
    NumericCons(fs);
    AnnouncesCons(fs[1..], first, 0, 0);
    AnnouncesCons(fs, 0, first, 0);
  }

  /** A request that announces 5 bytes and then 0 is taken to have no body. */
  lemma LastLengthCounts()
    ensures BodyLess([Field("Content-Length", "5"), Field("Content-Length", "0")])
  {
    var fs := [Field("Content-Length", "5"), Field("Content-Length", "0")];
    NameMeasures(fs[0]);
    NameMeasures(fs[1]);
    OneDigit('5');
    OneDigit('0');
    SecondCounts(fs, 5);
  }

  // ---------------------------------------------------------------------
  // Requests that are too long
  // ---------------------------------------------------------------------

  lemma LongLine(line: string, tail: string, max: nat)
    requires Plain(line) && |line| + 2 > max
    ensures FirstLine(line + "\r\n" + tail, '\n', max) == LineTooLong
  {
    var s := line + "\r\n" + tail;
    assert forall k :: 0 <= k < |line| ==> s[k] == line[k];
    assert s[|line|] == '\r' && s[|line| + 1] == '\n';
    IndexOfIs(s, '\n', |line| + 1);
  }

  /** A request line above 8192 bytes is refused, however the stream is cut. */
  lemma LongLineIsRefused(chunks: seq<string>, m: Message, tail: string)
    requires Plain(LineOf(m)) && |RequestLine(m)| > 8192
    requires Flatten(chunks) == Serialize(m) + tail
    ensures ReadRequest(chunks).outcome == Failed(LineLimit)
  {
    LongLine(LineOf(m), Section(m.fields) + tail, MAX_REQUEST_LINE);
    assert Serialize(m) + tail == LineOf(m) + "\r\n" + (Section(m.fields) + tail);
  }

  lemma LongSection(chunks: seq<string>, section: string, tail: string)
    requires |section| > 65536 && FirstEnd(section + tail) == Some(|section| - 1) && Flatten(chunks) == section + tail
    ensures HeadersOf(chunks, MAX_HEADERS) == HeadersTooLong
  {
    FirstSeenIsFirstInOneChunk(chunks);
    if FirstSeen(chunks).Some? {
      InOneChunkEnds(chunks, FirstSeen(chunks).value);
    }
  }

  /** A header section above 65536 bytes is refused, however the stream is cut. */
  lemma LongSectionIsRefused(chunks: seq<string>, m: Message, tail: string)
    requires SoundLine(m) && PlainFields(m.fields) && m.fields != [] && |Section(m.fields)| > 65536
    requires Flatten(chunks) == Serialize(m) + tail
    ensures ReadRequest(chunks).outcome == Failed(HeaderLimit)
  {
    var line, section := RequestLine(m), Section(m.fields);
    Associate(line, section, tail);
    RequestLineFirst(m, section + tail);
    LineReadsBack(m);
    SectionEnds(m.fields, tail);
    SectionAfterLine(chunks, line, section + tail);
    LongSection(Skip(chunks, |line|), section, tail);
  }

  // ---------------------------------------------------------------------
  // The server's rule and that of RFC 9112
  // ---------------------------------------------------------------------

  /** HTTP/1.1 or a later minor version, as section 2.3 of RFC 9112 writes it. */
  predicate AtLeast11(version: string) {
    |version| == 8 && "HTTP/1." <= version && '1' <= version[7] <= '9'
  }

  /** Section 9.3 of RFC 9112, where `close` is looked at first, in every version. */
  ghost predicate RfcPersistent(m: Message) {
    && !AnyLists(m.fields, "close")
    && (AtLeast11(m.version) || (m.version == "HTTP/1.0" && AnyLists(m.fields, "keep-alive")))
  }

  /** Not HTTP/1.0 with both options, nor a later version than HTTP/1.1 that does not ask for closing. */
  ghost predicate RulesAgree(m: Message) {
    && !(m.version == "HTTP/1.0" && AnyLists(m.fields, "close") && AnyLists(m.fields, "keep-alive"))
    && !(AtLeast11(m.version) && m.version != "HTTP/1.1" && !AnyLists(m.fields, "close"))
  }

  /** The connection is kept open as section 9.3 of RFC 9112 asks exactly for these requests. */
  lemma KeepAliveMeetsRfcExactly(chunks: seq<string>, m: Message, tail: string)
    requires WellFormed(m) && m.fields != [] && NonEmptyChunks(chunks)
    requires Flatten(chunks) == Serialize(m) + tail && InOneChunk(chunks, |Serialize(m)| - 1)
    ensures ReadRequest(chunks).outcome.Got?
    ensures (ReadRequest(chunks).outcome.request.keepAlive <==> RfcPersistent(m)) <==> RulesAgree(m)
  {
    RequestReadsBack(chunks, m, tail);
    RulesAgreeExactly(m);
  }

  lemma RulesAgreeExactly(m: Message)
    ensures (StaysOpen(m) <==> RfcPersistent(m)) <==> RulesAgree(m)
  {
  }

  lemma BothAreListed(name: string, a: string, b: string)
    requires Tight(name) && EqIgnoreCase(name, "connection")
    requires Tight(a) && Tight(b) && Lacks(a, ',') && Lacks(b, ',')
    ensures
      var f := Field(name, a + [','] + b);
      Lists(f, a) && Lists(f, b)
  {
    TrimmedAlready(name);
    TrimmedAlready(a);
    TrimmedAlready(b);
    TrimmedAlready(a + [','] + b);
    SplitFirst(a, ',', b);
    IndexOfIs(b, ',', |b|);
    var tokens := Split(a + [','] + b, ',');
    assert tokens == [a, b];
    assert EqIgnoreCase(Trim(tokens[0]), a) && EqIgnoreCase(Trim(tokens[1]), b);
  }

  lemma OneFieldLists(f: Field, token: string)
    ensures AnyLists([f], token) <==> Lists(f, token)
  {
    assert [f][0] == f;
  }

  /** `GET /` with one field. */
  function Get(version: string, f: Field): Message {
    Message("GET", "/", version, [f])
  }

  lemma LineOfGet(version: string)
    requires Ascii(version)
    ensures Ascii("GET" + " " + "/" + " " + version + "\r\n")
  {
  }

  lemma SectionOfOne(f: Field)
    ensures Section([f]) == f.name + ":" + f.value + "\r\n" + "\r\n"
  {
    assert [f][0] == f && [f][1..] == [];
  }

  lemma GetIsWellFormed(version: string, f: Field)
    requires Plain(version) && Lacks(version, ' ') && "HTTP/" <= version && Ascii(version) && |version| <= 100
    requires PlainField(f) && Ascii(f.name) && Ascii(f.value) && |f.name| + |f.value| <= 100
    requires Tight(f.name) && |f.name| != 14
    ensures WellFormed(Get(version, f))
  {
    var m := Get(version, f);
    LineOfGet(version);
    AsciiIsUtf8(RequestLine(m));
    SectionOfOne(f);
    AsciiIsUtf8(Section(m.fields));
    TrimmedAlready(f.name);
    assert m.fields[0] == f;
  }

  const CLOSE := "close"
  const KEEP_ALIVE := "keep-alive"

  /** `Connection: close,keep-alive` */
  function BothOptions(): Field {
    Field("Connection", CLOSE + [','] + KEEP_ALIVE)
  }

  predicate Harmless(s: string) {
    Plain(s) && Ascii(s)
  }

  lemma JoinIsHarmless(a: string, b: string)
    requires Harmless(a) && Harmless(b)
    ensures Harmless(a + [','] + b)
  {
  }

  lemma WordsAreHarmless()
    ensures Harmless(CLOSE) && Harmless(KEEP_ALIVE) && Harmless("Connection") && Lacks("Connection", ':')
  {
  }

  lemma WordsAreTokens()
    ensures Tight(CLOSE) && Lacks(CLOSE, ',') && Tight(KEEP_ALIVE) && Lacks(KEEP_ALIVE, ',')
    ensures Tight("Connection") && EqIgnoreCase("Connection", "connection")
  {
  }

  lemma BothOptionsWellFormed()
    ensures WellFormed(Get("HTTP/1.0", BothOptions()))
  {
    WordsAreHarmless();
    JoinIsHarmless(CLOSE, KEEP_ALIVE);
    GetIsWellFormed("HTTP/1.0", BothOptions());
  }

  lemma BothOptionsListed()
    ensures AnyLists([BothOptions()], "close") && AnyLists([BothOptions()], "keep-alive")
  {
    WordsAreTokens();
    BothAreListed("Connection", CLOSE, KEEP_ALIVE);
    OneFieldLists(BothOptions(), CLOSE);
    OneFieldLists(BothOptions(), KEEP_ALIVE);
  }

  /** An HTTP/1.0 client that asks for both is kept open, against the RFC. */
  lemma KeptOpenAgainstClose()
    ensures
      var m := Get("HTTP/1.0", BothOptions());
      WellFormed(m) && StaysOpen(m) && !RfcPersistent(m)
  {
    BothOptionsWellFormed();
    BothOptionsListed();
  }

  /** A client of a later version is always closed. */
  lemma LaterVersionIsClosed()
    ensures
      var m := Get("HTTP/1.2", Field("Host", "a"));
      WellFormed(m) && !StaysOpen(m) && RfcPersistent(m)
  {
    GetIsWellFormed("HTTP/1.2", Field("Host", "a"));
    TrimmedAlready("Host");
    OneFieldLists(Field("Host", "a"), "close");
  }

  // ---------------------------------------------------------------------
  // Requests without header fields
  // ---------------------------------------------------------------------

  /** Behind a line break, terminators are those of the rest, unless the rest starts with a break. */
  lemma EndsBehindBreak(rest: string, k: nat)
    requires rest != "" && rest[0] != '\r' && rest[0] != '\n' && k < 2 + |rest|
    ensures EndsAt("\r\n" + rest, k) <==> k >= 2 && EndsAt(rest, k - 2)
  {
    var s := "\r\n" + rest;
    assert s[0] == '\r' && s[1] == '\n' && s[2] == rest[0];
    assert forall i :: 2 <= i < |s| ==> s[i] == rest[i - 2];
  }

  lemma EndBehindBreak(rest: string)
    requires rest != "" && rest[0] != '\r' && rest[0] != '\n' && FirstEnd(rest).Some?
    ensures FirstEnd("\r\n" + rest) == Some(2 + FirstEnd(rest).value)
  {
    var e := FirstEnd(rest).value;
    forall k | 0 <= k <= 2 + e ensures EndsAt("\r\n" + rest, k) <==> k == 2 + e {
      EndsBehindBreak(rest, k);
    }
    FirstEndIs("\r\n" + rest, 2 + e);
  }

  function LineOf(m: Message): string {
    m.method' + " " + m.path + " " + m.version
  }

  lemma LineIsPlain(m: Message)
    requires Sound(m)
    ensures Plain(LineOf(m)) && LineOf(m) != "" && RequestLine(m) == LineOf(m) + "\r\n"
  {
  }

  lemma LineAndSectionEnd(line: string, fs: seq<Field>, tail: string)
    requires Plain(line) && line != "" && PlainFields(fs)
    ensures FirstEnd(line + "\r\n" + (Section(fs) + tail)) == Some(|line| + 2 + |Section(fs)| - 1)
  {
    if fs == [] {
      EndOfLastLine(line, tail);
    } else {
      SectionEnds(fs, tail);
      SectionCons(fs, tail);
      ContentIsPlain(fs[0]);
      EndBehindLine(line, Section(fs) + tail);
    }
  }

  lemma EndOfWhole(line: string, section: string, tail: string, whole: string)
    requires whole == line + "\r\n" + section
    requires FirstEnd(line + "\r\n" + (section + tail)) == Some(|line| + 2 + |section| - 1)
    ensures FirstEnd(whole + tail) == Some(|whole| - 1)
  {
    Associate(line + "\r\n", section, tail);
  }

  lemma MessageStarts(m: Message)
    requires Sound(m)
    ensures |Serialize(m)| >= 4 && Serialize(m)[0] != '\r' && Serialize(m)[0] != '\n'
    ensures Serialize(m) == LineOf(m) + "\r\n" + Section(m.fields)
  {
    assert Serialize(m)[0] == LineOf(m)[0];
  }

  /** With its request line in front, a message has its first terminator at its end, fields or not. */
  lemma MessageEnds(m: Message, tail: string)
    requires Sound(m)
    ensures Serialize(m) != "" && Serialize(m)[0] != '\r' && Serialize(m)[0] != '\n'
    ensures FirstEnd(Serialize(m) + tail) == Some(|Serialize(m)| - 1)
  {
    LineIsPlain(m);
    MessageStarts(m);
    LineAndSectionEnd(LineOf(m), m.fields, tail);
    EndOfWhole(LineOf(m), Section(m.fields), tail, Serialize(m));
  }

  lemma BreakInFront(s: string, tail: string)
    requires s != "" && s[0] != '\r' && s[0] != '\n' && FirstEnd(s + tail) == Some(|s| - 1)
    ensures FirstEnd("\r\n" + s + tail) == Some(|s| + 1)
  {
    EndBehindBreak(s + tail);
    Associate("\r\n", s, tail);
  }

  lemma LeadingBreakEnds(m: Message, next: string, tail: string)
    requires Sound(m) && next == Serialize(m)
    ensures |next| >= 4 && FirstEnd("\r\n" + next + tail) == Some(|next| + 1)
  {
    MessageStarts(m);
    MessageEnds(m, tail);
    BreakInFront(next, tail);
  }

  /** A section that starts with the empty line has no fields, whatever follows it there. */
  lemma LeadingBreakConcludes(m: Message, rest: string)
    requires WellFormed(m) && m.fields == [] && IsUtf8(rest)
    ensures Conclude(Parsed(m.method', m.path, m.version), "\r\n" + rest) == Got(Sent(m))
  {
    AsciiIsUtf8("\r\n");
    Utf8Join("\r\n", rest);
    assert "\r\n" + rest == "\r" + ['\n'] + rest;
    SplitFirst("\r", '\n', rest);
    assert "" + "\r" == "\r";
    TrimReturn("");
  }

  lemma MessageIsUtf8(m: Message)
    requires Sound(m)
    ensures IsUtf8(Serialize(m))
  {
    Utf8Join(RequestLine(m), Section(m.fields));
  }

  /** What a request without fields, and the text that is taken for the rest of its section, read as. */
  lemma HeaderlessParts(m: Message, line: string, section: string, next: string, tail: string)
    requires WellFormed(m) && m.fields == [] && line == RequestLine(m)
    requires section == "\r\n" + next && IsUtf8(next)
    ensures FirstLine(line + (section + tail), '\n', MAX_REQUEST_LINE) == Line(line)
    ensures ParseLine(line).Parsed? && Conclude(ParseLine(line), section) == Got(Sent(m))
  {
    RequestLineFirst(m, section + tail);
    LineReadsBack(m);
    LeadingBreakConcludes(m, next);
  }

  lemma HeaderlessTakes(chunks: seq<string>, m: Message, line: string, section: string, next: string, tail: string)
    requires WellFormed(m) && m.fields == [] && line == RequestLine(m)
    requires section == "\r\n" + next && IsUtf8(next) && 4 <= |section| <= MAX_HEADERS
    requires FirstEnd(section + tail) == Some(|section| - 1)
    requires NonEmptyChunks(chunks) && Flatten(chunks) == line + section + tail
    requires InOneChunk(chunks, |line + section| - 1)
    ensures ReadRequest(chunks) == ReadResult(Got(Sent(m)), Skip(chunks, |line + section|))
  {
    HeaderlessParts(m, line, section, next, tail);
    PartsAreTaken(chunks, line, section, tail, Sent(m));
  }

  /** A message as text. */
  ghost predicate IsMessageText(n: Message, next: string) {
    Sound(n) && next == Serialize(n)
  }

  lemma MessageText(n: Message, next: string, tail: string)
    requires IsMessageText(n, next)
    ensures |next| >= 4 && IsUtf8(next) && FirstEnd("\r\n" + next + tail) == Some(|next| + 1)
  {
    LeadingBreakEnds(n, next, tail);
    MessageIsUtf8(n);
  }

  lemma HeaderlessIs(m: Message, next: string, tail: string)
    requires m.fields == []
    ensures Serialize(m) == RequestLine(m) + "\r\n" && |Serialize(m)| == |RequestLine(m)| + 2
    ensures Serialize(m) + next + tail == RequestLine(m) + ("\r\n" + next) + tail
    ensures |Serialize(m)| + |next| == |RequestLine(m) + ("\r\n" + next)|
  {
    Associate(RequestLine(m), "\r\n", next);
  }

  /**
   A request without header fields is read back when another message follows it, but
   the reader takes that whole message for the rest of its header section.
   */
  lemma HeaderlessSwallowsNext(chunks: seq<string>, m: Message, n: Message, tail: string)
    requires WellFormed(m) && m.fields == [] && Sound(n) && 2 + |Serialize(n)| <= MAX_HEADERS
    requires NonEmptyChunks(chunks) && Flatten(chunks) == Serialize(m) + Serialize(n) + tail
    requires Serialize(n) != "" && InOneChunk(chunks, |Serialize(m)| + |Serialize(n)| - 1)
    ensures ReadRequest(chunks) == ReadResult(Got(Sent(m)), Skip(chunks, |Serialize(m)| + |Serialize(n)|))
  {
    var next := Serialize(n);
    MessageText(n, next, tail);
    HeaderlessIs(m, next, tail);
    HeaderlessTakes(chunks, m, RequestLine(m), "\r\n" + next, next, tail);
  }

  lemma BareBreak(chunks: seq<string>)
    requires Flatten(chunks) == "\r\n"
    ensures HeadersOf(chunks, MAX_HEADERS) == ClosedMidHeaders
  {
    FirstSeenIsFirstInOneChunk(chunks);
    if FirstSeen(chunks).Some? {
      InOneChunkEnds(chunks, FirstSeen(chunks).value);
    }
  }

  /** With nothing behind it, the empty line alone is not a terminator for the reader. */
  lemma HeaderlessFails(chunks: seq<string>, m: Message)
    requires WellFormed(m) && m.fields == [] && Flatten(chunks) == Serialize(m)
    ensures ReadRequest(chunks).outcome == Failed(ClosedInHeaders)
  {
    RequestLineFirst(m, "\r\n");
    LineReadsBack(m);
    SectionAfterLine(chunks, RequestLine(m), "\r\n");
    BareBreak(Skip(chunks, |RequestLine(m)|));
  }
}
