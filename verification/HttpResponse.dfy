/**
 The responses of the static HTTP service, and a client that splits the output
 stream back into them.
 */
module HttpResponse {
  import opened Options
  import opened HttpReader
  import opened HttpText
  import opened HttpRequest

  // ---------------------------------------------------------------------
  // Percent-decoding
  // ---------------------------------------------------------------------

  /** `char::to_digit(16)`. */
  function HexDigit(c: char): Option<nat> {
    if '0' <= c <= '9' then Some(c as int - '0' as int)
    else if 'a' <= c <= 'f' then Some(c as int - 'a' as int + 10)
    else if 'A' <= c <= 'F' then Some(c as int - 'A' as int + 10)
    else None
  }

  /** The bytes that the loop of `percent_decode` pushes. */
  function DecodeBytes(s: string): Option<string> {
    if s == "" then Some("")
    else if s[0] == '%' then
      if |s| < 3 || HexDigit(s[1]).None? || HexDigit(s[2]).None? then None
      else
        var c := (HexDigit(s[1]).value * 16 + HexDigit(s[2]).value) as char;
        Prepend([c], DecodeBytes(s[3..]))
    else
      Prepend([if s[0] == '+' then ' ' else s[0]], DecodeBytes(s[1..]))
  }

  function Prepend(out: string, r: Option<string>): Option<string> {
    if r.None? then None else Some(out + r.value)
  }

  lemma PrependTwice(a: string, b: string, r: Option<string>)
    ensures Prepend(a, Prepend(b, r)) == Prepend(a + b, r)
  {
    if r.Some? {
      assert a + (b + r.value) == a + b + r.value;
    }
  }

  function Decoded(s: string): Option<string> {
    var d := DecodeBytes(s);
    if d.Some? && IsUtf8(d.value) then d else None
  }

  method PercentDecode(s: string) returns (r: Option<string>)
    ensures r == Decoded(s)
  {
    var out, i := "", 0;
    assert s[0..] == s;
    if DecodeBytes(s).Some? {
      assert "" + DecodeBytes(s).value == DecodeBytes(s).value;
    }
    while i < |s|
      invariant i <= |s|
      invariant DecodeBytes(s) == Prepend(out, DecodeBytes(s[i..]))
    {
      assert s[i..][0] == s[i] && s[i..][1..] == s[i + 1..];
      if s[i] == '%' {
        if i + 2 >= |s| {
          return None;
        }
        assert s[i..][1] == s[i + 1] && s[i..][2] == s[i + 2] && s[i..][3..] == s[i + 3..];
        var hi, lo := HexDigit(s[i + 1]), HexDigit(s[i + 2]);
        if hi.None? || lo.None? {
          return None;
        }
        var c := (hi.value * 16 + lo.value) as char;
        PrependTwice(out, [c], DecodeBytes(s[i + 3..]));
        out := out + [c];
        i := i + 3;
      } else if s[i] == '+' {
        PrependTwice(out, [' '], DecodeBytes(s[i + 1..]));
        out := out + [' '];
        i := i + 1;
      } else {
        PrependTwice(out, [s[i]], DecodeBytes(s[i + 1..]));
        out := out + [s[i]];
        i := i + 1;
      }
    }
    assert s[i..] == "" && out + "" == out;
    r := if IsUtf8(out) then Some(out) else None;
  }

  function HexChar(n: nat): char
    requires n < 16
  {
    if n < 10 then ('0' as int + n) as char else ('A' as int + n - 10) as char
  }

  predicate Unreserved(c: char) {
    || 'a' <= c <= 'z' || 'A' <= c <= 'Z' || '0' <= c <= '9'
    || c == '-' || c == '.' || c == '_' || c == '~' || c == '/'
  }

  predicate IsByte(c: char) {
    c as int < 256
  }

  /** Percent-encoding of a path, section 2.1 of RFC 3986. */
  function Encode(s: string): (r: string)
    requires forall i :: 0 <= i < |s| ==> IsByte(s[i])
    ensures Lacks(r, '?') && Lacks(r, '#')
  {
    if s == "" then ""
    else
      var c := s[0];
      assert IsByte(c);
      (if Unreserved(c) then [c] else ['%', HexChar(c as int / 16), HexChar(c as int % 16)]) + Encode(s[1..])
  }

  lemma HexRoundTrip(n: nat)
    requires n < 16
    ensures HexDigit(HexChar(n)) == Some(n)
  {
  }

  lemma {:induction false} EncodeThenDecode(s: string)
    requires forall i :: 0 <= i < |s| ==> IsByte(s[i])
    ensures DecodeBytes(Encode(s)) == Some(s)
    decreases |s|
  {
    if s != "" {
      var c, e := s[0], Encode(s);
      EncodeThenDecode(s[1..]);
      assert [c] + s[1..] == s;
      if Unreserved(c) {
        assert e[1..] == Encode(s[1..]);
      } else {
        HexRoundTrip(c as int / 16);
        HexRoundTrip(c as int % 16);
        var hi, lo := HexChar(c as int / 16), HexChar(c as int % 16);
        assert e == ['%', hi, lo] + Encode(s[1..]);
        assert e[0] == '%' && e[1] == hi && e[2] == lo && e[3..] == Encode(s[1..]);
        assert DecodeBytes(e) == Prepend([c], Some(s[1..])) by {
          assert (c as int / 16) * 16 + c as int % 16 == c as int;
        }
      }
    }
  }

  /** A piece of an encoded path: a character for itself, a plus sign, or an escape in either case of letters. */
  datatype Piece = Itself(c: char) | Plus | Escape(hi: nat, hiUpper: bool, lo: nat, loUpper: bool)

  const LOWER_HEX := "0123456789abcdef"
  const UPPER_HEX := "0123456789ABCDEF"

  predicate GoodPiece(p: Piece) {
    match p
    case Itself(c) => c != '%' && c != '+'
    case Plus => true
    case Escape(hi, _, lo, _) => hi < 16 && lo < 16
  }

  predicate GoodPieces(ps: seq<Piece>) {
    forall i :: 0 <= i < |ps| ==> GoodPiece(ps[i])
  }

  function Hex(n: nat, upper: bool): char
    requires n < 16
  {
    if upper then UPPER_HEX[n] else LOWER_HEX[n]
  }

  function PieceText(p: Piece): string
    requires GoodPiece(p)
  {
    match p
    case Itself(c) => [c]
    case Plus => "+"
    case Escape(hi, hiUpper, lo, loUpper) => ['%', Hex(hi, hiUpper), Hex(lo, loUpper)]
  }

  function PieceByte(p: Piece): char
    requires GoodPiece(p)
  {
    match p
    case Itself(c) => c
    case Plus => ' '
    case Escape(hi, _, lo, _) => (16 * hi + lo) as char
  }

  function TextOf(ps: seq<Piece>): string
    requires GoodPieces(ps)
  {
    if ps == [] then "" else PieceText(ps[0]) + TextOf(ps[1..])
  }

  function BytesOf(ps: seq<Piece>): string
    requires GoodPieces(ps)
  {
    if ps == [] then "" else [PieceByte(ps[0])] + BytesOf(ps[1..])
  }

  /** `s` is made of pieces that mean `bytes`. */
  ghost predicate Spells(s: string, bytes: string) {
    exists ps: seq<Piece> :: SpelledBy(ps, s, bytes)
  }

  predicate SpelledBy(ps: seq<Piece>, s: string, bytes: string) {
    GoodPieces(ps) && TextOf(ps) == s && BytesOf(ps) == bytes
  }

  lemma PiecesCons(p: Piece, rest: seq<Piece>, s: string, bytes: string)
    requires GoodPiece(p) && SpelledBy(rest, s, bytes)
    ensures SpelledBy([p] + rest, PieceText(p) + s, [PieceByte(p)] + bytes)
  {
    assert ([p] + rest)[1..] == rest;
  }

  lemma HexMeans(n: nat, upper: bool)
    requires n < 16
    ensures HexDigit(Hex(n, upper)) == Some(n)
  {
  }

  lemma HexIsMeant(c: char) returns (n: nat, upper: bool)
    requires HexDigit(c).Some?
    ensures n < 16 && HexDigit(c) == Some(n) && Hex(n, upper) == c
  {
    n := HexDigit(c).value;
    upper := 'A' <= c <= 'F';
  }

  lemma PieceDecodes(p: Piece, rest: string)
    requires GoodPiece(p)
    ensures DecodeBytes(PieceText(p) + rest) == Prepend([PieceByte(p)], DecodeBytes(rest))
  {
    var s := PieceText(p) + rest;
    if p.Escape? {
      HexMeans(p.hi, p.hiUpper);
      HexMeans(p.lo, p.loUpper);
      assert s[0] == '%' && s[1] == Hex(p.hi, p.hiUpper) && s[2] == Hex(p.lo, p.loUpper) && s[3..] == rest;
    } else {
      assert s[1..] == rest;
    }
  }

  lemma {:induction false} PiecesDecode(ps: seq<Piece>)
    requires GoodPieces(ps)
    ensures DecodeBytes(TextOf(ps)) == Some(BytesOf(ps))
    decreases |ps|
  {
    if ps != [] {
      PieceDecodes(ps[0], TextOf(ps[1..]));
      PiecesDecode(ps[1..]);
    }
  }

  /** The piece that a decodable text starts with. */
  lemma FirstPiece(s: string) returns (p: Piece)
    requires s != "" && DecodeBytes(s).Some?
    ensures GoodPiece(p) && |PieceText(p)| <= |s| && s[..|PieceText(p)|] == PieceText(p)
    ensures DecodeBytes(s[|PieceText(p)|..]).Some?
    ensures DecodeBytes(s) == Prepend([PieceByte(p)], DecodeBytes(s[|PieceText(p)|..]))
  {
    if s[0] == '%' {
      var hi, hiUpper := HexIsMeant(s[1]);
      var lo, loUpper := HexIsMeant(s[2]);
      p := Escape(hi, hiUpper, lo, loUpper);
    } else {
      p := if s[0] == '+' then Plus else Itself(s[0]);
    }
  }

  lemma OneMorePiece(p: Piece, s: string, bytes: string)
    requires GoodPiece(p) && Spells(s, bytes)
    ensures Spells(PieceText(p) + s, [PieceByte(p)] + bytes)
  {
    var rest: seq<Piece> :| SpelledBy(rest, s, bytes);
    PiecesCons(p, rest, s, bytes);
  }

  lemma {:induction false} DecodableIsSpelled(s: string)
    requires DecodeBytes(s).Some?
    ensures Spells(s, DecodeBytes(s).value)
    decreases |s|
  {
    if s == "" {
      var none: seq<Piece> := [];
      assert SpelledBy(none, s, "");
    } else {
      var p := FirstPiece(s);
      var rest := s[|PieceText(p)|..];
      DecodableIsSpelled(rest);
      OneMorePiece(p, rest, DecodeBytes(rest).value);
      assert s == PieceText(p) + rest;
    }
  }

  /**
   Decoding, said without the loop: a text decodes to `bytes` exactly when it is
   made of characters for themselves, plus signs for spaces, and two-digit escapes
   in upper or lower case; a stray percent sign is the only other thing there is.
   */
  lemma DecodesExactlySpellings(s: string, bytes: string)
    ensures DecodeBytes(s) == Some(bytes) <==> Spells(s, bytes)
  {
    if DecodeBytes(s) == Some(bytes) {
      DecodableIsSpelled(s);
    }
    if Spells(s, bytes) {
      var ps: seq<Piece> :| SpelledBy(ps, s, bytes);
      PiecesDecode(ps);
    }
  }

  // ---------------------------------------------------------------------
  // Building a response
  // ---------------------------------------------------------------------

  datatype Response = Response(status: nat, text: string, headers: seq<Field>, body: string)

  /** What the file system holds at a path below the root; `None` where the operating system fails. */
  datatype Target =
    | Missing
    | Outside
    | Directory(listing: Option<string>)
    | File(media: MediaType, contents: Option<string>)

  /** The entries of the table that maps file extensions to content types. */
  datatype MediaType =
    Html | Css | JavaScript | Json | Text | Png | Jpeg | Gif | Svg | Icon | Pdf | Zip | Wasm | Other

  datatype Site = Site(rootExists: bool, allowListing: bool, lookup: string -> Target)

  datatype Built = Ready(response: Response) | Refused(status: nat)

  function StatusText(status: nat): string {
    match status
    case 400 => "Bad Request"
    case 403 => "Forbidden"
    case 404 => "Not Found"
    case 405 => "Method Not Allowed"
    case 500 => "Internal Server Error"
    case _ => "Error"
  }

  function ErrorBody(status: nat): string {
    match status
    case 400 => "400 Bad Request\n"
    case 403 => "403 Forbidden\n"
    case 404 => "404 Not Found\n"
    case 405 => "405 Method Not Allowed\n"
    case 500 => "500 Internal Server Error\n"
    case _ => "Error\n"
  }

  function Headers(media: MediaType, length: nat, keepAlive: bool): seq<Field> {
    [Field("Content-Type", MediaText(media)),
     Field("Content-Length", Decimal(length)),
     Field("Connection", if keepAlive then "keep-alive" else "close")]
  }

  function ErrorResponse(status: nat, method': string, keepAlive: bool): Response {
    var body := if method' == "HEAD" then "" else ErrorBody(status);
    Response(status, StatusText(status), Headers(Text, |body|, keepAlive), body)
  }

  const CHARSET := "; charset=utf-8"

  function MediaText(m: MediaType): string {
    match m
    case Html => "text/html" + CHARSET
    case Css => "text/css" + CHARSET
    case JavaScript => "application/javascript" + CHARSET
    case Json => "application/json" + CHARSET
    case Text => "text/plain" + CHARSET
    case Png => "image/png"
    case Jpeg => "image/jpeg"
    case Gif => "image/gif"
    case Svg => "image/svg+xml"
    case Icon => "image/x-icon"
    case Pdf => "application/pdf"
    case Zip => "application/zip"
    case Wasm => "application/wasm"
    case Other => "application/octet-stream"
  }

  function TrimSlashes(s: string): string {
    if s != "" && s[0] == '/' then TrimSlashes(s[1..]) else s
  }

  /** The decoded path below the root that a request target names: query and fragment are cut off first. */
  function PathOf(target: string): Option<string> {
    var raw := CutAt(CutAt(target, '?').head, '#').head;
    var d := Decoded(raw);
    if d.None? then None else Some(TrimSlashes(d.value))
  }

  function Success(q: Request, media: MediaType, body: string): Response {
    Response(200, "OK", Headers(media, |body|, q.keepAlive), if q.method' == "HEAD" then "" else body)
  }

  function BuildResponse(site: Site, q: Request): Built {
    if q.method' != "GET" && q.method' != "HEAD" then Refused(405)
    else
      var path := PathOf(q.path);
      if path.None? then Refused(400)
      else if !site.rootExists then Refused(500)
      else
        match site.lookup(path.value)
        case Missing => Refused(404)
        case Outside => Refused(403)
        case Directory(listing) =>
          if !site.allowListing then Refused(403)
          else if listing.None? then Refused(500)
          else Ready(Success(q, Html, listing.value))
        case File(media, contents) =>
          if contents.None? then Refused(404)
          else Ready(Success(q, media, contents.value))
  }

  function Respond(site: Site, q: Request): Response {
    match BuildResponse(site, q)
    case Ready(response) => response
    case Refused(status) => ErrorResponse(status, q.method', q.keepAlive)
  }

  // ---------------------------------------------------------------------
  // What is answered
  // ---------------------------------------------------------------------

  lemma SlashIsUtf8(s: string)
    requires IsUtf8(s)
    ensures IsUtf8("/" + s)
  {
    assert Codes("/" + s)[1..] == Codes(s);
  }

  lemma SlashDecodes(s: string)
    ensures DecodeBytes("/" + s) == Prepend("/", DecodeBytes(s))
  {
    assert ("/" + s)[1..] == s;
  }

  lemma QueryIsCut(raw: string, query: string)
    requires Lacks(raw, '?') && Lacks(raw, '#')
    ensures CutAt(CutAt(raw + "?" + query, '?').head, '#').head == raw
  {
    assert raw + "?" + query == raw + ['?'] + query;
    CutFirst(raw, '?', query);
    CutNone(raw, '#');
  }

  lemma SlashIsTrimmed(path: string)
    requires path == "" || path[0] != '/'
    ensures TrimSlashes("/" + path) == path
  {
    assert ("/" + path)[1..] == path;
  }

  lemma EncodedDecodes(path: string, raw: string)
    requires (forall i :: 0 <= i < |path| ==> IsByte(path[i])) && IsUtf8(path) && raw == "/" + Encode(path)
    ensures Lacks(raw, '?') && Lacks(raw, '#')
    ensures DecodeBytes(raw) == Some("/" + path) && IsUtf8("/" + path)
  {
    EncodeThenDecode(path);
    SlashDecodes(Encode(path));
    SlashIsUtf8(path);
  }

  lemma PathFrom(target: string, raw: string, decoded: string, path: string)
    requires CutAt(CutAt(target, '?').head, '#').head == raw
    requires DecodeBytes(raw) == Some(decoded) && IsUtf8(decoded) && TrimSlashes(decoded) == path
    ensures PathOf(target) == Some(path)
  {
  }

  lemma FragmentIsCut(raw: string, fragment: string)
    requires Lacks(raw, '?') && Lacks(raw, '#')
    ensures CutAt(CutAt(raw + "#" + fragment, '?').head, '#').head == raw
  {
    var target := raw + "#" + fragment;
    assert target == raw + ['#'] + fragment;
    var head := CutAt(target, '?').head;
    assert head <= target && |head| > |raw|;
    var rest := head[|raw| + 1..];
    assert head == raw + ['#'] + rest;
    CutFirst(raw, '#', rest);
  }

  /** A UTF-8 path below the root. */
  predicate IsPath(path: string) {
    (forall i :: 0 <= i < |path| ==> IsByte(path[i])) && IsUtf8(path) && (path == "" || path[0] != '/')
  }

  /** A client that percent-encodes a path reaches exactly that path, whatever query or fragment it adds. */
  lemma EncodedPathIsReached(path: string, query: string)
    requires IsPath(path)
    ensures PathOf("/" + Encode(path) + "?" + query) == Some(path)
    ensures PathOf("/" + Encode(path) + "#" + query) == Some(path)
  {
    var raw := "/" + Encode(path);
    EncodedDecodes(path, raw);
    QueryIsCut(raw, query);
    FragmentIsCut(raw, query);
    SlashIsTrimmed(path);
    PathFrom(raw + "?" + query, raw, "/" + path, path);
    PathFrom(raw + "#" + query, raw, "/" + path, path);
  }

  lemma RefusedLengthsDiffer(status: nat, k: bool)
    ensures ErrorResponse(status, "HEAD", k).headers != ErrorResponse(status, "GET", k).headers
  {
    var h, g := ErrorResponse(status, "HEAD", k), ErrorResponse(status, "GET", k);
    DecimalValue(|h.body|);
    DecimalValue(|g.body|);
    assert h.headers[1].value != g.headers[1].value;
  }

  /** The target decodes, and the file system has a readable file or a directory that may be listed there. */
  predicate Serves(site: Site, target: string) {
    && PathOf(target).Some? && site.rootExists
    && match site.lookup(PathOf(target).value)
       case Directory(listing) => site.allowListing && listing.Some?
       case File(_, contents) => contents.Some?
       case _ => false
  }

  lemma HeadIsBuiltLikeGet(site: Site, path: string, k: bool)
    ensures
      var h, g := BuildResponse(site, Request("HEAD", path, k)), BuildResponse(site, Request("GET", path, k));
      && (g.Ready? <==> Serves(site, path)) && (h.Ready? <==> Serves(site, path))
      && (g.Ready? ==> h.response.headers == g.response.headers)
      && (g.Refused? ==> h == g)
  {
  }

  /**
   The header fields of an answer to HEAD are those of the answer to GET (section
   9.3.2 of RFC 9110) exactly when the site serves the path: an error answered to
   HEAD announces length 0.
   */
  lemma HeadMatchesGetExactly(site: Site, path: string, k: bool)
    ensures Respond(site, Request("HEAD", path, k)).headers == Respond(site, Request("GET", path, k)).headers
       <==> Serves(site, path)
  {
    var g := BuildResponse(site, Request("GET", path, k));
    HeadIsBuiltLikeGet(site, path, k);
    if g.Refused? {
      RefusedLengthsDiffer(g.status, k);
    }
  }

  // ---------------------------------------------------------------------
  // What a client is told
  // ---------------------------------------------------------------------

  predicate Reads(method': string) {
    method' == "GET" || method' == "HEAD"
  }

  /** What the site holds at the path that `target` names, if the request gets that far. */
  function Found(site: Site, target: string): Option<Target> {
    var path := PathOf(target);
    if path.None? || !site.rootExists then None else Some(site.lookup(path.value))
  }

  /** The status for each way a request can fail, and 200 for no other than the rest. */
  predicate StatusMeans(site: Site, q: Request, status: nat) {
    var found := Found(site, q.path);
    var dir := found.Some? && found.value.Directory?;
    && (status == 405 <==> !Reads(q.method'))
    && (status == 400 <==> Reads(q.method') && PathOf(q.path).None?)
    && (status == 404 <==>
          && Reads(q.method') && found.Some?
          && (found.value.Missing? || (found.value.File? && found.value.contents.None?)))
    && (status == 403 <==>
          && Reads(q.method') && found.Some?
          && (found.value.Outside? || (dir && !site.allowListing)))
    && (status == 500 <==>
          && Reads(q.method') && PathOf(q.path).Some?
          && (!site.rootExists || (dir && site.allowListing && found.value.listing.None?)))
    && (status == 200 <==> Reads(q.method') && Serves(site, q.path))
  }

  /** `r` carries `content`, or after HEAD its length only, and says whether the connection stays open. */
  predicate Carries(q: Request, r: Response, contentType: string, content: string, announced: nat) {
    && r.body == (if q.method' == "HEAD" then "" else content)
    && Field("Content-Type", contentType) in r.headers
    && Field("Content-Length", Decimal(announced)) in r.headers
    && (Field("Connection", "keep-alive") in r.headers <==> q.keepAlive)
    && (Field("Connection", "close") in r.headers <==> !q.keepAlive)
  }

  predicate IsErrorStatus(status: nat) {
    status == 400 || status == 403 || status == 404 || status == 405 || status == 500
  }

  /** The text behind a status of this service. */
  function Reason(status: nat): string
    requires IsErrorStatus(status)
  {
    if status == 400 then "Bad Request"
    else if status == 403 then "Forbidden"
    else if status == 404 then "Not Found"
    else if status == 405 then "Method Not Allowed"
    else "Internal Server Error"
  }

  predicate ErrorMeans(q: Request, r: Response) {
    && IsErrorStatus(r.status)
    && r.text == Reason(r.status)
    && var content := Decimal(r.status) + " " + r.text + "\n";
    Carries(q, r, "text/plain; charset=utf-8", content, if q.method' == "HEAD" then 0 else |content|)
  }

  lemma ThreeDigits(a: nat, b: nat, c: nat)
    requires 0 < a < 10 && b < 10 && c < 10
    ensures Decimal(100 * a + 10 * b + c) == [('0' as int + a) as char, ('0' as int + b) as char, ('0' as int + c) as char]
  {
    var n := 100 * a + 10 * b + c;
    assert n / 10 == 10 * a + b && n % 10 == c;
    assert (10 * a + b) / 10 == a && (10 * a + b) % 10 == b;
    assert Decimal(n) == Decimal(10 * a + b) + [('0' as int + c) as char];
    assert Decimal(10 * a + b) == Decimal(a) + [('0' as int + b) as char];
  }

  lemma ErrorLines()
    ensures "400" + " " + "Bad Request" + "\n" == "400 Bad Request\n"
    ensures "403" + " " + "Forbidden" + "\n" == "403 Forbidden\n"
    ensures "404" + " " + "Not Found" + "\n" == "404 Not Found\n"
    ensures "405" + " " + "Method Not Allowed" + "\n" == "405 Method Not Allowed\n"
    ensures "500" + " " + "Internal Server Error" + "\n" == "500 Internal Server Error\n"
  {
  }

  function Digits(status: nat): string
    requires IsErrorStatus(status)
  {
    if status == 400 then "400"
    else if status == 403 then "403"
    else if status == 404 then "404"
    else if status == 405 then "405"
    else "500"
  }

  lemma DigitsAre(status: nat)
    requires IsErrorStatus(status)
    ensures Decimal(status) == Digits(status)
  {
    ThreeDigits(if status == 500 then 5 else 4, 0, status % 10);
  }

  lemma ErrorLineIs(status: nat)
    requires IsErrorStatus(status)
    ensures ErrorBody(status) == Digits(status) + " " + Reason(status) + "\n"
  {
    ErrorLines();
  }

  lemma ErrorTextIs(status: nat)
    requires IsErrorStatus(status)
    ensures StatusText(status) == Reason(status)
    ensures ErrorBody(status) == Decimal(status) + " " + Reason(status) + "\n"
  {
    DigitsAre(status);
    ErrorLineIs(status);
  }

  lemma TextTypes()
    ensures MediaText(Html) == "text/html; charset=utf-8" && MediaText(Text) == "text/plain; charset=utf-8"
  {
    assert "text/html" + "; charset=utf-8" == "text/html; charset=utf-8";
    assert "text/plain" + "; charset=utf-8" == "text/plain; charset=utf-8";
  }

  lemma HeadersCarry(media: MediaType, length: nat, keepAlive: bool)
    ensures
      var hs := Headers(media, length, keepAlive);
      && Field("Content-Type", MediaText(media)) in hs
      && Field("Content-Length", Decimal(length)) in hs
      && (Field("Connection", "keep-alive") in hs <==> keepAlive)
      && (Field("Connection", "close") in hs <==> !keepAlive)
  {
    var hs := Headers(media, length, keepAlive);
    assert hs[0] in hs && hs[1] in hs && hs[2] in hs;
    assert hs[0].name != "Connection" && hs[1].name != "Connection";
  }

  lemma ErrorIsMeant(q: Request, status: nat)
    requires IsErrorStatus(status)
    ensures ErrorMeans(q, ErrorResponse(status, q.method', q.keepAlive))
  {
    var r := ErrorResponse(status, q.method', q.keepAlive);
    ErrorTextIs(status);
    TextTypes();
    HeadersCarry(Text, |r.body|, q.keepAlive);
  }

  lemma StatusIsMeant(site: Site, q: Request)
    ensures StatusMeans(site, q, Respond(site, q).status)
  {
  }

  /**
   What is answered, for every site and request. The status says exactly why a
   request is refused. A GET of a readable file returns that file, with its length
   and its type, and of a directory that may be listed its listing; HEAD says the
   same without the content. An error returns its own text.
   */
  lemma AnswerMeans(site: Site, q: Request)
    ensures
      var r := Respond(site, q);
      && StatusMeans(site, q, r.status)
      && (r.status != 200 ==> ErrorMeans(q, r))
      && (r.status == 200 ==>
            && r.text == "OK" && Found(site, q.path).Some?
            && match Found(site, q.path).value
               case File(media, Some(contents)) => Carries(q, r, MediaText(media), contents, |contents|)
               case Directory(Some(listing)) => Carries(q, r, "text/html; charset=utf-8", listing, |listing|)
               case _ => false)
  {
    StatusIsMeant(site, q);
    TextTypes();
    match BuildResponse(site, q)
    case Refused(status) =>
      ErrorIsMeant(q, status);
    case Ready(response) =>
      match Found(site, q.path).value
      case File(media, contents) => HeadersCarry(media, |contents.value|, q.keepAlive);
      case Directory(listing) => HeadersCarry(Html, |listing.value|, q.keepAlive);
      case _ =>
  }

  // ---------------------------------------------------------------------
  // Writing a response
  // ---------------------------------------------------------------------

  function Spaced(hs: seq<Field>): seq<Field> {
    if hs == [] then [] else [Field(hs[0].name, " " + hs[0].value)] + Spaced(hs[1..])
  }

  function StatusLine(r: Response): string {
    "HTTP/1.1" + [' '] + (Decimal(r.status) + [' '] + r.text)
  }

  function HeadOf(r: Response): string {
    StatusLine(r) + "\r\n" + Section(Spaced(r.headers))
  }

  function Render(r: Response): string {
    HeadOf(r) + r.body
  }

  /** The sending half of the stream. */
  class Sink {
    var sent: string

    constructor ()
      ensures sent == ""
    {
      sent := "";
    }

    method WriteAll(bytes: string)
      modifies this
      ensures sent == old(sent) + bytes
    {
      sent := sent + bytes;
    }
  }

  method WriteResponse(send: Sink, r: Response)
    modifies send
    ensures send.sent == old(send.sent) + Render(r)
  {
    var head := "HTTP/1.1 " + Decimal(r.status) + " " + r.text + "\r\n";
    assert head == StatusLine(r) + "\r\n";
    assert r.headers[0..] == r.headers;
    for i := 0 to |r.headers|
      invariant send.sent == old(send.sent)
      invariant HeadOf(r) == head + Section(Spaced(r.headers[i..]))
    {
      var h := r.headers[i];
      assert r.headers[i..][0] == h && r.headers[i..][1..] == r.headers[i + 1..];
      SpacedCons(r.headers[i..]);
      head := head + (h.name + ": " + h.value + "\r\n");
    }
    assert r.headers[|r.headers|..] == [];
    head := head + "\r\n";
    assert head == HeadOf(r);
    Associate(send.sent, head, r.body);
    send.WriteAll(head);
    if r.body != "" {
      send.WriteAll(r.body);
    } else {
      assert send.sent + r.body == send.sent;
      assert send.sent == old(send.sent) + (head + r.body);
    }
  }

  lemma SpacedCons(hs: seq<Field>)
    requires hs != []
    ensures Section(Spaced(hs)) == hs[0].name + ": " + hs[0].value + "\r\n" + Section(Spaced(hs[1..]))
  {
    var f := Field(hs[0].name, " " + hs[0].value);
    assert Spaced(hs) == [f] + Spaced(hs[1..]);
    assert Spaced(hs)[0] == f && Spaced(hs)[1..] == Spaced(hs[1..]);
    SpacedContent(hs[0].name, hs[0].value);
  }

  lemma SpacedContent(name: string, value: string)
    ensures name + ":" + (" " + value) == name + ": " + value
  {
  }

  // ---------------------------------------------------------------------
  // A client that frames by Content-Length
  // ---------------------------------------------------------------------

  datatype Head = Head(status: nat, text: string, fields: seq<Field>)

  function FieldsOf(lines: seq<string>): Option<seq<Field>> {
    if lines == [] then None
    else
      var line := TrimEndOf(lines[0], {'\r'});
      if line == "" then Some([])
      else
        var cut := CutAt(line, ':');
        var rest := FieldsOf(lines[1..]);
        if cut.tail.None? || rest.None? then None
        else Some([Field(cut.head, Trim(cut.tail.value))] + rest.value)
  }

  datatype Status = Status(code: nat, text: string)

  function ParseStatus(line: string): Option<Status> {
    var version := CutAt(line, ' ');
    if version.tail.None? || !("HTTP/" <= version.head) then None
    else
      var code := CutAt(version.tail.value, ' ');
      var n := ParseUsize(code.head);
      if code.tail.None? || n.None? then None else Some(Status(n.value, code.tail.value))
  }

  function ParseLines(lines: seq<string>): Option<Head>
    requires lines != []
  {
    var status := ParseStatus(TrimEndOf(lines[0], {'\r'}));
    var fields := FieldsOf(lines[1..]);
    if status.None? || fields.None? then None
    else Some(Head(status.value.code, status.value.text, fields.value))
  }

  /** Status line and fields, sections 4 and 5 of RFC 9112. */
  function ParseHead(section: string): Option<Head> {
    ParseLines(Split(section, '\n'))
  }

  function ContentLength(fields: seq<Field>): Option<nat> {
    if fields == [] then None
    else if EqIgnoreCase(fields[0].name, "content-length") then ParseUsize(fields[0].value)
    else ContentLength(fields[1..])
  }

  /** Section 6.3 of RFC 9112: responses to HEAD and some statuses have no body, others announce its length. */
  function BodyLength(head: Head, toHead: bool): Option<nat> {
    if toHead || 100 <= head.status < 200 || head.status == 204 || head.status == 304 then Some(0)
    else ContentLength(head.fields)
  }

  datatype Reply = Reply(response: Response, rest: string)

  function ReadReply(s: string, toHead: bool): Option<Reply> {
    var end := FirstEnd(s);
    if end.None? then None
    else
      var head := ParseHead(s[..end.value + 1]);
      if head.None? then None
      else
        var n := BodyLength(head.value, toHead);
        var rest := s[end.value + 1..];
        if n.None? || n.value > |rest| then None
        else Some(Reply(Response(head.value.status, head.value.text, head.value.fields, rest[..n.value]), rest[n.value..]))
  }

  // ---------------------------------------------------------------------
  // Heads are read back
  // ---------------------------------------------------------------------

  predicate GoodValue(v: string) {
    Plain(v) && Tight(v)
  }

  predicate GoodName(name: string) {
    Plain(name) && Lacks(name, ':')
  }

  predicate GoodHeader(h: Field) {
    GoodName(h.name) && GoodValue(h.value)
  }

  predicate GoodHeaders(hs: seq<Field>) {
    forall i :: 0 <= i < |hs| ==> GoodHeader(hs[i])
  }

  /** A head that can be read back, with at least one header. */
  predicate GoodHead(r: Response) {
    Plain(r.text) && r.status < USIZE && r.headers != [] && GoodHeaders(r.headers)
  }

  lemma {:induction false} SpacedIsPlain(hs: seq<Field>)
    requires GoodHeaders(hs)
    ensures PlainFields(Spaced(hs)) && |Spaced(hs)| == |hs|
    decreases |hs|
  {
    if hs != [] {
      SpacedIsPlain(hs[1..]);
    }
  }

  lemma OneHeaderReadsBack(h: Field, rest: string)
    requires GoodHeader(h)
    ensures
      var fields := FieldsOf(Split(rest, '\n'));
      FieldsOf(Split(h.name + ": " + h.value + "\r\n" + rest, '\n')) ==
        if fields.None? then None else Some([h] + fields.value)
  {
    var value := " " + h.value;
    var line := h.name + [':'] + value;
    assert h.name + ": " + h.value + "\r\n" + rest == (line + "\r") + ['\n'] + rest;
    SplitFirst(line + "\r", '\n', rest);
    TrimReturn(line);
    CutFirst(h.name, ':', value);
    TrimmedAlready(h.value);
  }

  lemma LastLineReadsBack()
    ensures FieldsOf(Split("\r\n", '\n')) == Some([])
  {
    assert "\r" + ['\n'] + "" == "\r\n" && "" + "\r" == "\r";
    SplitFirst("\r", '\n', "");
    TrimReturn("");
  }

  lemma {:induction false} HeadersReadBack(hs: seq<Field>)
    requires GoodHeaders(hs)
    ensures FieldsOf(Split(Section(Spaced(hs)), '\n')) == Some(hs)
    decreases |hs|
  {
    if hs == [] {
      LastLineReadsBack();
    } else {
      SpacedCons(hs);
      HeadersReadBack(hs[1..]);
      OneHeaderReadsBack(hs[0], Section(Spaced(hs[1..])));
      assert [hs[0]] + hs[1..] == hs;
    }
  }

  lemma StatusLineIsPlain(r: Response)
    requires GoodHead(r)
    ensures Plain(StatusLine(r)) && StatusLine(r) != ""
  {
    DigitsArePlain(Decimal(r.status));
  }

  lemma DigitsArePlain(s: string)
    requires AllDigits(s)
    ensures Plain(s) && Lacks(s, ' ')
  {
    assert forall i :: 0 <= i < |s| ==> IsDigit(s[i]);
  }

  lemma StatusReadsBack(r: Response)
    requires GoodHead(r)
    ensures ParseStatus(StatusLine(r)) == Some(Status(r.status, r.text))
  {
    CutFirst("HTTP/1.1", ' ', Decimal(r.status) + [' '] + r.text);
    DigitsArePlain(Decimal(r.status));
    CutFirst(Decimal(r.status), ' ', r.text);
    DecimalRoundTrip(r.status);
  }

  lemma FirstLineOfHead(line: string, section: string)
    requires Plain(line)
    ensures Split(line + "\r\n" + section, '\n') == [line + "\r"] + Split(section, '\n')
  {
    assert line + "\r\n" + section == (line + "\r") + ['\n'] + section;
    SplitFirst(line + "\r", '\n', section);
  }

  lemma LinesReadBack(line: string, lines: seq<string>, status: Status, fields: seq<Field>)
    requires Plain(line) && ParseStatus(line) == Some(status) && FieldsOf(lines) == Some(fields)
    ensures ParseLines([line + "\r"] + lines) == Some(Head(status.code, status.text, fields))
  {
    TrimReturn(line);
    assert ([line + "\r"] + lines)[1..] == lines;
  }

  lemma HeadReadsBack(r: Response)
    requires GoodHead(r)
    ensures ParseHead(HeadOf(r)) == Some(Head(r.status, r.text, r.headers))
  {
    var section := Section(Spaced(r.headers));
    StatusLineIsPlain(r);
    FirstLineOfHead(StatusLine(r), section);
    StatusReadsBack(r);
    HeadersReadBack(r.headers);
    LinesReadBack(StatusLine(r), Split(section, '\n'), Status(r.status, r.text), r.headers);
  }

  /** The first terminator behind a head is the one that closes it. */
  lemma HeadEnds(r: Response, tail: string)
    requires GoodHead(r)
    ensures |HeadOf(r)| >= 1 && FirstEnd(HeadOf(r) + tail) == Some(|HeadOf(r)| - 1)
  {
    var fs := Spaced(r.headers);
    SpacedIsPlain(r.headers);
    StatusLineIsPlain(r);
    SectionEnds(fs, tail);
    SectionCons(fs, tail);
    ContentIsPlain(fs[0]);
    EndBehindLine(StatusLine(r), Section(fs) + tail);
    assert HeadOf(r) + tail == StatusLine(r) + "\r\n" + (Section(fs) + tail);
  }

  // ---------------------------------------------------------------------
  // Responses are read back
  // ---------------------------------------------------------------------

  /** The announced length is that of the body, except in answers to HEAD, which have none. */
  predicate Framed(r: Response, toHead: bool) {
    && GoodHead(r)
    && BodyLength(Head(r.status, r.text, r.headers), toHead) == Some(|r.body|)
  }

  lemma Slices(head: string, body: string, tail: string)
    ensures
      var s := head + body + tail;
      && s == head + (body + tail) && s[..|head|] == head && s[|head|..] == body + tail
      && (body + tail)[..|body|] == body && (body + tail)[|body|..] == tail
  {
  }

  lemma PartsOfReply(head: string, body: string, tail: string, parsed: Head, toHead: bool)
    requires head != "" && FirstEnd(head + (body + tail)) == Some(|head| - 1)
    requires ParseHead(head) == Some(parsed) && BodyLength(parsed, toHead) == Some(|body|)
    ensures ReadReply(head + body + tail, toHead)
         == Some(Reply(Response(parsed.status, parsed.text, parsed.fields, body), tail))
  {
    Slices(head, body, tail);
  }

  lemma HeadEndsAt(r: Response, head: string, tail: string)
    requires GoodHead(r) && head == HeadOf(r)
    ensures head != "" && FirstEnd(head + tail) == Some(|head| - 1)
  {
    HeadEnds(r, tail);
  }

  lemma HeadParses(r: Response, head: string)
    requires GoodHead(r) && head == HeadOf(r)
    ensures ParseHead(head) == Some(Head(r.status, r.text, r.headers))
  {
    HeadReadsBack(r);
  }

  /** A framed response is split off whatever follows it, byte for byte. */
  lemma ReplyReadsBack(r: Response, toHead: bool, tail: string)
    requires Framed(r, toHead)
    ensures ReadReply(Render(r) + tail, toHead) == Some(Reply(r, tail))
  {
    var head := HeadOf(r);
    HeadEndsAt(r, head, r.body + tail);
    HeadParses(r, head);
    PartsOfReply(head, r.body, tail, Head(r.status, r.text, r.headers), toHead);
  }

  /** File and listing sizes fit the source's 64-bit `usize`. */
  ghost predicate Fits(site: Site) {
    forall path :: TargetFits(site.lookup(path))
  }

  predicate TargetFits(t: Target) {
    match t
    case Directory(Some(listing)) => |listing| < USIZE
    case File(_, Some(contents)) => |contents| < USIZE
    case _ => true
  }

  lemma JoinIsGood(a: string, b: string)
    requires GoodValue(a) && GoodValue(b)
    ensures GoodValue(a + b)
  {
  }

  lemma TextTypesAreGood(m: MediaType)
    requires m.Html? || m.Css? || m.JavaScript? || m.Json? || m.Text?
    ensures GoodValue(MediaText(m))
  {
    JoinIsGood(
      match m
      case Html => "text/html"
      case Css => "text/css"
      case JavaScript => "application/javascript"
      case Json => "application/json"
      case _ => "text/plain", CHARSET);
  }

  lemma OtherTypesAreGood(m: MediaType)
    requires m.Png? || m.Jpeg? || m.Gif? || m.Svg? || m.Icon? || m.Pdf? || m.Zip? || m.Wasm? || m.Other?
    ensures GoodValue(MediaText(m))
  {
  }

  lemma MediaTextIsGood(m: MediaType)
    ensures GoodValue(MediaText(m))
  {
    if m.Html? || m.Css? || m.JavaScript? || m.Json? || m.Text? {
      TextTypesAreGood(m);
    } else {
      OtherTypesAreGood(m);
    }
  }

  lemma LengthIsGood(length: nat)
    ensures GoodValue(Decimal(length))
  {
    DigitsArePlain(Decimal(length));
    assert IsDigit(Decimal(length)[0]) && IsDigit(Decimal(length)[|Decimal(length)| - 1]);
  }

  lemma NamesAreGood()
    ensures GoodName("Content-Type") && GoodName("Content-Length") && GoodName("Connection")
  {
  }

  lemma LengthIsFound(a: Field, length: nat, rest: seq<Field>)
    requires |a.name| == 12 && length < USIZE
    ensures ContentLength([a, Field("Content-Length", Decimal(length))] + rest) == Some(length)
  {
    var second := Field("Content-Length", Decimal(length));
    DecimalRoundTrip(length);
    assert ([a, second] + rest)[1..] == [second] + rest;
    assert EqIgnoreCase(second.name, "content-length");
  }

  lemma ConnectionIsGood(keepAlive: bool)
    ensures GoodValue(if keepAlive then "keep-alive" else "close")
  {
  }

  lemma ThreeAreGood(a: Field, b: Field, c: Field)
    requires GoodHeader(a) && GoodHeader(b) && GoodHeader(c)
    ensures GoodHeaders([a, b, c])
  {
  }

  lemma HeadersAreGood(media: MediaType, length: nat, keepAlive: bool)
    requires length < USIZE
    ensures GoodHeaders(Headers(media, length, keepAlive))
    ensures ContentLength(Headers(media, length, keepAlive)) == Some(length)
  {
    NamesAreGood();
    MediaTextIsGood(media);
    LengthIsGood(length);
    ConnectionIsGood(keepAlive);
    var hs := Headers(media, length, keepAlive);
    ThreeAreGood(hs[0], hs[1], hs[2]);
    LengthIsFound(hs[0], length, [hs[2]]);
    assert [hs[0], hs[1]] + [hs[2]] == hs;
  }

  lemma AnnouncedIsFramed(r: Response, media: MediaType, length: nat, keepAlive: bool, toHead: bool)
    requires Plain(r.text) && (r.status == 200 || 400 <= r.status <= 500) && length < USIZE
    requires r.headers == Headers(media, length, keepAlive)
    requires |r.body| == if toHead then 0 else length
    ensures Framed(r, toHead)
  {
    HeadersAreGood(media, length, keepAlive);
  }

  lemma SuccessIsFramed(q: Request, media: MediaType, body: string)
    requires |body| < USIZE
    ensures Framed(Success(q, media, body), q.method' == "HEAD")
  {
    AnnouncedIsFramed(Success(q, media, body), media, |body|, q.keepAlive, q.method' == "HEAD");
  }

  lemma StatusTextIsPlain(status: nat)
    ensures Plain(StatusText(status))
  {
    match status
    case 400 =>
    case 403 =>
    case 404 =>
    case 405 =>
    case 500 =>
    case _ =>
  }

  lemma ErrorBodyIsShort(status: nat)
    ensures |ErrorBody(status)| < 100
  {
  }

  lemma ErrorIsFramed(status: nat, method': string, keepAlive: bool)
    requires 400 <= status <= 500
    ensures Framed(ErrorResponse(status, method', keepAlive), method' == "HEAD")
  {
    StatusTextIsPlain(status);
    ErrorBodyIsShort(status);
    var r := ErrorResponse(status, method', keepAlive);
    AnnouncedIsFramed(r, Text, |r.body|, keepAlive, method' == "HEAD");
  }

  /** Whatever the request and the site, the response can be split off the stream by its length. */
  lemma EveryResponseIsFramed(site: Site, q: Request)
    requires Fits(site)
    ensures Framed(Respond(site, q), q.method' == "HEAD")
  {
    match BuildResponse(site, q)
    case Refused(status) =>
      ErrorIsFramed(status, q.method', q.keepAlive);
    case Ready(response) =>
      var target := site.lookup(PathOf(q.path).value);
      assert TargetFits(target);
      if target.Directory? {
        SuccessIsFramed(q, Html, target.listing.value);
      } else {
        SuccessIsFramed(q, target.media, target.contents.value);
      }
  }
}
