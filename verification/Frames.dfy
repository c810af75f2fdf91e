/**
 The wire frames `[tag: u8][len: u16 LE][payload]`, their printer and their parser.

 The payloads of the six control messages are JSON text. The JSON printer and
 parser are a parameter of the model, `Json`, of which only the round-trip law
 `Lawful` is used.
 */
module Frames {
  import opened Bytes
  import opened Options

  const DATA_AUTH_NONCE: byte := 0x01
  const DATA_AUTH_PROOF: byte := 0x02
  const DATA_AUTH_OK: byte := 0x03
  const DATA_AUTH_ERR: byte := 0x04
  const DATA_OPEN: byte := 0x05
  const DATA_AUTH_HELLO: byte := 0x06
  const CONTROL_HELLO: byte := 0x10
  const CONTROL_HELLO_OK: byte := 0x11
  const CONTROL_REGISTER: byte := 0x12
  const CONTROL_REGISTER_OK: byte := 0x13
  const CONTROL_SUBSCRIBE: byte := 0x14
  const CONTROL_SUBSCRIBE_OK: byte := 0x15
  const CONTROL_HEARTBEAT: byte := 0x16
  const CONTROL_ERROR: byte := 0x1F

  const AUTH_ERR_BAD_PROOF: byte := 1
  const MAX_FRAME_PAYLOAD := 32 * 1024

  datatype FrameError =
    | ShortHeader
    | ShortPayload(wanted: nat, got: nat)
    | TooLong(len: nat, max: nat)
    | UnknownTag(tag: byte)
    | BadUtf8
    | BadJson

  /** What a Rust call can end in: a value, an error it reports, or an index out of range. */
  datatype Outcome<+T> = Ok(value: T) | Err(error: FrameError) | Panic {
    predicate IsFailure() {
      !Ok?
    }

    function PropagateFailure<U>(): (r: Outcome<U>)
      requires IsFailure()
      ensures !r.Ok? && (r.Panic? <==> Panic?)
    {
      if Panic? then Outcome<U>.Panic else Outcome<U>.Err(error)
    }

    function Extract(): T
      requires Ok?
    {
      value
    }
  }

  datatype ControlMsg =
    | Hello(groupToken: Text, clientInfo: Text)
    | HelloOk(sessionId: nat)
    | Register(service: Text)
    | RegisterOk(service: Text)
    | Subscribe(service: Text)
    | SubscribeOk(service: Text, provider: Option<Text>, relayRequired: bool)

  datatype Frame =
    | AuthHello
    | AuthNonce(nonce: Bytes32)
    | AuthProof(mac: Bytes32)
    | AuthOk
    | AuthErr(code: byte, reason: Text)
    | DataOpen(service: Text, provider: Text, consumer: Text, proof: Bytes32)
    | Control(msg: ControlMsg)
    | Heartbeat
    | ControlError(errorCode: nat, errorReason: Text)

  function ControlTag(m: ControlMsg): byte {
    match m
    case Hello(_, _) => CONTROL_HELLO
    case HelloOk(_) => CONTROL_HELLO_OK
    case Register(_) => CONTROL_REGISTER
    case RegisterOk(_) => CONTROL_REGISTER_OK
    case Subscribe(_) => CONTROL_SUBSCRIBE
    case SubscribeOk(_, _, _) => CONTROL_SUBSCRIBE_OK
  }

  function Tag(f: Frame): byte {
    match f
    case AuthHello => DATA_AUTH_HELLO
    case AuthNonce(_) => DATA_AUTH_NONCE
    case AuthProof(_) => DATA_AUTH_PROOF
    case AuthOk => DATA_AUTH_OK
    case AuthErr(_, _) => DATA_AUTH_ERR
    case DataOpen(_, _, _, _) => DATA_OPEN
    case Control(m) => ControlTag(m)
    case Heartbeat => CONTROL_HEARTBEAT
    case ControlError(_, _) => CONTROL_ERROR
  }

  /** serde_json for the control messages: a printer, and a parser per expected message type. */
  datatype Json = Json(render: ControlMsg -> Bytes, parse: (byte, Bytes) -> Option<ControlMsg>) {
    ghost predicate Lawful() {
      forall m :: parse(ControlTag(m), render(m)) == Some(m)
    }
  }

  /** A value the Rust type can hold: the one integer field of a non-control frame is a `u16`. */
  predicate Representable(f: Frame) {
    f.ControlError? ==> f.errorCode <= U16_MAX
  }

  // ---------------------------------------------------------------------
  // Printing
  // ---------------------------------------------------------------------

  /** A length-prefixed string field of `DataOpen`. */
  function Field(s: Bytes): (r: Outcome<Bytes>) {
    if |s| > U16_MAX then Err(TooLong(|s|, U16_MAX)) else Ok(U16LE(|s|) + s)
  }

  function EncodeDataOpen(service: Bytes, provider: Bytes, consumer: Bytes, proof: Bytes): (r: Outcome<Bytes>) {
    var a :- Field(service);
    var b :- Field(provider);
    var c :- Field(consumer);
    Ok(a + b + c + proof)
  }

  function EncodePayload(j: Json, f: Frame): (r: Outcome<Bytes>)
    requires Representable(f)
    ensures !r.Panic?
  {
    match f
    case AuthHello => Ok([])
    case AuthNonce(n) => Ok(n)
    case AuthProof(m) => Ok(m)
    case AuthOk => Ok([])
    case AuthErr(code, reason) => Ok([code] + reason)
    case DataOpen(s, p, c, proof) => EncodeDataOpen(s, p, c, proof)
    case Control(m) =>
      var text := j.render(m);
      if |text| > U16_MAX then Err(TooLong(|text|, U16_MAX)) else Ok(text)
    case Heartbeat => Ok([])
    case ControlError(code, reason) => Ok(U16LE(code) + reason)
  }

  /** The bytes `write_to` puts on the stream. */
  function FrameBytes(j: Json, f: Frame): (r: Outcome<Bytes>)
    requires Representable(f)
    ensures !r.Panic?
    ensures r.Ok? <==> EncodePayload(j, f).Ok? && |EncodePayload(j, f).value| <= MAX_FRAME_PAYLOAD
  {
    var payload :- EncodePayload(j, f);
    if |payload| > MAX_FRAME_PAYLOAD then Err(TooLong(|payload|, MAX_FRAME_PAYLOAD))
    else Ok([Tag(f)] + U16LE(|payload|) + payload)
  }

  predicate Writable(j: Json, f: Frame) {
    Representable(f) && FrameBytes(j, f).Ok?
  }

  // ---------------------------------------------------------------------
  // Parsing
  // ---------------------------------------------------------------------

  /** `payload[a..b]`, which panics when the range is not inside the slice. */
  function Slice(p: Bytes, a: nat, b: nat): (r: Outcome<Bytes>) {
    if a <= b <= |p| then Ok(p[a..b]) else Panic
  }

  /** `u16::from_le_bytes([payload[i], payload[i + 1]])`. */
  function LengthAt(p: Bytes, i: nat): (r: Outcome<nat>) {
    if i + 1 < |p| then Ok(FromU16LE(p[i], p[i + 1])) else Panic
  }

  /** `String::from_utf8`. */
  function FromUtf8(s: Bytes): (r: Outcome<Text>) {
    if ValidUtf8(s) then Ok(s) else Err(BadUtf8)
  }

  function DecodeDataOpen(p: Bytes): (r: Outcome<Frame>) {
    if |p| < 2 then Err(ShortPayload(2, |p|)) else
    var svcLen :- LengthAt(p, 0);
    var needMin := 2 + svcLen + 2 + 2 + 32;
    if |p| < needMin then Err(ShortPayload(needMin, |p|)) else
    var svcBytes :- Slice(p, 2, 2 + svcLen);
    var svc :- FromUtf8(svcBytes);
    var provLen :- LengthAt(p, 2 + svcLen);
    var provStart := 2 + svcLen + 2;
    var provEnd := provStart + provLen;
    var provBytes :- Slice(p, provStart, provEnd);
    var provider :- FromUtf8(provBytes);
    var consLen :- LengthAt(p, provEnd);
    var consStart := provEnd + 2;
    var consEnd := consStart + consLen;
    var needWithCons := consEnd + 32;
    if |p| < needWithCons then Err(ShortPayload(needWithCons, |p|)) else
    var consBytes :- Slice(p, consStart, consEnd);
    var consumer :- FromUtf8(consBytes);
    var proof :- Slice(p, consEnd, consEnd + 32);
    Ok(DataOpen(svc, provider, consumer, proof))
  }

  function DecodeControl(j: Json, tag: byte, p: Bytes): (r: Outcome<Frame>) {
    match j.parse(tag, p)
    case Some(m) => Ok(Control(m))
    case None => Err(BadJson)
  }

  function Decode(j: Json, tag: byte, p: Bytes): (r: Outcome<Frame>) {
    if tag == DATA_AUTH_HELLO then
      if p != [] then Err(ShortPayload(0, |p|)) else Ok(AuthHello)
    else if tag == DATA_AUTH_NONCE then
      if |p| != 32 then Err(ShortPayload(32, |p|)) else Ok(AuthNonce(p))
    else if tag == DATA_AUTH_PROOF then
      if |p| != 32 then Err(ShortPayload(32, |p|)) else Ok(AuthProof(p))
    else if tag == DATA_AUTH_OK then
      Ok(AuthOk)
    else if tag == DATA_AUTH_ERR then
      if p == [] then Err(ShortPayload(1, 0))
      else if ValidUtf8(p[1..]) then Ok(AuthErr(p[0], p[1..])) else Err(BadUtf8)
    else if tag == DATA_OPEN then
      DecodeDataOpen(p)
    else if CONTROL_HELLO <= tag <= CONTROL_SUBSCRIBE_OK then
      DecodeControl(j, tag, p)
    else if tag == CONTROL_HEARTBEAT then
      Ok(Heartbeat)
    else if tag == CONTROL_ERROR then
      if |p| < 2 then Err(ShortPayload(2, |p|))
      else if ValidUtf8(p[2..]) then Ok(ControlError(FromU16LE(p[0], p[1]), p[2..])) else Err(BadUtf8)
    else
      Err(UnknownTag(tag))
  }

  datatype Read = Read(out: Outcome<Frame>, rest: Bytes)

  /** One `read_from` on a stream that holds exactly `s` and is then closed. */
  function ReadFrame(j: Json, s: Bytes): (r: Read) {
    if |s| < 3 then Read(Err(ShortHeader), [])
    else
      var len := FromU16LE(s[1], s[2]);
      if len > MAX_FRAME_PAYLOAD then Read(Err(TooLong(len, MAX_FRAME_PAYLOAD)), s[3..])
      else if |s| < 3 + len then Read(Err(ShortPayload(len, 0)), [])
      else Read(Decode(j, s[0], s[3..3 + len]), s[3 + len..])
  }

  // ---------------------------------------------------------------------
  // The stream operations
  // ---------------------------------------------------------------------

  /** `encode_payload`: appends the fields of `f` to a growing buffer. */
  method EncodeIntoBuffer(j: Json, f: Frame) returns (r: Outcome<Bytes>)
    requires Representable(f)
    ensures r == EncodePayload(j, f)
  {
    assert forall s: Bytes :: [] + s == s;
    var out: Bytes := [];
    match f {
      case AuthHello =>
      case AuthNonce(n) => out := out + n;
      case AuthProof(m) => out := out + m;
      case AuthOk =>
      case AuthErr(code, reason) =>
        out := out + [code];
        out := out + reason;
      case DataOpen(service, provider, consumer, proof) =>
        if |service| > U16_MAX {
          return Err(TooLong(|service|, U16_MAX));
        }
        out := out + (U16LE(|service|) + service);
        if |provider| > U16_MAX {
          return Err(TooLong(|provider|, U16_MAX));
        }
        out := out + (U16LE(|provider|) + provider);
        if |consumer| > U16_MAX {
          return Err(TooLong(|consumer|, U16_MAX));
        }
        out := out + (U16LE(|consumer|) + consumer);
        out := out + proof;
      case Control(m) =>
        var text := j.render(m);
        if |text| > U16_MAX {
          return Err(TooLong(|text|, U16_MAX));
        }
        out := out + text;
      case Heartbeat =>
      case ControlError(code, reason) =>
        out := out + U16LE(code);
        out := out + reason;
    }
    return Ok(out);
  }

  /** One direction of a QUIC stream: bytes written and not yet read. */
  class ByteStream {
    var data: Bytes

    constructor ()
      ensures data == []
    {
      data := [];
    }

    /** `Frame::write_to`: header, then payload; nothing on an encoding error. */
    method WriteFrame(j: Json, f: Frame) returns (r: Outcome<()>)
      requires Representable(f)
      modifies this
      ensures r.Ok? <==> FrameBytes(j, f).Ok?
      ensures data == if r.Ok? then old(data) + FrameBytes(j, f).value else old(data)
    {
      var encoded := EncodeIntoBuffer(j, f);
      if !encoded.Ok? {
        return Err(encoded.error);
      }
      var payload := encoded.value;
      if |payload| > MAX_FRAME_PAYLOAD {
        return Err(TooLong(|payload|, MAX_FRAME_PAYLOAD));
      }
      ghost var before := data;
      data := data + ([Tag(f)] + U16LE(|payload|));
      if payload != [] {
        data := data + payload;
      }
      assert data == before + ([Tag(f)] + U16LE(|payload|) + payload);
      return Ok(());
    }

    /** `read_exact` for `n` bytes on a stream whose writer has finished. */
    method ReadExact(n: nat) returns (r: Option<Bytes>)
      modifies this
      ensures n <= |old(data)| ==> r == Some(old(data)[..n]) && data == old(data)[n..]
      ensures n > |old(data)| ==> r == None && data == []
    {
      if n <= |data| {
        r := Some(data[..n]);
        data := data[n..];
      } else {
        r := None;
        data := [];
      }
    }

    /** `Frame::read_from`. */
    method ReadFrameFrom(j: Json) returns (r: Outcome<Frame>)
      modifies this
      ensures r == ReadFrame(j, old(data)).out && data == ReadFrame(j, old(data)).rest
    {
      ghost var all := data;
      var head := ReadExact(3);
      if head.None? {
        return Err(ShortHeader);
      }
      var len := FromU16LE(head.value[1], head.value[2]);
      if len > MAX_FRAME_PAYLOAD {
        return Err(TooLong(len, MAX_FRAME_PAYLOAD));
      }
      var payload: Bytes := [];
      if len > 0 {
        var body := ReadExact(len);
        if body.None? {
          return Err(ShortPayload(len, 0));
        }
        payload := body.value;
      }
      assert payload == all[3..3 + len] && data == all[3 + len..];
      r := Decode(j, head.value[0], payload);
    }
  }

  // ---------------------------------------------------------------------
  // Round trips
  // ---------------------------------------------------------------------

  /** A string field and what follows it, at any offset of a payload. */
  lemma FieldAt(p: Bytes, i: nat, s: Bytes, rest: Bytes)
    requires i <= |p| && |s| <= U16_MAX
    requires p[i..] == U16LE(|s|) + s + rest
    ensures |p| == i + 2 + |s| + |rest|
    ensures LengthAt(p, i) == Ok(|s|)
    ensures Slice(p, i + 2, i + 2 + |s|) == Ok(s)
    ensures p[i + 2 + |s|..] == rest
  {
    var q := U16LE(|s|) + s + rest;
    LengthReadsBack(|s|);
    assert p[i] == q[0] && p[i + 1] == q[1];
    assert q[2..2 + |s|] == s && q[2 + |s|..] == rest;
    assert p[i + 2..i + 2 + |s|] == p[i..][2..2 + |s|];
    assert p[i + 2 + |s|..] == p[i..][2 + |s|..];
  }

  /** The layout of a `DataOpen` payload: three string fields, the proof, and ignored trailing bytes. */
  function Layout(s: Bytes, p: Bytes, c: Bytes, proof: Bytes, tail: Bytes): Bytes
    requires |s| <= U16_MAX && |p| <= U16_MAX && |c| <= U16_MAX
  {
    U16LE(|s|) + s + (U16LE(|p|) + p + (U16LE(|c|) + c + (proof + tail)))
  }

  /** The fields of a `DataOpen`, at the offsets that their lengths add up to. */
  predicate FieldsAt(q: Bytes, s: Bytes, p: Bytes, c: Bytes, proof: Bytes) {
    && var i := 2 + |s|;
    && var k := i + 2 + |p|;
    && var e := k + 2 + |c|;
    && e + 32 <= |q|
    && LengthAt(q, 0) == Ok(|s|) && Slice(q, 2, i) == Ok(s)
    && LengthAt(q, i) == Ok(|p|) && Slice(q, i + 2, k) == Ok(p)
    && LengthAt(q, k) == Ok(|c|) && Slice(q, k + 2, e) == Ok(c)
    && Slice(q, e, e + 32) == Ok(proof)
  }

  lemma FieldsDecode(q: Bytes, s: Text, p: Text, c: Text, proof: Bytes32)
    requires FieldsAt(q, s, p, c, proof)
    ensures DecodeDataOpen(q) == Ok(DataOpen(s, p, c, proof))
  {
  }

  lemma LastField(q: Bytes, e: nat, proof: Bytes, tail: Bytes)
    requires e <= |q| && q[e..] == proof + tail && |proof| == 32
    ensures e + 32 <= |q| && Slice(q, e, e + 32) == Ok(proof)
  {
    assert q[e..e + 32] == q[e..][..32] == proof;
  }

  lemma FieldsInSequence(q: Bytes, s: Bytes, p: Bytes, c: Bytes, proof: Bytes, tail: Bytes, r0: Bytes, r1: Bytes)
    requires |s| <= U16_MAX && |p| <= U16_MAX && |c| <= U16_MAX && |proof| == 32
    requires q[0..] == U16LE(|s|) + s + r0 && r0 == U16LE(|p|) + p + r1 && r1 == U16LE(|c|) + c + (proof + tail)
    ensures FieldsAt(q, s, p, c, proof)
  {
    FieldAt(q, 0, s, r0);
    FieldAt(q, 2 + |s|, p, r1);
    FieldAt(q, 2 + |s| + 2 + |p|, c, proof + tail);
    LastField(q, 2 + |s| + 2 + |p| + 2 + |c|, proof, tail);
  }

  lemma LayoutHasFields(s: Bytes, p: Bytes, c: Bytes, proof: Bytes, tail: Bytes)
    requires |s| <= U16_MAX && |p| <= U16_MAX && |c| <= U16_MAX && |proof| == 32
    ensures FieldsAt(Layout(s, p, c, proof, tail), s, p, c, proof)
  {
    var q, r1 := Layout(s, p, c, proof, tail), U16LE(|c|) + c + (proof + tail);
    assert q[0..] == q;
    FieldsInSequence(q, s, p, c, proof, tail, U16LE(|p|) + p + r1, r1);
  }

  lemma DataOpenDecodes(s: Text, p: Text, c: Text, proof: Bytes32, tail: Bytes)
    requires |s| <= U16_MAX && |p| <= U16_MAX && |c| <= U16_MAX
    ensures DecodeDataOpen(Layout(s, p, c, proof, tail)) == Ok(DataOpen(s, p, c, proof))
  {
    LayoutHasFields(s, p, c, proof, tail);
    FieldsDecode(Layout(s, p, c, proof, tail), s, p, c, proof);
  }

  lemma Reassociate(a: Bytes, b: Bytes, c: Bytes, d: Bytes)
    ensures a + b + c + d == a + (b + (c + (d + [])))
  {
  }

  lemma DataOpenEncodes(s: Text, p: Text, c: Text, proof: Bytes32)
    requires EncodeDataOpen(s, p, c, proof).Ok?
    ensures EncodeDataOpen(s, p, c, proof) == Ok(Layout(s, p, c, proof, []))
  {
    Reassociate(U16LE(|s|) + s, U16LE(|p|) + p, U16LE(|c|) + c, proof);
  }

  lemma PayloadRoundTrip(j: Json, f: Frame)
    requires j.Lawful() && Representable(f) && EncodePayload(j, f).Ok?
    ensures Decode(j, Tag(f), EncodePayload(j, f).value) == Ok(f)
  {
    var payload := EncodePayload(j, f).value;
    match f {
      case DataOpen(s, p, c, proof) =>
        DataOpenEncodes(s, p, c, proof);
        DataOpenDecodes(s, p, c, proof, []);
      case AuthErr(code, reason) =>
        assert payload[1..] == reason;
      case ControlError(code, reason) =>
        LengthReadsBack(code);
        assert payload[2..] == reason && payload[..2] == U16LE(code);
      case Control(m) =>
        assert j.parse(ControlTag(m), j.render(m)) == Some(m);
      case _ =>
    }
  }

  /** Reading back one written frame yields it and leaves exactly what follows. */
  lemma FrameRoundTrip(j: Json, f: Frame, tail: Bytes)
    requires j.Lawful() && Writable(j, f)
    ensures ReadFrame(j, FrameBytes(j, f).value + tail) == Read(Ok(f), tail)
  {
    var payload := EncodePayload(j, f).value;
    var s := FrameBytes(j, f).value + tail;
    LengthReadsBack(|payload|);
    assert s[1..3] == U16LE(|payload|);
    assert s[1] == s[1..3][0] && s[2] == s[1..3][1];
    assert s[3..3 + |payload|] == payload && s[3 + |payload|..] == tail;
    PayloadRoundTrip(j, f);
  }

  predicate AllWritable(j: Json, fs: seq<Frame>) {
    forall i :: 0 <= i < |fs| ==> Writable(j, fs[i])
  }

  function StreamBytes(j: Json, fs: seq<Frame>): Bytes
    requires AllWritable(j, fs)
  {
    if fs == [] then [] else FrameBytes(j, fs[0]).value + StreamBytes(j, fs[1..])
  }

  datatype Reads = Reads(outs: seq<Outcome<Frame>>, rest: Bytes)

  /** `n` successive `read_from` calls. */
  function ReadFrames(j: Json, s: Bytes, n: nat): Reads
    decreases n
  {
    if n == 0 then Reads([], s)
    else
      var one := ReadFrame(j, s);
      var more := ReadFrames(j, one.rest, n - 1);
      Reads([one.out] + more.outs, more.rest)
  }

  /**
   Any list of writable frames, written one after the other and followed by any
   bytes, reads back as the same list, and exactly its bytes are consumed.
   */
  lemma {:induction false} StreamRoundTrip(j: Json, fs: seq<Frame>, tail: Bytes)
    requires j.Lawful()
    requires AllWritable(j, fs)
    ensures
      var r := ReadFrames(j, StreamBytes(j, fs) + tail, |fs|);
      && r.rest == tail
      && |r.outs| == |fs|
      && forall i :: 0 <= i < |fs| ==> r.outs[i] == Ok(fs[i])
  {
    if fs == [] {
      assert StreamBytes(j, fs) + tail == tail;
    } else {
      var more := StreamBytes(j, fs[1..]) + tail;
      assert StreamBytes(j, fs) + tail == FrameBytes(j, fs[0]).value + more;
      FrameRoundTrip(j, fs[0], more);
      StreamRoundTrip(j, fs[1..], tail);
    }
  }

  /** Frame lists of equal length are determined by their bytes. */
  lemma StreamsAreUnambiguous(j: Json, fs: seq<Frame>, gs: seq<Frame>, a: Bytes, b: Bytes)
    requires j.Lawful() && |fs| == |gs|
    requires AllWritable(j, fs)
    requires AllWritable(j, gs)
    requires StreamBytes(j, fs) + a == StreamBytes(j, gs) + b
    ensures fs == gs && a == b
  {
    StreamRoundTrip(j, fs, a);
    StreamRoundTrip(j, gs, b);
    var x := ReadFrames(j, StreamBytes(j, fs) + a, |fs|);
    forall i | 0 <= i < |fs| ensures fs[i] == gs[i] {
      assert x.outs[i] == Ok(fs[i]) && x.outs[i] == Ok(gs[i]);
    }
  }

  /** A stream cut anywhere inside a frame gives a short-read error, never a frame. */
  lemma StrictPrefixIsShort(j: Json, f: Frame, cut: nat)
    requires Writable(j, f) && cut < |FrameBytes(j, f).value|
    ensures
      var r := ReadFrame(j, FrameBytes(j, f).value[..cut]);
      && r.rest == []
      && r.out == if cut < 3 then Err(ShortHeader) else Err(ShortPayload(|EncodePayload(j, f).value|, 0))
  {
    var payload := EncodePayload(j, f).value;
    var whole := FrameBytes(j, f).value;
    if cut >= 3 {
      LengthReadsBack(|payload|);
      assert whole[1..3] == U16LE(|payload|);
      assert whole[1] == whole[1..3][0] && whole[2] == whole[1..3][1];
    }
  }

  // ---------------------------------------------------------------------
  // The wire format
  // ---------------------------------------------------------------------

  /** The tag numbers of the protocol's frame table. */
  function WireTag(f: Frame): byte {
    match f
    case AuthNonce(_) => 0x01
    case AuthProof(_) => 0x02
    case AuthOk => 0x03
    case AuthErr(_, _) => 0x04
    case DataOpen(_, _, _, _) => 0x05
    case AuthHello => 0x06
    case Control(Hello(_, _)) => 0x10
    case Control(HelloOk(_)) => 0x11
    case Control(Register(_)) => 0x12
    case Control(RegisterOk(_)) => 0x13
    case Control(Subscribe(_)) => 0x14
    case Control(SubscribeOk(_, _, _)) => 0x15
    case Heartbeat => 0x16
    case ControlError(_, _) => 0x1F
  }

  /** What a frame of fixed layout carries behind its header. */
  predicate PayloadIs(j: Json, f: Frame, p: Bytes) {
    match f
    case AuthHello => p == []
    case AuthNonce(nonce) => p == nonce
    case AuthProof(mac) => p == mac
    case AuthOk => p == []
    case AuthErr(code, reason) => p == [code] + reason
    case DataOpen(_, _, _, _) => |p| >= 38
    case Control(m) => p == j.render(m)
    case Heartbeat => p == []
    case ControlError(code, reason) => code <= U16_MAX && p == [code % 256, code / 256] + reason
  }

  /** A frame on the wire: one byte of tag, two of length, low byte first, and the payload, of at most 32768 bytes. */
  lemma WireFormat(j: Json, f: Frame)
    requires Representable(f)
    ensures Writable(j, f) <==> EncodePayload(j, f).Ok? && |EncodePayload(j, f).value| <= 32768
    ensures Writable(j, f) ==>
      var p := EncodePayload(j, f).value;
      && FrameBytes(j, f).value == [WireTag(f), |p| % 256, |p| / 256] + p
      && PayloadIs(j, f, p)
  {
    if Writable(j, f) {
      U16LEIsArithmetic(|EncodePayload(j, f).value|);
    }
    if f.ControlError? {
      U16LEIsArithmetic(f.errorCode);
    }
  }

  /** What cannot be encoded: a field of a `DataOpen`, or the text of a control message, above 65535 bytes. */
  lemma EncodableExactly(j: Json, f: Frame)
    requires Representable(f)
    ensures EncodePayload(j, f).Ok? <==>
      && (f.DataOpen? ==> |f.service| <= 65535 && |f.provider| <= 65535 && |f.consumer| <= 65535)
      && (f.Control? ==> |j.render(f.msg)| <= 65535)
  {
  }

  /** The documented ranges: tags up to 0x0F are the data plane's, those from 0x10 to 0x1F the control plane's. */
  lemma TagRanges(f: Frame)
    ensures 0x01 <= Tag(f) <= 0x1F
    ensures 0x10 <= Tag(f) <==> f.Control? || f.Heartbeat? || f.ControlError?
  {
  }

  predicate KnownTag(tag: byte) {
    0x01 <= tag <= 0x06 || 0x10 <= tag <= 0x16 || tag == 0x1F
  }

  lemma UnknownTagExactly(j: Json, tag: byte, p: Bytes)
    ensures (exists t :: Decode(j, tag, p) == Err(UnknownTag(t))) <==> !KnownTag(tag)
  {
    if !KnownTag(tag) {
      assert Decode(j, tag, p) == Err(UnknownTag(tag));
    }
  }

  /** A header that announces more than 32768 bytes is refused before any of them is read. */
  lemma LongFrameIsRefused(j: Json, s: Bytes)
    requires |s| >= 3 && (s[1] as int) + 256 * (s[2] as int) > 32768
    ensures ReadFrame(j, s) == Read(Err(TooLong((s[1] as int) + 256 * (s[2] as int), 32768)), s[3..])
  {
    FromU16LEIsArithmetic(s[1], s[2]);
  }

  lemma DataOpensOnly(q: Bytes)
    ensures DecodeDataOpen(q).Ok? ==> DecodeDataOpen(q).value.DataOpen?
  {
  }

  /** Frames of fixed layout come from their own tag. */
  lemma FixedTag(j: Json, tag: byte, p: Bytes)
    requires Decode(j, tag, p).Ok?
    ensures
      var f := Decode(j, tag, p).value;
      f.Control? || f.DataOpen? || tag == WireTag(f)
  {
    if tag == DATA_OPEN {
      DataOpensOnly(p);
    }
  }

  lemma AuthErrDecodes(p: Bytes, code: byte, reason: Text)
    ensures p != [] && p[0] == code && p[1..] == reason <==> p == [code] + reason
  {
    if p != [] {
      assert p == [p[0]] + p[1..];
    }
  }

  /**
   A payload of fixed layout decodes to a frame exactly when that frame encodes to
   it; the payloads of `AuthOk` and `Heartbeat` are ignored.
   */
  lemma DecodesExactlyEncodings(j: Json, tag: byte, p: Bytes, f: Frame)
    requires !f.DataOpen? && !f.Control?
    ensures Decode(j, tag, p) == Ok(f) <==>
      tag == WireTag(f) && (f.AuthOk? || f.Heartbeat? || PayloadIs(j, f, p))
  {
    if tag != WireTag(f) {
      if Decode(j, tag, p) == Ok(f) {
        FixedTag(j, tag, p);
      }
    } else if f.AuthErr? {
      AuthErrDecodes(p, f.code, f.reason);
    } else if f.ControlError? {
      ErrorCodeDecodes(p, f.errorCode, f.errorReason);
    }
  }

  lemma ErrorCodeDecodes(p: Bytes, code: nat, reason: Text)
    ensures |p| >= 2 && FromU16LE(p[0], p[1]) == code && p[2..] == reason
       <==> code <= U16_MAX && p == [code % 256, code / 256] + reason
  {
    if |p| >= 2 && FromU16LE(p[0], p[1]) == code && p[2..] == reason {
      LengthBytes(p[0], p[1]);
      U16LEIsArithmetic(code);
      assert p == [p[0], p[1]] + p[2..];
    }
    if code <= U16_MAX && p == [code % 256, code / 256] + reason {
      FromU16LEIsArithmetic(p[0], p[1]);
      assert p[2..] == reason;
    }
  }
}
