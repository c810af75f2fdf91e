/**
 The data-plane handshake between a consumer and a provider over one
 bidirectional stream, as two programs that exchange bytes through FIFO channels.

 A stream is invisible to the side that accepts it until the side that opened it
 has written something, which is why the consumer must speak first.

 Behind an accepting verdict the provider bridges its backend onto the same stream,
 and the backend may speak before it has heard anything.
 */
module Handshake {
  import opened Bytes
  import opened Frames
  import Auth = Authentication

  /** Everything that does not change during one handshake. `early` is what the backend says unasked. */
  datatype Setup = Setup(
    json: Json,
    mac: Auth.Mac,
    service: Bytes,
    consumerSecret: Bytes,
    providerSecret: Bytes,
    nonce: Bytes32,
    sendsHello: bool,
    early: Bytes)
  {
    ghost predicate Valid() {
      json.Lawful()
    }

    /** The two secrets give the same proof for this service and nonce. */
    predicate Agree() {
      Auth.VerifyProof(mac, providerSecret, service, nonce, Auth.ComputeProof(mac, consumerSecret, service, nonce))
    }
  }

  datatype Verdict = Accepted | Denied | Confused

  /** Where `dial_direct` and `dial_relay` are, once the stream is open. */
  datatype Consumer =
    | SendHello
    | AwaitNonce
    | SendProof(nonce: Bytes32)
    | AwaitVerdict
    | Finished(verdict: Verdict)

  /** Where `ExposeHandler::handle` is. */
  datatype Provider =
    | Listen
    | AwaitHello
    | SendNonce
    | AwaitProof
    | SendVerdict(ok: bool)
    | Decided(ok: bool)
    | BailedOut

  // ---------------------------------------------------------------------
  // Reading whole frames off a channel
  // ---------------------------------------------------------------------

  /** `read_from` on an open channel completes once the bytes it asks for have arrived. */
  predicate FrameReady(s: Bytes) {
    && |s| >= 3
    && var len := FromU16LE(s[1], s[2]);
    (len > MAX_FRAME_PAYLOAD || |s| >= 3 + len)
  }

  /** Bytes that arrive behind a complete frame do not change how it is read. */
  lemma ReadIgnoresLaterBytes(j: Json, a: Bytes, b: Bytes)
    requires FrameReady(a)
    ensures FrameReady(a + b)
    ensures ReadFrame(j, a + b) == Read(ReadFrame(j, a).out, ReadFrame(j, a).rest + b)
  {
    var len := FromU16LE(a[1], a[2]);
    if len <= MAX_FRAME_PAYLOAD {
      assert (a + b)[3..3 + len] == a[3..3 + len];
      assert (a + b)[3 + len..] == a[3 + len..] + b;
    } else {
      assert (a + b)[3..] == a[3..] + b;
    }
  }

  lemma {:induction false} AsciiIsUtf8(s: Bytes)
    requires forall i :: 0 <= i < |s| ==> s[i] < 0x80
    ensures ValidUtf8(s)
  {
    if s != [] {
      AsciiIsUtf8(s[1..]);
    }
  }

  /** "bad HMAC proof" */
  function BadProofReason(): Text {
    var s: Bytes := [98, 97, 100, 32, 72, 77, 65, 67, 32, 112, 114, 111, 111, 102];
    AsciiIsUtf8(s);
    s
  }

  function VerdictFrame(ok: bool): Frame {
    if ok then AuthOk else AuthErr(AUTH_ERR_BAD_PROOF, BadProofReason())
  }

  predicate HandshakeFrame(f: Frame) {
    f.AuthHello? || f.AuthNonce? || f.AuthProof? || f == VerdictFrame(true) || f == VerdictFrame(false)
  }

  /** The bytes of a handshake frame. */
  function Msg(su: Setup, f: Frame): Bytes {
    if Writable(su.json, f) then FrameBytes(su.json, f).value else []
  }

  const LONGEST_MESSAGE := 35

  /** The length of an `AuthOk`. */
  const ACCEPTANCE := 3

  lemma MsgReads(su: Setup, f: Frame, tail: Bytes)
    requires su.Valid() && HandshakeFrame(f)
    ensures 3 <= |Msg(su, f)| <= LONGEST_MESSAGE
    ensures f.AuthNonce? ==> |Msg(su, f)| == LONGEST_MESSAGE
    ensures f.AuthOk? ==> |Msg(su, f)| == ACCEPTANCE
    ensures FrameReady(Msg(su, f) + tail)
    ensures ReadFrame(su.json, Msg(su, f) + tail) == Read(Ok(f), tail)
  {
    FrameRoundTrip(su.json, f, tail);
  }

  lemma MsgReadsAlone(su: Setup, f: Frame)
    requires su.Valid() && HandshakeFrame(f)
    ensures 3 <= |Msg(su, f)| <= LONGEST_MESSAGE
    ensures f.AuthNonce? ==> |Msg(su, f)| == LONGEST_MESSAGE
    ensures f.AuthOk? ==> |Msg(su, f)| == ACCEPTANCE
    ensures FrameReady(Msg(su, f)) && ReadFrame(su.json, Msg(su, f)) == Read(Ok(f), [])
  {
    MsgReads(su, f, []);
    assert Msg(su, f) + [] == Msg(su, f);
  }

  lemma ShortMessage(su: Setup, f: Frame, p: Bytes)
    requires Representable(f) && EncodePayload(su.json, f) == Ok(p) && |p| < 256
    ensures Msg(su, f) == [WireTag(f), |p|, 0] + p
  {
    WireFormat(su.json, f);
  }

  /** The bytes of the handshake, as they are on the wire. */
  lemma HandshakeOnTheWire(su: Setup, nonce: Bytes32)
    ensures Msg(su, AuthHello) == [0x06, 0, 0]
    ensures Msg(su, AuthNonce(nonce)) == [0x01, 32, 0] + nonce
    ensures Msg(su, AuthProof(nonce)) == [0x02, 32, 0] + nonce
    ensures Msg(su, VerdictFrame(true)) == [0x03, 0, 0]
  {
    ShortMessage(su, AuthHello, []);
    ShortMessage(su, AuthNonce(nonce), nonce);
    ShortMessage(su, AuthProof(nonce), nonce);
    ShortMessage(su, AuthOk, []);
  }

  /** A refusal says "bad HMAC proof" behind its code. */
  lemma RefusalOnTheWire(su: Setup)
    ensures Msg(su, VerdictFrame(false))
      == [0x04, 15, 0] + ([1] + [98, 97, 100, 32, 72, 77, 65, 67, 32, 112, 114, 111, 111, 102])
  {
    ShortMessage(su, VerdictFrame(false), [1] + BadProofReason());
  }

  // ---------------------------------------------------------------------
  // The two programs
  // ---------------------------------------------------------------------

  /** One step of a program: its next state, what is left of its inbox, what it writes. */
  datatype Move<T> = Stay | Go(next: T, inbox: Bytes, sent: Bytes)

  function ConsumerMove(su: Setup, c: Consumer, inbox: Bytes): Move<Consumer> {
    match c
    case SendHello =>
      Go(AwaitNonce, inbox, if su.sendsHello then Msg(su, AuthHello) else [])
    case AwaitNonce =>
      if !FrameReady(inbox) then Stay
      else
        var r := ReadFrame(su.json, inbox);
        if r.out.Ok? && r.out.value.AuthNonce? then Go(SendProof(r.out.value.nonce), r.rest, [])
        else if r.out.Ok? && r.out.value.AuthErr? then Go(Finished(Denied), r.rest, [])
        else Go(Finished(Confused), r.rest, [])
    case SendProof(n) =>
      Go(AwaitVerdict, inbox, Msg(su, AuthProof(Auth.ComputeProof(su.mac, su.consumerSecret, su.service, n))))
    case AwaitVerdict =>
      if !FrameReady(inbox) then Stay
      else
        var r := ReadFrame(su.json, inbox);
        if r.out.Ok? && r.out.value.AuthOk? then Go(Finished(Accepted), r.rest, [])
        else if r.out.Err? || (r.out.Ok? && r.out.value.AuthErr?) then Go(Finished(Denied), r.rest, [])
        else Go(Finished(Confused), r.rest, [])
    case Finished(_) => Stay
  }

  function ProviderMove(su: Setup, p: Provider, inbox: Bytes): Move<Provider> {
    match p
    case Listen =>
      if inbox == [] then Stay else Go(AwaitHello, inbox, [])
    case AwaitHello =>
      if !FrameReady(inbox) then Stay
      else
        var r := ReadFrame(su.json, inbox);
        if r.out.Ok? && r.out.value.AuthHello? then Go(SendNonce, r.rest, [])
        else Go(BailedOut, r.rest, [])
    case SendNonce =>
      Go(AwaitProof, inbox, Msg(su, AuthNonce(su.nonce)))
    case AwaitProof =>
      if !FrameReady(inbox) then Stay
      else
        var r := ReadFrame(su.json, inbox);
        if r.out.Ok? && r.out.value.AuthProof? then
          Go(SendVerdict(Auth.VerifyProof(su.mac, su.providerSecret, su.service, su.nonce, r.out.value.mac)), r.rest, [])
        else Go(BailedOut, r.rest, [])
    case SendVerdict(ok) =>
      Go(Decided(ok), inbox, Msg(su, VerdictFrame(ok)))
    case Decided(_) => Stay
    case BailedOut => Stay
  }

  /** Whether reading gave `AuthErr`. */
  predicate Refusal(out: Outcome<Frame>) {
    out.Ok? && out.value.AuthErr?
  }

  /**
   How a consumer's waiting ends, for any bytes whatever: accepted by an `AuthOk` in
   the place of the verdict and by nothing else; denied by an `AuthErr`, and there
   also by bytes that are no frame; and it answers the first nonce it is sent.
   */
  lemma ConsumerEndsExactly(su: Setup, c: Consumer, inbox: Bytes)
    requires ConsumerMove(su, c, inbox).Go?
    ensures
      var next := ConsumerMove(su, c, inbox).next;
      var out := ReadFrame(su.json, inbox).out;
      && (next == Finished(Accepted) <==> c.AwaitVerdict? && out == Ok(AuthOk))
      && (next == Finished(Denied) <==>
            (c.AwaitNonce? && Refusal(out)) || (c.AwaitVerdict? && (Refusal(out) || out.Err?)))
      && (forall n :: next == SendProof(n) <==> c.AwaitNonce? && out == Ok(AuthNonce(n)))
  {
  }

  /** The session of the authentication theorems that a provider in state `p` is. */
  function SessionOf(su: Setup, p: Provider): Auth.Session {
    var phase := match p
      case Listen => Auth.AwaitHello
      case AwaitHello => Auth.AwaitHello
      case SendNonce => Auth.AwaitProof(su.nonce)
      case AwaitProof => Auth.AwaitProof(su.nonce)
      case SendVerdict(ok) => if ok then Auth.Bridging(su.nonce) else Auth.Rejected(su.nonce)
      case Decided(ok) => if ok then Auth.Bridging(su.nonce) else Auth.Rejected(su.nonce)
      case BailedOut => Auth.Closed;
    Auth.Session(su.providerSecret, su.service, phase)
  }

  /**
   The provider of the handshake is a session of the authentication theorems: each
   frame it reads moves it as there, bytes that are no frame close it, and its
   other moves do not change the session.
   */
  lemma ProviderIsSession(su: Setup, p: Provider, inbox: Bytes)
    requires ProviderMove(su, p, inbox).Go?
    ensures
      var next := SessionOf(su, ProviderMove(su, p, inbox).next);
      var out := ReadFrame(su.json, inbox).out;
      if !p.AwaitHello? && !p.AwaitProof? then next == SessionOf(su, p)
      else if out.Ok? then next == Auth.OnFrame(su.mac, SessionOf(su, p), out.value, su.nonce)
      else next == SessionOf(su, p).(phase := Auth.Closed)
  {
  }

  /** A program behaves the same when more bytes are queued behind the ones it acts on. */
  lemma ConsumerIgnoresLaterBytes(su: Setup, c: Consumer, inbox: Bytes, more: Bytes)
    requires ConsumerMove(su, c, inbox).Go?
    ensures
      var m := ConsumerMove(su, c, inbox);
      ConsumerMove(su, c, inbox + more) == Go(m.next, m.inbox + more, m.sent)
  {
    if FrameReady(inbox) {
      ReadIgnoresLaterBytes(su.json, inbox, more);
    }
  }

  lemma ProviderIgnoresLaterBytes(su: Setup, p: Provider, inbox: Bytes, more: Bytes)
    requires ProviderMove(su, p, inbox).Go?
    ensures
      var m := ProviderMove(su, p, inbox);
      ProviderMove(su, p, inbox + more) == Go(m.next, m.inbox + more, m.sent)
  {
    if FrameReady(inbox) {
      ReadIgnoresLaterBytes(su.json, inbox, more);
    }
  }

  // ---------------------------------------------------------------------
  // The direct system
  // ---------------------------------------------------------------------

  /** `spoken` is how much of its early bytes the backend has written. */
  datatype Direct = Direct(c: Consumer, p: Provider, toP: Bytes, toC: Bytes, spoken: nat)

  const DirectStart := Direct(SendHello, Listen, [], [], 0)

  datatype Turn = ConsumerTurn | ProviderTurn | BackendTurn(n: nat)

  predicate CanTake(su: Setup, s: Direct, t: Turn) {
    match t
    case ConsumerTurn => ConsumerMove(su, s.c, s.toC).Go?
    case ProviderTurn => ProviderMove(su, s.p, s.toP).Go?
    case BackendTurn(n) => s.p == Decided(true) && 0 < n && s.spoken + n <= |su.early|
  }

  function Take(su: Setup, s: Direct, t: Turn): Direct
    requires CanTake(su, s, t)
  {
    match t
    case ConsumerTurn =>
      var m := ConsumerMove(su, s.c, s.toC);
      s.(c := m.next, toP := s.toP + m.sent, toC := m.inbox)
    case ProviderTurn =>
      var m := ProviderMove(su, s.p, s.toP);
      s.(p := m.next, toP := m.inbox, toC := s.toC + m.sent)
    case BackendTurn(n) =>
      s.(toC := s.toC + su.early[s.spoken..s.spoken + n], spoken := s.spoken + n)
  }

  /** Both programs have returned, and with the verdict that the two secrets call for. */
  predicate Settled(su: Setup, s: Direct) {
    && s.p == Decided(su.Agree())
    && s.c == Finished(if su.Agree() then Accepted else Denied)
  }

  /** Only a backend behind an accepting verdict has spoken. */
  predicate SpokenSoFar(su: Setup, s: Direct) {
    s.spoken <= |su.early| && (s.p != Decided(true) ==> s.spoken == 0)
  }

  /** The joint positions a fault-free run passes through, with the exact channel contents of each. */
  ghost predicate OnTrack(su: Setup, s: Direct) {
    && SpokenSoFar(su, s)
    && match (s.c, s.p)
       case (SendHello, Listen) => s.toP == [] && s.toC == []
       case (AwaitNonce, Listen) => s.toP == Msg(su, AuthHello) && s.toC == []
       case (AwaitNonce, AwaitHello) => s.toP == Msg(su, AuthHello) && s.toC == []
       case (AwaitNonce, SendNonce) => s.toP == [] && s.toC == []
       case (AwaitNonce, AwaitProof) => s.toP == [] && s.toC == Msg(su, AuthNonce(su.nonce))
       case (SendProof(n), AwaitProof) => n == su.nonce && s.toP == [] && s.toC == []
       case (AwaitVerdict, AwaitProof) =>
         s.toP == Msg(su, AuthProof(Auth.ComputeProof(su.mac, su.consumerSecret, su.service, su.nonce))) && s.toC == []
       case (AwaitVerdict, SendVerdict(ok)) => ok == su.Agree() && s.toP == [] && s.toC == []
       case (AwaitVerdict, Decided(ok)) =>
         ok == su.Agree() && s.toP == [] && s.toC == Msg(su, VerdictFrame(ok)) + su.early[..s.spoken]
       case (Finished(_), Decided(_)) => Settled(su, s) && s.toP == [] && s.toC == su.early[..s.spoken]
       case _ => false
  }

  function ConsumerRank(c: Consumer): nat {
    match c
    case SendHello => 4
    case AwaitNonce => 3
    case SendProof(_) => 2
    case AwaitVerdict => 1
    case Finished(_) => 0
  }

  function ProviderRank(p: Provider): nat {
    match p
    case Listen => 5
    case AwaitHello => 4
    case SendNonce => 3
    case AwaitProof => 2
    case SendVerdict(_) => 1
    case Decided(_) => 0
    case BailedOut => 0
  }

  function Rank(su: Setup, s: Direct): nat {
    ConsumerRank(s.c) + ProviderRank(s.p) + if s.spoken <= |su.early| then |su.early| - s.spoken else 0
  }

  /** How much can be on its way to a consumer that is still in the handshake. */
  lemma ReplyIsShort(su: Setup, s: Direct)
    requires su.Valid() && OnTrack(su, s) && !s.c.Finished?
    ensures |s.toC| <= LONGEST_MESSAGE || (su.Agree() && |s.toC| <= ACCEPTANCE + |su.early|)
  {
    MsgReadsAlone(su, AuthNonce(su.nonce));
    MsgReadsAlone(su, VerdictFrame(su.Agree()));
  }

  /** The consumer's proof for the nonce of this handshake. */
  function ProofFrame(su: Setup): Frame {
    AuthProof(Auth.ComputeProof(su.mac, su.consumerSecret, su.service, su.nonce))
  }

  lemma HelloIsTaken(su: Setup, inbox: Bytes)
    requires FrameReady(inbox) && ReadFrame(su.json, inbox) == Read(Ok(AuthHello), [])
    ensures ProviderMove(su, Listen, inbox) == Go(AwaitHello, inbox, [])
    ensures ProviderMove(su, AwaitHello, inbox) == Go(SendNonce, [], [])
  {
  }

  lemma NonceIsTaken(su: Setup, inbox: Bytes)
    requires FrameReady(inbox) && ReadFrame(su.json, inbox) == Read(Ok(AuthNonce(su.nonce)), [])
    ensures ConsumerMove(su, AwaitNonce, inbox) == Go(SendProof(su.nonce), [], [])
  {
  }

  lemma ProofIsTaken(su: Setup, inbox: Bytes)
    requires FrameReady(inbox) && ReadFrame(su.json, inbox) == Read(Ok(ProofFrame(su)), [])
    ensures ProviderMove(su, AwaitProof, inbox) == Go(SendVerdict(su.Agree()), [], [])
  {
  }

  /** What each waiting side does with the message it waits for. */
  lemma HelloMoves(su: Setup, inbox: Bytes)
    requires su.Valid() && inbox == Msg(su, AuthHello)
    ensures 3 <= |inbox| <= LONGEST_MESSAGE
    ensures ProviderMove(su, Listen, inbox) == Go(AwaitHello, inbox, [])
    ensures ProviderMove(su, AwaitHello, inbox) == Go(SendNonce, [], [])
  {
    MsgReadsAlone(su, AuthHello);
    HelloIsTaken(su, inbox);
  }

  lemma NonceMoves(su: Setup, inbox: Bytes)
    requires su.Valid() && inbox == Msg(su, AuthNonce(su.nonce))
    ensures |inbox| == LONGEST_MESSAGE
    ensures ConsumerMove(su, AwaitNonce, inbox) == Go(SendProof(su.nonce), [], [])
  {
    MsgReadsAlone(su, AuthNonce(su.nonce));
    NonceIsTaken(su, inbox);
  }

  lemma ProofMoves(su: Setup, inbox: Bytes)
    requires su.Valid() && inbox == Msg(su, ProofFrame(su))
    ensures 3 <= |inbox| <= LONGEST_MESSAGE
    ensures ProviderMove(su, AwaitProof, inbox) == Go(SendVerdict(su.Agree()), [], [])
  {
    MsgReadsAlone(su, ProofFrame(su));
    ProofIsTaken(su, inbox);
  }

  lemma NonceIsThere(su: Setup, s: Direct)
    requires OnTrack(su, s) && s.c.AwaitNonce? && CanTake(su, s, ConsumerTurn)
    ensures s.p.AwaitProof? && s.toP == [] && s.toC == Msg(su, AuthNonce(su.nonce)) && s.spoken == 0
  {
  }

  lemma ConsumerReadsNonce(su: Setup, s: Direct)
    requires su.Valid() && OnTrack(su, s) && s.c.AwaitNonce? && CanTake(su, s, ConsumerTurn)
    ensures Take(su, s, ConsumerTurn) == Direct(SendProof(su.nonce), AwaitProof, [], [], 0) && s.p.AwaitProof?
  {
    NonceIsThere(su, s);
    NonceMoves(su, s.toC);
  }

  lemma VerdictIsTaken(su: Setup, inbox: Bytes, ok: bool, rest: Bytes)
    requires FrameReady(inbox) && ReadFrame(su.json, inbox) == Read(Ok(VerdictFrame(ok)), rest)
    ensures ConsumerMove(su, AwaitVerdict, inbox) == Go(Finished(if ok then Accepted else Denied), rest, [])
  {
  }

  lemma VerdictIsThere(su: Setup, s: Direct)
    requires OnTrack(su, s) && s.c.AwaitVerdict? && CanTake(su, s, ConsumerTurn)
    ensures s.p == Decided(su.Agree()) && s.toP == [] && s.spoken <= |su.early|
    ensures s.toC == Msg(su, VerdictFrame(su.Agree())) + su.early[..s.spoken]
  {
  }

  lemma ConsumerReadsVerdict(su: Setup, s: Direct)
    requires su.Valid() && OnTrack(su, s) && s.c.AwaitVerdict? && CanTake(su, s, ConsumerTurn)
    ensures s.spoken <= |su.early| && s.p.Decided?
    ensures Take(su, s, ConsumerTurn) ==
      Direct(Finished(if su.Agree() then Accepted else Denied), Decided(su.Agree()), [], su.early[..s.spoken], s.spoken)
  {
    VerdictIsThere(su, s);
    MsgReads(su, VerdictFrame(su.Agree()), su.early[..s.spoken]);
    VerdictIsTaken(su, s.toC, su.Agree(), su.early[..s.spoken]);
  }

  lemma ConsumerStep(su: Setup, s: Direct)
    requires su.Valid() && su.sendsHello && OnTrack(su, s) && CanTake(su, s, ConsumerTurn)
    ensures OnTrack(su, Take(su, s, ConsumerTurn)) && Rank(su, Take(su, s, ConsumerTurn)) < Rank(su, s)
  {
    if s.c.AwaitNonce? {
      ConsumerReadsNonce(su, s);
    } else if s.c.AwaitVerdict? {
      ConsumerReadsVerdict(su, s);
    } else {
      var sent := ConsumerMove(su, s.c, s.toC).sent;
      assert [] + sent == sent;
    }
  }

  lemma ProofIsThere(su: Setup, s: Direct)
    requires OnTrack(su, s) && s.p.AwaitProof? && CanTake(su, s, ProviderTurn)
    ensures s.c.AwaitVerdict? && s.toP == Msg(su, ProofFrame(su)) && s.toC == [] && s.spoken == 0
  {
  }

  lemma ProviderReadsProof(su: Setup, s: Direct)
    requires su.Valid() && OnTrack(su, s) && s.p.AwaitProof? && CanTake(su, s, ProviderTurn)
    ensures s.c.AwaitVerdict? && Take(su, s, ProviderTurn) == Direct(AwaitVerdict, SendVerdict(su.Agree()), [], [], 0)
  {
    ProofIsThere(su, s);
    ProofMoves(su, s.toP);
  }

  lemma HelloIsThere(su: Setup, s: Direct)
    requires OnTrack(su, s) && (s.p.Listen? || s.p.AwaitHello?) && CanTake(su, s, ProviderTurn)
    ensures s.c.AwaitNonce? && s.toP == Msg(su, AuthHello) && s.toC == [] && s.spoken == 0
  {
  }

  lemma ProviderHearsHello(su: Setup, s: Direct)
    requires su.Valid() && OnTrack(su, s) && s.p.Listen? && CanTake(su, s, ProviderTurn)
    ensures s.c.AwaitNonce? && Take(su, s, ProviderTurn) == Direct(AwaitNonce, AwaitHello, s.toP, [], 0)
  {
    HelloIsThere(su, s);
    HelloMoves(su, s.toP);
  }

  lemma ProviderReadsHello(su: Setup, s: Direct)
    requires su.Valid() && OnTrack(su, s) && s.p.AwaitHello? && CanTake(su, s, ProviderTurn)
    ensures s.c.AwaitNonce? && Take(su, s, ProviderTurn) == Direct(AwaitNonce, SendNonce, [], [], 0)
  {
    HelloIsThere(su, s);
    HelloMoves(su, s.toP);
  }

  lemma ProviderWrites(su: Setup, s: Direct)
    requires OnTrack(su, s) && CanTake(su, s, ProviderTurn) && (s.p.SendNonce? || s.p.SendVerdict?)
    ensures OnTrack(su, Take(su, s, ProviderTurn)) && Rank(su, Take(su, s, ProviderTurn)) < Rank(su, s)
  {
    var sent := ProviderMove(su, s.p, s.toP).sent;
    assert [] + sent == sent == sent + su.early[..0];
  }

  lemma ProviderStep(su: Setup, s: Direct)
    requires su.Valid() && OnTrack(su, s) && CanTake(su, s, ProviderTurn)
    ensures OnTrack(su, Take(su, s, ProviderTurn)) && Rank(su, Take(su, s, ProviderTurn)) < Rank(su, s)
  {
    if s.p.SendNonce? || s.p.SendVerdict? {
      ProviderWrites(su, s);
    } else if s.p.AwaitProof? {
      ProviderReadsProof(su, s);
    } else if s.p.Listen? {
      HelloIsThere(su, s);
      ProviderHearsHello(su, s);
    } else {
      ProviderReadsHello(su, s);
    }
  }

  lemma SpeakOn(early: Bytes, a: nat, n: nat, before: Bytes)
    requires a + n <= |early|
    ensures before + early[..a] + early[a..a + n] == before + early[..a + n]
    ensures early[..a] + early[a..a + n] == early[..a + n]
  {
  }

  lemma BackendStep(su: Setup, s: Direct, n: nat)
    requires OnTrack(su, s) && CanTake(su, s, BackendTurn(n))
    ensures OnTrack(su, Take(su, s, BackendTurn(n))) && Rank(su, Take(su, s, BackendTurn(n))) < Rank(su, s)
  {
    SpeakOn(su.early, s.spoken, n, Msg(su, VerdictFrame(true)));
  }

  lemma DirectStep(su: Setup, s: Direct, t: Turn)
    requires su.Valid() && su.sendsHello && OnTrack(su, s) && CanTake(su, s, t)
    ensures OnTrack(su, Take(su, s, t)) && Rank(su, Take(su, s, t)) < Rank(su, s)
  {
    match t
    case ConsumerTurn => ConsumerStep(su, s);
    case ProviderTurn => ProviderStep(su, s);
    case BackendTurn(n) => BackendStep(su, s, n);
  }

  lemma VerdictMakesProgress(su: Setup, s: Direct)
    requires su.Valid() && OnTrack(su, s) && s.c.AwaitVerdict? && s.p.Decided?
    ensures CanTake(su, s, ConsumerTurn)
  {
    MsgReads(su, VerdictFrame(su.Agree()), su.early[..s.spoken]);
    VerdictIsTaken(su, s.toC, su.Agree(), su.early[..s.spoken]);
  }

  lemma MessageMakesProgress(su: Setup, s: Direct)
    requires su.Valid() && OnTrack(su, s)
    ensures s.c.AwaitNonce? && (s.p.Listen? || s.p.AwaitHello?) ==> CanTake(su, s, ProviderTurn)
    ensures s.c.AwaitNonce? && s.p.AwaitProof? ==> CanTake(su, s, ConsumerTurn)
    ensures s.c.AwaitVerdict? && s.p.AwaitProof? ==> CanTake(su, s, ProviderTurn)
  {
    if s.c.AwaitNonce? && (s.p.Listen? || s.p.AwaitHello?) {
      HelloMoves(su, s.toP);
    } else if s.c.AwaitNonce? && s.p.AwaitProof? {
      NonceMoves(su, s.toC);
    } else if s.c.AwaitVerdict? && s.p.AwaitProof? {
      ProofMoves(su, s.toP);
    }
  }

  lemma DirectProgress(su: Setup, s: Direct)
    requires su.Valid() && OnTrack(su, s)
    ensures Settled(su, s) || CanTake(su, s, ConsumerTurn) || CanTake(su, s, ProviderTurn)
  {
    if s.c.AwaitVerdict? && s.p.Decided? {
      VerdictMakesProgress(su, s);
    } else {
      MessageMakesProgress(su, s);
    }
  }

  /** `turns` is a schedule of enabled turns from the start. */
  predicate IsDirectRun(su: Setup, turns: seq<Turn>)
    decreases |turns|, 0
  {
    turns != [] ==>
      var before := turns[..|turns| - 1];
      IsDirectRun(su, before) && CanTake(su, DirectRun(su, before), turns[|turns| - 1])
  }

  function DirectRun(su: Setup, turns: seq<Turn>): Direct
    requires IsDirectRun(su, turns)
    decreases |turns|, 1
  {
    if turns == [] then DirectStart
    else Take(su, DirectRun(su, turns[..|turns| - 1]), turns[|turns| - 1])
  }

  lemma {:induction false} DirectRunOnTrack(su: Setup, turns: seq<Turn>)
    requires su.Valid() && su.sendsHello && IsDirectRun(su, turns)
    ensures OnTrack(su, DirectRun(su, turns)) && Rank(su, DirectRun(su, turns)) + |turns| <= Rank(su, DirectStart)
  {
    if turns != [] {
      var before := turns[..|turns| - 1];
      DirectRunOnTrack(su, before);
      DirectStep(su, DirectRun(su, before), turns[|turns| - 1]);
    }
  }

  /** Every run is at most nine turns long, besides those of the backend, and one that cannot go on has settled. */
  lemma DirectHandshakeSettles(su: Setup, turns: seq<Turn>)
    requires su.Valid() && su.sendsHello && IsDirectRun(su, turns)
    ensures |turns| <= 9 + |su.early|
    ensures
      var last := DirectRun(su, turns);
      Settled(su, last) || CanTake(su, last, ConsumerTurn) || CanTake(su, last, ProviderTurn)
  {
    DirectRunOnTrack(su, turns);
    DirectProgress(su, DirectRun(su, turns));
  }

  /** Without the hello the consumer waits for a nonce on a stream that the provider cannot see. */
  lemma WithoutHelloDirectIsStuck(su: Setup)
    requires !su.sendsHello
    ensures IsDirectRun(su, [ConsumerTurn])
    ensures
      var last := DirectRun(su, [ConsumerTurn]);
      (forall t :: !CanTake(su, last, t)) && !Settled(su, last)
  {
    assert [ConsumerTurn][..0] == [];
    assert IsDirectRun(su, []) && DirectRun(su, []) == DirectStart;
  }
}
