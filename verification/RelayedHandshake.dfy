/**
 The same handshake with the server's relay in the middle: the consumer names its
 target in a `DataOpen` frame, and from then on the relay copies bytes between
 two streams in chunks of its own choosing, the reply direction through the
 rate limiter.
 */
module RelayedHandshake {
  import opened Bytes
  import opened Options
  import opened Frames
  import opened Handshake
  import opened Numbers
  import Auth = Authentication
  import RateLimit

  /** `rate` is the reply limit of this tunnel, `None` when the limiter is off. */
  datatype Tunnel = Tunnel(su: Setup, open: Frame, rate: Option<nat>) {
    ghost predicate Valid() {
      su.Valid() && open.DataOpen? && Writable(su.json, open)
    }

    function OpenBytes(): Bytes {
      Msg(su, open)
    }

    /**
     The largest reply chunk that can hold back a part of the handshake: the whole nonce
     frame, or an acceptance with as many early bytes of the backend behind it as
     one read takes.
     */
    function LargestChunk(): nat {
      if su.Agree() then Max(LONGEST_MESSAGE, Min(RateLimit.BUFFER, ACCEPTANCE + |su.early|)) else LONGEST_MESSAGE
    }

    /** A reply chunk of this size gets through the limiter. */
    predicate Passes(n: nat) {
      rate.None? || RateLimit.Admits(rate.value, n)
    }
  }

  datatype Relay = AwaitStream | AwaitOpen | Connecting | Copying | Refused

  const REQUEST_BUFFER := 8 * 1024

  /**
   `c2r`, `r2p`, `p2r` and `r2c` are the bytes in flight on the four channels;
   `req` and `rep` are the chunks the relay has read and not yet written, `spoken`
   counts the early bytes of the backend.
   */
  datatype Relayed = Relayed(
    begun: bool, c: Consumer, relay: Relay, p: Provider,
    c2r: Bytes, req: Bytes, r2p: Bytes,
    p2r: Bytes, rep: Bytes, r2c: Bytes, spoken: nat)

  const RelayedStart := Relayed(false, SendHello, AwaitStream, Listen, [], [], [], [], [], [], 0)

  datatype Action =
    | WriteOpen
    | ConsumerGo
    | ProviderGo
    | BackendGo(n: nat)
    | AcceptStream
    | ReadOpen
    | Connect
    | ReadRequest(n: nat)
    | WriteRequest
    | ReadReply(n: nat)
    | WriteReply

  predicate Can(tn: Tunnel, s: Relayed, a: Action) {
    match a
    case WriteOpen => !s.begun
    case ConsumerGo => s.begun && ConsumerMove(tn.su, s.c, s.r2c).Go?
    case ProviderGo => ProviderMove(tn.su, s.p, s.r2p).Go?
    case BackendGo(n) => s.p == Decided(true) && 0 < n && s.spoken + n <= |tn.su.early|
    case AcceptStream => s.relay.AwaitStream? && s.c2r != []
    case ReadOpen => s.relay.AwaitOpen? && FrameReady(s.c2r)
    case Connect => s.relay.Connecting?
    case ReadRequest(n) => s.relay.Copying? && s.req == [] && 0 < n <= |s.c2r| && n <= REQUEST_BUFFER
    case WriteRequest => s.relay.Copying? && s.req != []
    case ReadReply(n) => s.relay.Copying? && s.rep == [] && 0 < n <= |s.p2r| && n <= RateLimit.BUFFER
    case WriteReply => s.relay.Copying? && s.rep != [] && tn.Passes(|s.rep|)
  }

  function Do(tn: Tunnel, s: Relayed, a: Action): Relayed
    requires Can(tn, s, a)
  {
    match a
    case WriteOpen => s.(begun := true, c2r := s.c2r + tn.OpenBytes())
    case ConsumerGo =>
      var m := ConsumerMove(tn.su, s.c, s.r2c);
      s.(c := m.next, r2c := m.inbox, c2r := s.c2r + m.sent)
    case ProviderGo =>
      var m := ProviderMove(tn.su, s.p, s.r2p);
      s.(p := m.next, r2p := m.inbox, p2r := s.p2r + m.sent)
    case BackendGo(n) =>
      s.(p2r := s.p2r + tn.su.early[s.spoken..s.spoken + n], spoken := s.spoken + n)
    case AcceptStream => s.(relay := AwaitOpen)
    case ReadOpen =>
      var r := ReadFrame(tn.su.json, s.c2r);
      s.(relay := if r.out.Ok? && r.out.value.DataOpen? then Connecting else Refused, c2r := r.rest)
    case Connect => s.(relay := Copying)
    case ReadRequest(n) => s.(req := s.c2r[..n], c2r := s.c2r[n..])
    case WriteRequest => s.(r2p := s.r2p + s.req, req := [])
    case ReadReply(n) => s.(rep := s.p2r[..n], p2r := s.p2r[n..])
    case WriteReply => s.(r2c := s.r2c + s.rep, rep := [])
  }

  // ---------------------------------------------------------------------
  // Refinement of the direct system
  // ---------------------------------------------------------------------

  /** What the consumer has queued for the provider behind its `DataOpen`. */
  function Queued(tn: Tunnel, s: Relayed): Bytes {
    if (s.relay.AwaitStream? || s.relay.AwaitOpen?) && s.begun && |tn.OpenBytes()| <= |s.c2r|
    then s.c2r[|tn.OpenBytes()|..]
    else s.c2r
  }

  /** The direct state that a relayed state stands for: the relay's buffers are part of the channels. */
  function View(tn: Tunnel, s: Relayed): Direct {
    Direct(s.c, s.p, s.r2p + (s.req + Queued(tn, s)), s.r2c + (s.rep + s.p2r), s.spoken)
  }

  ghost predicate RelayPhase(tn: Tunnel, s: Relayed) {
    && !s.relay.Refused? && |s.rep| <= RateLimit.BUFFER
    && (!s.begun ==> s.relay.AwaitStream? && s.c == SendHello && s.c2r == [])
    && ((s.relay.AwaitStream? || s.relay.AwaitOpen?) && s.begun ==> tn.OpenBytes() <= s.c2r)
    && (!s.relay.Copying? ==>
          s.p == Listen && s.req == [] && s.r2p == [] && s.p2r == [] && s.rep == [] && s.r2c == [])
  }

  ghost predicate Inv(tn: Tunnel, s: Relayed) {
    RelayPhase(tn, s) && OnTrack(tn.su, View(tn, s))
  }

  /** The direct system makes no move, or one move. */
  ghost predicate Simulates(su: Setup, d: Direct, d': Direct) {
    d' == d || exists t :: CanTake(su, d, t) && d' == Take(su, d, t)
  }

  function RelayRank(r: Relay): nat {
    match r
    case AwaitStream => 3
    case AwaitOpen => 2
    case Connecting => 1
    case Copying => 0
    case Refused => 0
  }

  /** Turns left for the two programs, then bytes the relay still has to move. */
  function Measure(tn: Tunnel, s: Relayed): nat {
    100 * Rank(tn.su, View(tn, s)) + (if s.begun then 0 else 2 * |tn.OpenBytes()| + 1) + RelayRank(s.relay)
    + 2 * |s.c2r| + |s.req| + 2 * |s.p2r| + |s.rep|
  }

  lemma OpenReads(tn: Tunnel, tail: Bytes)
    requires tn.Valid()
    ensures |tn.OpenBytes()| >= 3
    ensures FrameReady(tn.OpenBytes() + tail)
    ensures ReadFrame(tn.su.json, tn.OpenBytes() + tail) == Read(Ok(tn.open), tail)
  {
    FrameRoundTrip(tn.su.json, tn.open, tail);
    StrictPrefixFree(tn, tail);
  }

  lemma StrictPrefixFree(tn: Tunnel, tail: Bytes)
    requires tn.Valid()
    ensures |tn.OpenBytes()| >= 3 && FrameReady(tn.OpenBytes() + tail)
  {
    var payload := EncodePayload(tn.su.json, tn.open).value;
    var s := tn.OpenBytes() + tail;
    LengthReadsBack(|payload|);
    assert s[1..3] == U16LE(|payload|);
    assert s[1] == s[1..3][0] && s[2] == s[1..3][1];
  }

  lemma ConsumerSendsLittle(su: Setup, c: Consumer, inbox: Bytes)
    requires su.Valid() && ConsumerMove(su, c, inbox).Go?
    ensures |ConsumerMove(su, c, inbox).sent| <= LONGEST_MESSAGE
  {
    if c.SendHello? {
      MsgReadsAlone(su, AuthHello);
    } else if c.SendProof? {
      MsgReadsAlone(su, AuthProof(Auth.ComputeProof(su.mac, su.consumerSecret, su.service, c.nonce)));
    }
  }

  lemma ProviderSendsLittle(su: Setup, p: Provider, inbox: Bytes)
    requires su.Valid() && ProviderMove(su, p, inbox).Go?
    ensures |ProviderMove(su, p, inbox).sent| <= LONGEST_MESSAGE
  {
    if p.SendNonce? {
      MsgReadsAlone(su, AuthNonce(su.nonce));
    } else if p.SendVerdict? {
      MsgReadsAlone(su, VerdictFrame(p.ok));
    }
  }

  lemma ConsumerGoesDirect(tn: Tunnel, s: Relayed)
    requires RelayPhase(tn, s) && Can(tn, s, ConsumerGo)
    ensures
      var s' := Do(tn, s, ConsumerGo);
      var d := View(tn, s);
      && RelayPhase(tn, s')
      && CanTake(tn.su, d, ConsumerTurn) && View(tn, s') == Take(tn.su, d, ConsumerTurn)
  {
    var s' := Do(tn, s, ConsumerGo);
    var m := ConsumerMove(tn.su, s.c, s.r2c);
    ConsumerIgnoresLaterBytes(tn.su, s.c, s.r2c, s.rep + s.p2r);
    assert Queued(tn, s') == Queued(tn, s) + m.sent;
    assert s.r2p + (s.req + (Queued(tn, s) + m.sent)) == s.r2p + (s.req + Queued(tn, s)) + m.sent;
  }

  lemma ConsumerRefines(tn: Tunnel, s: Relayed)
    requires tn.Valid() && tn.su.sendsHello && Inv(tn, s) && Can(tn, s, ConsumerGo)
    ensures
      var s' := Do(tn, s, ConsumerGo);
      Inv(tn, s') && Simulates(tn.su, View(tn, s), View(tn, s')) && Measure(tn, s') < Measure(tn, s)
  {
    ConsumerGoesDirect(tn, s);
    DirectStep(tn.su, View(tn, s), ConsumerTurn);
    ConsumerSendsLittle(tn.su, s.c, s.r2c);
  }

  lemma ProviderGoesDirect(tn: Tunnel, s: Relayed)
    requires RelayPhase(tn, s) && Can(tn, s, ProviderGo)
    ensures
      var s' := Do(tn, s, ProviderGo);
      var d := View(tn, s);
      && RelayPhase(tn, s')
      && CanTake(tn.su, d, ProviderTurn) && View(tn, s') == Take(tn.su, d, ProviderTurn)
  {
    var m := ProviderMove(tn.su, s.p, s.r2p);
    ProviderIgnoresLaterBytes(tn.su, s.p, s.r2p, s.req + Queued(tn, s));
    assert s.r2c + (s.rep + (s.p2r + m.sent)) == s.r2c + (s.rep + s.p2r) + m.sent;
  }

  lemma ProviderRefines(tn: Tunnel, s: Relayed)
    requires tn.Valid() && tn.su.sendsHello && Inv(tn, s) && Can(tn, s, ProviderGo)
    ensures
      var s' := Do(tn, s, ProviderGo);
      Inv(tn, s') && Simulates(tn.su, View(tn, s), View(tn, s')) && Measure(tn, s') < Measure(tn, s)
  {
    ProviderGoesDirect(tn, s);
    DirectStep(tn.su, View(tn, s), ProviderTurn);
    ProviderSendsLittle(tn.su, s.p, s.r2p);
  }

  lemma BackendGoesDirect(tn: Tunnel, s: Relayed, n: nat)
    requires RelayPhase(tn, s) && Can(tn, s, BackendGo(n))
    ensures
      var s' := Do(tn, s, BackendGo(n));
      var d := View(tn, s);
      && RelayPhase(tn, s')
      && CanTake(tn.su, d, BackendTurn(n)) && View(tn, s') == Take(tn.su, d, BackendTurn(n))
  {
    var e := tn.su.early[s.spoken..s.spoken + n];
    assert s.r2c + (s.rep + (s.p2r + e)) == s.r2c + (s.rep + s.p2r) + e;
  }

  lemma BackendRefines(tn: Tunnel, s: Relayed, n: nat)
    requires tn.Valid() && tn.su.sendsHello && Inv(tn, s) && Can(tn, s, BackendGo(n))
    ensures
      var s' := Do(tn, s, BackendGo(n));
      Inv(tn, s') && Simulates(tn.su, View(tn, s), View(tn, s')) && Measure(tn, s') < Measure(tn, s)
  {
    BackendGoesDirect(tn, s, n);
    DirectStep(tn.su, View(tn, s), BackendTurn(n));
    BackendLowersMeasure(tn, s, n);
  }

  lemma BackendLowersMeasure(tn: Tunnel, s: Relayed, n: nat)
    requires Can(tn, s, BackendGo(n))
    ensures Measure(tn, Do(tn, s, BackendGo(n))) < Measure(tn, s)
  {
  }

  lemma ReadOpenKeepsView(tn: Tunnel, s: Relayed)
    requires tn.Valid() && RelayPhase(tn, s) && s.begun && Can(tn, s, ReadOpen)
    ensures
      var s' := Do(tn, s, ReadOpen);
      && s' == s.(relay := Connecting, c2r := s.c2r[|tn.OpenBytes()|..])
      && View(tn, s') == View(tn, s)
  {
    var tail := s.c2r[|tn.OpenBytes()|..];
    assert s.c2r == tn.OpenBytes() + tail;
    OpenReads(tn, tail);
  }

  lemma SetupKeepsView(tn: Tunnel, s: Relayed, a: Action)
    requires tn.Valid() && RelayPhase(tn, s) && Can(tn, s, a)
    requires a.WriteOpen? || a.AcceptStream? || a.Connect?
    ensures RelayPhase(tn, Do(tn, s, a)) && View(tn, Do(tn, s, a)) == View(tn, s)
  {
    if a.WriteOpen? {
      assert [] + tn.OpenBytes() == tn.OpenBytes();
    }
  }

  /** Setting up the tunnel does not move the direct system. */
  lemma SetupRefines(tn: Tunnel, s: Relayed, a: Action)
    requires tn.Valid() && Inv(tn, s) && Can(tn, s, a)
    requires a.WriteOpen? || a.AcceptStream? || a.ReadOpen? || a.Connect?
    ensures
      var s' := Do(tn, s, a);
      Inv(tn, s') && View(tn, s') == View(tn, s) && Measure(tn, s') < Measure(tn, s)
  {
    if a.ReadOpen? {
      ReadOpenKeepsView(tn, s);
    } else {
      SetupKeepsView(tn, s, a);
    }
  }

  lemma CopyKeepsView(tn: Tunnel, s: Relayed, a: Action)
    requires Can(tn, s, a)
    requires a.ReadRequest? || a.WriteRequest? || a.ReadReply? || a.WriteReply?
    ensures View(tn, Do(tn, s, a)) == View(tn, s)
  {
    match a {
      case ReadRequest(n) =>
        assert s.r2p + (s.c2r[..n] + s.c2r[n..]) == s.r2p + ([] + s.c2r);
      case WriteRequest =>
        assert s.r2p + s.req + ([] + s.c2r) == s.r2p + (s.req + s.c2r);
      case ReadReply(n) =>
        assert s.r2c + (s.p2r[..n] + s.p2r[n..]) == s.r2c + ([] + s.p2r);
      case WriteReply =>
        assert s.r2c + s.rep + ([] + s.p2r) == s.r2c + (s.rep + s.p2r);
    }
  }

  /** Neither does moving bytes through the relay, in any chunks. */
  lemma CopyRefines(tn: Tunnel, s: Relayed, a: Action)
    requires tn.Valid() && Inv(tn, s) && Can(tn, s, a)
    requires a.ReadRequest? || a.WriteRequest? || a.ReadReply? || a.WriteReply?
    ensures
      var s' := Do(tn, s, a);
      Inv(tn, s') && View(tn, s') == View(tn, s) && Measure(tn, s') < Measure(tn, s)
  {
    CopyKeepsView(tn, s, a);
  }

  lemma StepRefines(tn: Tunnel, s: Relayed, a: Action)
    requires tn.Valid() && tn.su.sendsHello && Inv(tn, s) && Can(tn, s, a)
    ensures
      var s' := Do(tn, s, a);
      Inv(tn, s') && Simulates(tn.su, View(tn, s), View(tn, s')) && Measure(tn, s') < Measure(tn, s)
  {
    match a {
      case ConsumerGo => ConsumerRefines(tn, s);
      case ProviderGo => ProviderRefines(tn, s);
      case BackendGo(n) => BackendRefines(tn, s, n);
      case WriteOpen => SetupRefines(tn, s, a);
      case AcceptStream => SetupRefines(tn, s, a);
      case ReadOpen => SetupRefines(tn, s, a);
      case Connect => SetupRefines(tn, s, a);
      case _ => CopyRefines(tn, s, a);
    }
  }

  // ---------------------------------------------------------------------
  // Runs
  // ---------------------------------------------------------------------

  predicate IsRun(tn: Tunnel, acts: seq<Action>)
    decreases |acts|, 0
  {
    acts != [] ==>
      var before := acts[..|acts| - 1];
      IsRun(tn, before) && Can(tn, Run(tn, before), acts[|acts| - 1])
  }

  function Run(tn: Tunnel, acts: seq<Action>): Relayed
    requires IsRun(tn, acts)
    decreases |acts|, 1
  {
    if acts == [] then RelayedStart
    else Do(tn, Run(tn, acts[..|acts| - 1]), acts[|acts| - 1])
  }

  lemma ExtendDirect(su: Setup, turns: seq<Turn>, d': Direct) returns (more: seq<Turn>)
    requires IsDirectRun(su, turns) && Simulates(su, DirectRun(su, turns), d')
    ensures IsDirectRun(su, more) && DirectRun(su, more) == d'
  {
    var d := DirectRun(su, turns);
    if d' == d {
      more := turns;
    } else {
      var t :| CanTake(su, d, t) && d' == Take(su, d, t);
      more := turns + [t];
      assert more[..|turns|] == turns;
    }
  }

  /** Every relayed run is a direct run seen through `View`, and uses up its measure. */
  lemma {:induction false} RunRefinesDirect(tn: Tunnel, acts: seq<Action>) returns (turns: seq<Turn>)
    requires tn.Valid() && tn.su.sendsHello && IsRun(tn, acts)
    ensures Inv(tn, Run(tn, acts))
    ensures Measure(tn, Run(tn, acts)) + |acts| <= Measure(tn, RelayedStart)
    ensures IsDirectRun(tn.su, turns) && DirectRun(tn.su, turns) == View(tn, Run(tn, acts))
    decreases |acts|
  {
    if acts == [] {
      turns := [];
    } else {
      var before := acts[..|acts| - 1];
      var s, a := Run(tn, before), acts[|acts| - 1];
      turns := RunRefinesDirect(tn, before);
      StepRefines(tn, s, a);
      turns := ExtendDirect(tn.su, turns, View(tn, Do(tn, s, a)));
    }
  }

  ghost predicate Reachable(tn: Tunnel, s: Relayed) {
    exists acts :: IsRun(tn, acts) && Run(tn, acts) == s
  }

  ghost predicate Stuck(tn: Tunnel, s: Relayed) {
    forall a :: !Can(tn, s, a)
  }

  lemma ReachStart(tn: Tunnel)
    ensures Reachable(tn, RelayedStart)
  {
    assert IsRun(tn, []) && Run(tn, []) == RelayedStart;
  }

  lemma ReachNext(tn: Tunnel, s: Relayed, a: Action, s': Relayed)
    requires Reachable(tn, s) && Can(tn, s, a) && s' == Do(tn, s, a)
    ensures Reachable(tn, s')
  {
    var acts :| IsRun(tn, acts) && Run(tn, acts) == s;
    assert (acts + [a])[..|acts|] == acts;
    assert IsRun(tn, acts + [a]) && Run(tn, acts + [a]) == Do(tn, s, a);
  }

  // ---------------------------------------------------------------------
  // Progress
  // ---------------------------------------------------------------------

  /** Limits that let any chunk of this handshake through. */
  predicate RateLetsHandshakeThrough(tn: Tunnel) {
    tn.rate.None? || tn.rate.value == 0 || tn.rate.value >= tn.LargestChunk()
  }

  /** When the relay holds nothing, the direct system's next move is also the relayed one's. */
  lemma EmptyRelayProgress(tn: Tunnel, s: Relayed)
    requires tn.Valid() && Inv(tn, s) && s.relay.Copying? && s.begun
    requires s.c2r == [] && s.req == [] && s.p2r == [] && s.rep == []
    ensures Settled(tn.su, View(tn, s)) || Can(tn, s, ConsumerGo) || Can(tn, s, ProviderGo)
  {
    var d := View(tn, s);
    assert d.toP == s.r2p && d.toC == s.r2c;
    DirectProgress(tn.su, d);
  }

  /** Before the verdict has arrived, a reply chunk is never longer than the largest one. */
  lemma ReplyChunkPasses(tn: Tunnel, s: Relayed)
    requires tn.Valid() && Inv(tn, s) && RateLetsHandshakeThrough(tn) && s.relay.Copying? && s.rep != []
    requires !s.c.Finished?
    ensures Can(tn, s, WriteReply)
  {
    ReplyIsShort(tn.su, View(tn, s));
    assert |s.rep| <= |View(tn, s).toC|;
  }

  lemma FinishedIsSettled(su: Setup, d: Direct)
    requires OnTrack(su, d) && d.c.Finished?
    ensures Settled(su, d)
  {
  }

  lemma OpenIsReady(tn: Tunnel, s: Relayed)
    requires tn.Valid() && RelayPhase(tn, s) && s.begun
    ensures s.relay.AwaitStream? ==> Can(tn, s, AcceptStream)
    ensures s.relay.AwaitOpen? ==> Can(tn, s, ReadOpen)
  {
    if s.relay.AwaitStream? || s.relay.AwaitOpen? {
      var tail := s.c2r[|tn.OpenBytes()|..];
      assert s.c2r == tn.OpenBytes() + tail;
      OpenReads(tn, tail);
    }
  }

  lemma RelayedProgress(tn: Tunnel, s: Relayed)
    requires tn.Valid() && Inv(tn, s) && RateLetsHandshakeThrough(tn)
    ensures Settled(tn.su, View(tn, s)) || !Stuck(tn, s)
  {
    if !s.begun {
      assert Can(tn, s, WriteOpen);
    } else if s.relay.AwaitStream? || s.relay.AwaitOpen? {
      OpenIsReady(tn, s);
      assert Can(tn, s, AcceptStream) || Can(tn, s, ReadOpen);
    } else if s.relay.Connecting? {
      assert Can(tn, s, Connect);
    } else if s.req != [] {
      assert Can(tn, s, WriteRequest);
    } else if s.rep != [] {
      if s.c.Finished? {
        FinishedIsSettled(tn.su, View(tn, s));
      } else {
        ReplyChunkPasses(tn, s);
      }
    } else if s.c2r != [] {
      assert Can(tn, s, ReadRequest(1));
    } else if s.p2r != [] {
      assert Can(tn, s, ReadReply(1));
    } else {
      EmptyRelayProgress(tn, s);
    }
  }

  /**
   With the limiter off, unlimited, or at a rate of at least the largest chunk, every
   run of honest parties is finite, and one that cannot go on has settled on the
   verdict that the same secrets, service and nonce give without the relay.
   */
  lemma RelayedHandshakeSettles(tn: Tunnel, acts: seq<Action>)
    requires tn.Valid() && tn.su.sendsHello && RateLetsHandshakeThrough(tn) && IsRun(tn, acts)
    ensures |acts| <= Measure(tn, RelayedStart)
    ensures Settled(tn.su, View(tn, Run(tn, acts))) || !Stuck(tn, Run(tn, acts))
  {
    var _ := RunRefinesDirect(tn, acts);
    RelayedProgress(tn, Run(tn, acts));
  }

  /** The state in which the relay holds the whole nonce frame and may not forward it. */
  function Starved(tn: Tunnel): Relayed {
    Relayed(true, AwaitNonce, Copying, AwaitProof, [], [], [], [], Msg(tn.su, AuthNonce(tn.su.nonce)), [], 0)
  }

  /** A tunnel that has just been connected, with `queue` behind the `DataOpen`. */
  function Connected(tn: Tunnel, queue: Bytes): Relayed {
    Relayed(true, AwaitNonce, Copying, Listen, queue, [], [], [], [], [], 0)
  }

  lemma ConnectedReachable(tn: Tunnel)
    requires tn.Valid()
    ensures Reachable(tn, Connected(tn, if tn.su.sendsHello then Msg(tn.su, AuthHello) else []))
  {
    var o := tn.OpenBytes();
    var h := if tn.su.sendsHello then Msg(tn.su, AuthHello) else [];
    OpenReads(tn, h);
    ReachStart(tn);
    assert [] + o == o;
    var s1 := RelayedStart.(begun := true, c2r := o);
    ReachNext(tn, RelayedStart, WriteOpen, s1);
    var s2 := s1.(c := AwaitNonce, c2r := o + h);
    ReachNext(tn, s1, ConsumerGo, s2);
    var s3 := s2.(relay := AwaitOpen);
    ReachNext(tn, s2, AcceptStream, s3);
    var s4 := s3.(relay := Connecting, c2r := h);
    ReachNext(tn, s3, ReadOpen, s4);
    ReachNext(tn, s4, Connect, Connected(tn, h));
  }

  /** The relay forwards a queued request in one chunk. */
  lemma RequestForwarded(tn: Tunnel, q: Bytes)
    requires Reachable(tn, Connected(tn, q)) && 0 < |q| <= REQUEST_BUFFER
    ensures Reachable(tn, Connected(tn, []).(r2p := q))
  {
    var s0 := Connected(tn, q);
    assert q[..|q|] == q && q[|q|..] == [] && [] + q == q;
    var s1 := s0.(c2r := [], req := q);
    ReachNext(tn, s0, ReadRequest(|q|), s1);
    ReachNext(tn, s1, WriteRequest, Connected(tn, []).(r2p := q));
  }

  /** The provider writes `q` and the relay picks it up in one chunk. */
  lemma ReplyPickedUp(tn: Tunnel, s: Relayed, next: Provider, q: Bytes)
    requires Reachable(tn, s) && s.relay.Copying? && s.p2r == [] && s.rep == []
    requires ProviderMove(tn.su, s.p, s.r2p) == Go(next, s.r2p, q) && 0 < |q| <= RateLimit.BUFFER
    ensures Reachable(tn, s.(p := next, rep := q))
  {
    assert [] + q == q && q[..|q|] == q && q[|q|..] == [];
    var s1 := s.(p := next, p2r := q);
    ReachNext(tn, s, ProviderGo, s1);
    ReachNext(tn, s1, ReadReply(|q|), s.(p := next, rep := q));
  }

  lemma ProviderAdvances(tn: Tunnel, s: Relayed, next: Provider, inbox: Bytes)
    requires Reachable(tn, s) && ProviderMove(tn.su, s.p, s.r2p) == Go(next, inbox, [])
    ensures Reachable(tn, s.(p := next, r2p := inbox))
  {
    assert s.p2r + [] == s.p2r;
    ReachNext(tn, s, ProviderGo, s.(p := next, r2p := inbox));
  }

  lemma StarvedReachable(tn: Tunnel)
    requires tn.Valid() && tn.su.sendsHello
    ensures Reachable(tn, Starved(tn))
  {
    var hello := Msg(tn.su, AuthHello);
    HelloMoves(tn.su, hello);
    ConnectedReachable(tn);
    RequestForwarded(tn, hello);
    var s := Connected(tn, []);
    ProviderAdvances(tn, s.(r2p := hello), AwaitHello, hello);
    ProviderAdvances(tn, s.(p := AwaitHello, r2p := hello), SendNonce, []);
    MsgReadsAlone(tn.su, AuthNonce(tn.su.nonce));
    ReplyPickedUp(tn, s.(p := SendNonce), AwaitProof, Msg(tn.su, AuthNonce(tn.su.nonce)));
  }

  // ---------------------------------------------------------------------
  // A backend that speaks first
  // ---------------------------------------------------------------------

  lemma ConsumerAdvances(tn: Tunnel, s: Relayed, next: Consumer, inbox: Bytes, sent: Bytes)
    requires Reachable(tn, s) && s.begun && s.c2r == [] && ConsumerMove(tn.su, s.c, s.r2c) == Go(next, inbox, sent)
    ensures Reachable(tn, s.(c := next, r2c := inbox, c2r := sent))
  {
    assert [] + sent == sent;
    ReachNext(tn, s, ConsumerGo, s.(c := next, r2c := inbox, c2r := sent));
  }

  /** The relay writes a reply chunk that the rate admits. */
  lemma ReplyForwarded(tn: Tunnel, s: Relayed)
    requires Reachable(tn, s) && s.relay.Copying? && s.rep != [] && s.r2c == [] && tn.Passes(|s.rep|)
    ensures Reachable(tn, s.(r2c := s.rep, rep := []))
  {
    assert [] + s.rep == s.rep;
    ReachNext(tn, s, WriteReply, s.(r2c := s.rep, rep := []));
  }

  /** The relay moves a request to the provider in one chunk. */
  lemma RequestMoved(tn: Tunnel, s: Relayed)
    requires Reachable(tn, s) && s.relay.Copying? && s.req == [] && s.r2p == [] && 0 < |s.c2r| <= REQUEST_BUFFER
    ensures Reachable(tn, s.(c2r := [], r2p := s.c2r))
  {
    var q := s.c2r;
    assert q[..|q|] == q && q[|q|..] == [] && [] + q == q;
    ReachNext(tn, s, ReadRequest(|q|), s.(c2r := [], req := q));
    ReachNext(tn, s.(c2r := [], req := q), WriteRequest, s.(c2r := [], r2p := q));
  }

  /** The consumer has answered the nonce, and its proof is with the provider. */
  function Proved(tn: Tunnel): Relayed {
    Relayed(true, AwaitVerdict, Copying, AwaitProof, [], [], Msg(tn.su, ProofFrame(tn.su)), [], [], [], 0)
  }

  lemma NonceArrives(tn: Tunnel)
    requires tn.Valid() && Reachable(tn, Starved(tn)) && tn.Passes(LONGEST_MESSAGE)
    ensures Reachable(tn, Starved(tn).(c := SendProof(tn.su.nonce), rep := []))
  {
    var s := Starved(tn);
    NonceMoves(tn.su, s.rep);
    ReplyForwarded(tn, s);
    ConsumerAdvances(tn, s.(r2c := s.rep, rep := []), SendProof(tn.su.nonce), [], []);
  }

  lemma ProvedReachable(tn: Tunnel)
    requires tn.Valid() && tn.su.sendsHello && tn.Passes(LONGEST_MESSAGE)
    ensures Reachable(tn, Proved(tn))
  {
    StarvedReachable(tn);
    NonceArrives(tn);
    var s := Starved(tn).(c := SendProof(tn.su.nonce), rep := []);
    var proof := Msg(tn.su, ProofFrame(tn.su));
    ConsumerAdvances(tn, s, AwaitVerdict, [], proof);
    ProofMoves(tn.su, proof);
    RequestMoved(tn, s.(c := AwaitVerdict, c2r := proof));
  }

  /** The provider has accepted, and nothing of its reply has been read yet. */
  function Accepting(tn: Tunnel, reply: Bytes, spoken: nat): Relayed {
    Relayed(true, AwaitVerdict, Copying, Decided(true), [], [], [], reply, [], [], spoken)
  }

  lemma AcceptingReachable(tn: Tunnel)
    requires tn.Valid() && tn.su.sendsHello && tn.Passes(LONGEST_MESSAGE) && tn.su.Agree()
    ensures Reachable(tn, Accepting(tn, Msg(tn.su, VerdictFrame(true)), 0))
  {
    ProvedReachable(tn);
    var s, ok := Proved(tn), Msg(tn.su, VerdictFrame(true));
    ProofMoves(tn.su, s.r2p);
    ProviderAdvances(tn, s, SendVerdict(true), []);
    assert [] + ok == ok;
    ReachNext(tn, s.(p := SendVerdict(true), r2p := []), ProviderGo, Accepting(tn, ok, 0));
  }

  /** The relay holds a chunk that starts with the acceptance and that the rate never admits. */
  function Silenced(tn: Tunnel, reply: Bytes, n: nat): Relayed
    requires n <= |reply|
  {
    Accepting(tn, reply[n..], |tn.su.early|).(rep := reply[..n])
  }

  lemma SilencedReachable(tn: Tunnel, n: nat)
    requires tn.Valid() && tn.su.sendsHello && tn.Passes(LONGEST_MESSAGE) && tn.su.Agree() && tn.su.early != []
    requires 0 < n <= RateLimit.BUFFER && n <= |Msg(tn.su, VerdictFrame(true)) + tn.su.early|
    ensures Reachable(tn, Silenced(tn, Msg(tn.su, VerdictFrame(true)) + tn.su.early, n))
  {
    var ok, early := Msg(tn.su, VerdictFrame(true)), tn.su.early;
    AcceptingReachable(tn);
    assert early[0..0 + |early|] == early;
    ReachNext(tn, Accepting(tn, ok, 0), BackendGo(|early|), Accepting(tn, ok + early, |early|));
    ReachNext(tn, Accepting(tn, ok + early, |early|), ReadReply(n), Silenced(tn, ok + early, n));
  }

  lemma SilencedIsStuck(tn: Tunnel, reply: Bytes, n: nat)
    requires 0 < n <= |reply| && !tn.Passes(n)
    ensures Stuck(tn, Silenced(tn, reply, n)) && !Settled(tn.su, View(tn, Silenced(tn, reply, n)))
  {
  }

  // ---------------------------------------------------------------------
  // The exact limits
  // ---------------------------------------------------------------------

  /** No reachable state of the tunnel is stuck short of a verdict. */
  ghost predicate DeadlockFree(tn: Tunnel) {
    forall s :: Reachable(tn, s) ==> Settled(tn.su, View(tn, s)) || !Stuck(tn, s)
  }

  lemma SmallRateStarves(tn: Tunnel)
    requires tn.Valid() && tn.su.sendsHello && !tn.Passes(LONGEST_MESSAGE)
    ensures !DeadlockFree(tn)
  {
    StarvedReachable(tn);
    MsgReadsAlone(tn.su, AuthNonce(tn.su.nonce));
    assert Stuck(tn, Starved(tn));
  }

  lemma EarlyBytesStarve(tn: Tunnel)
    requires tn.Valid() && tn.su.sendsHello && tn.Passes(LONGEST_MESSAGE) && !RateLetsHandshakeThrough(tn)
    ensures !DeadlockFree(tn)
  {
    MsgReadsAlone(tn.su, VerdictFrame(true));
    var n := Min(RateLimit.BUFFER, ACCEPTANCE + |tn.su.early|);
    SilencedReachable(tn, n);
    SilencedIsStuck(tn, Msg(tn.su, VerdictFrame(true)) + tn.su.early, n);
  }

  /**
   The exact limits under which a relayed handshake cannot hang: off, 0, or at least
   the nonce frame and, if the secrets agree, at least an acceptance with the
   early bytes of the backend behind it, up to one read of the relay.
   */
  lemma DeadlockFreeExactly(tn: Tunnel)
    requires tn.Valid() && tn.su.sendsHello
    ensures DeadlockFree(tn) <==> RateLetsHandshakeThrough(tn)
  {
    if RateLetsHandshakeThrough(tn) {
      forall s | Reachable(tn, s) ensures Settled(tn.su, View(tn, s)) || !Stuck(tn, s) {
        var acts :| IsRun(tn, acts) && Run(tn, acts) == s;
        RelayedHandshakeSettles(tn, acts);
      }
    } else if tn.Passes(LONGEST_MESSAGE) {
      EarlyBytesStarve(tn);
    } else {
      SmallRateStarves(tn);
    }
  }

  /** A rate that lets every possible chunk of the relay through is safe whatever the backend says. */
  lemma BufferIsAlwaysEnough(tn: Tunnel)
    requires tn.Valid() && tn.su.sendsHello && tn.rate.Some? && tn.rate.value >= RateLimit.BUFFER
    ensures DeadlockFree(tn)
  {
    DeadlockFreeExactly(tn);
  }

  /** Without the hello nothing ever reaches the relay's outgoing stream, so the provider never sees it. */
  lemma WithoutHelloRelayedIsStuck(tn: Tunnel)
    requires tn.Valid() && !tn.su.sendsHello
    ensures !DeadlockFree(tn)
  {
    ConnectedReachable(tn);
    assert Stuck(tn, Connected(tn, []));
  }
}
