/**
 The provider side of the HMAC handshake under a network that may deliver any
 frame to any session in any order.

 HMAC-SHA256 is an arbitrary function `Mac`. What is assumed of it is local to
 a run: a tag that verifies was output by some computation (no forgery), and the
 points the run evaluates do not collide with the point being verified, up to
 the zero padding that section 2 of RFC 2104 applies to keys.
 */
module Authentication {
  import opened Bytes
  import opened Frames

  /** From a key and a message to a tag. */
  type Mac = (Bytes, Bytes) -> Bytes32

  /** `HMAC_SHA256(shared_secret, service_name || nonce)`. */
  function ComputeProof(mac: Mac, secret: Bytes, service: Bytes, nonce: Bytes32): Bytes32 {
    mac(secret, service + nonce)
  }

  predicate VerifyProof(mac: Mac, secret: Bytes, service: Bytes, nonce: Bytes32, proof: Bytes32) {
    ComputeProof(mac, secret, service, nonce) == proof
  }

  /** HMAC zero-pads a key to its 64-byte block, so such keys cannot be told apart. */
  function PaddedKey(k: Bytes): Bytes {
    if |k| <= 64 then k + seq(64 - |k|, i => 0) else k
  }

  /** `service || nonce` has one reading because the nonce is always 32 bytes. */
  lemma MessageIsUnambiguous(s: Bytes, n: Bytes32, s': Bytes, n': Bytes32)
    requires s + n == s' + n'
    ensures s == s' && n == n'
  {
    assert |s| == |s'|;
    assert s == (s + n)[..|s|] && n == (s + n)[|s|..];
    assert s' == (s' + n')[..|s'|] && n' == (s' + n')[|s'|..];
  }

  datatype Phase =
    | AwaitHello
    | AwaitProof(nonce: Bytes32)
    | Bridging(nonce: Bytes32)
    | Rejected(nonce: Bytes32)
    | Closed

  /** One accepted data connection of an exposed or static service. */
  datatype Session = Session(secret: Bytes, service: Bytes, phase: Phase) {
    predicate HasNonce() {
      phase.AwaitProof? || phase.Bridging? || phase.Rejected?
    }
  }

  /** One call of `make_proof`: some holder of `secret` answered `nonce` for `service`. */
  datatype Query = Query(secret: Bytes, service: Bytes, nonce: Bytes32)

  datatype State = State(sessions: map<nat, Session>, issued: set<Bytes32>, computed: seq<Query>)

  const Initial := State(map[], {}, [])

  datatype Step =
    | Accept(id: nat, secret: Bytes, service: Bytes)
    | MakeProof(query: Query)
    | Deliver(id: nat, frame: Frame, newNonce: Bytes32)
    | Hangup(id: nat)

  function Answer(mac: Mac, q: Query): Bytes32 {
    ComputeProof(mac, q.secret, q.service, q.nonce)
  }

  /** The network's one restriction: it does not guess the tag that a session is waiting for. */
  ghost predicate NoForgery(mac: Mac, s: State, session: Session, tag: Bytes32)
    requires session.phase.AwaitProof?
  {
    VerifyProof(mac, session.secret, session.service, session.phase.nonce, tag) ==>
      exists q :: q in s.computed && Answer(mac, q) == tag
  }

  /** The tag a session waits for is not also the tag of a different computed point. */
  ghost predicate NoCollision(mac: Mac, s: State, session: Session)
    requires session.phase.AwaitProof?
  {
    forall q :: q in s.computed
      && Answer(mac, q) == ComputeProof(mac, session.secret, session.service, session.phase.nonce)
      ==> && PaddedKey(q.secret) == PaddedKey(session.secret)
          && q.service + q.nonce == session.service + session.phase.nonce
  }

  ghost predicate MayDeliver(mac: Mac, s: State, session: Session, frame: Frame, newNonce: Bytes32) {
    match session.phase
    case AwaitHello => newNonce !in s.issued
    case AwaitProof(_) =>
      && NoCollision(mac, s, session)
      && (frame.AuthProof? ==> NoForgery(mac, s, session, frame.mac))
    case _ => false
  }

  ghost predicate Enabled(mac: Mac, s: State, step: Step) {
    match step
    case Accept(id, _, _) => id !in s.sessions
    case MakeProof(_) => true
    case Deliver(id, frame, newNonce) =>
      && id in s.sessions
      && MayDeliver(mac, s, s.sessions[id], frame, newNonce)
    case Hangup(id) => id in s.sessions
  }

  /** What `handle` does with the next frame it reads. */
  function OnFrame(mac: Mac, session: Session, frame: Frame, newNonce: Bytes32): Session {
    match session.phase
    case AwaitHello =>
      if frame.AuthHello? then session.(phase := AwaitProof(newNonce)) else session.(phase := Closed)
    case AwaitProof(nonce) =>
      if !frame.AuthProof? then session.(phase := Closed)
      else if VerifyProof(mac, session.secret, session.service, nonce, frame.mac)
        then session.(phase := Bridging(nonce))
        else session.(phase := Rejected(nonce))
    case _ => session
  }

  function Apply(mac: Mac, s: State, step: Step): State {
    match step
    case Accept(id, secret, service) =>
      s.(sessions := s.sessions[id := Session(secret, service, AwaitHello)])
    case MakeProof(q) =>
      s.(computed := s.computed + [q])
    case Deliver(id, frame, newNonce) =>
      if id !in s.sessions then s
      else
        var next := OnFrame(mac, s.sessions[id], frame, newNonce);
        State(s.sessions[id := next],
              if next.phase.AwaitProof? then s.issued + {newNonce} else s.issued,
              s.computed)
    case Hangup(id) =>
      if id !in s.sessions then s
      else s.(sessions := s.sessions[id := s.sessions[id].(phase := Closed)])
  }

  /** Some holder of the session's secret computed the proof for its service name and its own nonce. */
  ghost predicate BackedBy(s: State, id: nat, i: nat)
    requires id in s.sessions && s.sessions[id].HasNonce()
  {
    && i < |s.computed|
    && PaddedKey(s.computed[i].secret) == PaddedKey(s.sessions[id].secret)
    && s.computed[i].service == s.sessions[id].service
    && s.computed[i].nonce == s.sessions[id].phase.nonce
  }

  ghost predicate NoncesIssued(s: State) {
    forall id :: id in s.sessions && s.sessions[id].HasNonce() ==> s.sessions[id].phase.nonce in s.issued
  }

  ghost predicate NoncesDistinct(s: State) {
    forall a, b :: a in s.sessions && b in s.sessions && a != b
      && s.sessions[a].HasNonce() && s.sessions[b].HasNonce()
      ==> s.sessions[a].phase.nonce != s.sessions[b].phase.nonce
  }

  ghost predicate BridgesBacked(s: State) {
    forall id :: id in s.sessions && s.sessions[id].phase.Bridging? ==> exists i :: BackedBy(s, id, i)
  }

  ghost predicate Invariant(s: State) {
    NoncesIssued(s) && NoncesDistinct(s) && BridgesBacked(s)
  }

  /** A tag that verifies was computed for this very session. */
  lemma AcceptedTagIsBacked(mac: Mac, s: State, id: nat, tag: Bytes32) returns (i: nat)
    requires id in s.sessions && s.sessions[id].phase.AwaitProof?
    requires NoCollision(mac, s, s.sessions[id]) && NoForgery(mac, s, s.sessions[id], tag)
    requires var p := s.sessions[id]; VerifyProof(mac, p.secret, p.service, p.phase.nonce, tag)
    ensures BackedBy(s, id, i)
  {
    var session := s.sessions[id];
    var q :| q in s.computed && Answer(mac, q) == tag;
    i :| 0 <= i < |s.computed| && s.computed[i] == q;
    MessageIsUnambiguous(q.service, q.nonce, session.service, session.phase.nonce);
  }

  lemma StepKeepsNonces(mac: Mac, s: State, step: Step)
    requires NoncesIssued(s) && NoncesDistinct(s) && Enabled(mac, s, step)
    ensures NoncesIssued(Apply(mac, s, step)) && NoncesDistinct(Apply(mac, s, step))
  {
  }

  lemma StepKeepsBacking(mac: Mac, s: State, step: Step)
    requires BridgesBacked(s) && Enabled(mac, s, step)
    ensures BridgesBacked(Apply(mac, s, step))
  {
    var t := Apply(mac, s, step);
    forall id | id in t.sessions && t.sessions[id].phase.Bridging?
      ensures exists i :: BackedBy(t, id, i)
    {
      if id in s.sessions && s.sessions[id].phase.Bridging? {
        var i :| BackedBy(s, id, i);
        assert BackedBy(t, id, i);
      } else {
        var i := AcceptedTagIsBacked(mac, s, id, step.frame.mac);
        assert BackedBy(t, id, i);
      }
    }
  }

  lemma StepKeepsInvariant(mac: Mac, s: State, step: Step)
    requires Invariant(s) && Enabled(mac, s, step)
    ensures Invariant(Apply(mac, s, step))
  {
    StepKeepsNonces(mac, s, step);
    StepKeepsBacking(mac, s, step);
  }

  function Run(mac: Mac, steps: seq<Step>): State {
    if steps == [] then Initial else Apply(mac, Run(mac, steps[..|steps| - 1]), steps[|steps| - 1])
  }

  ghost predicate IsRun(mac: Mac, steps: seq<Step>) {
    steps != [] ==>
      var before := steps[..|steps| - 1];
      IsRun(mac, before) && Enabled(mac, Run(mac, before), steps[|steps| - 1])
  }

  lemma {:induction false} InvariantOfRuns(mac: Mac, steps: seq<Step>)
    requires IsRun(mac, steps)
    ensures Invariant(Run(mac, steps))
  {
    if steps != [] {
      var before := steps[..|steps| - 1];
      InvariantOfRuns(mac, before);
      StepKeepsInvariant(mac, Run(mac, before), steps[|steps| - 1]);
    }
  }

  /**
   Agreement, over any interleaving of any number of sessions: a session that
   bridges is backed by a computation for its secret, its service and its nonce.
   */
  lemma BridgingIsBacked(mac: Mac, steps: seq<Step>, id: nat)
    requires IsRun(mac, steps)
    requires id in Run(mac, steps).sessions && Run(mac, steps).sessions[id].phase.Bridging?
    ensures exists i :: BackedBy(Run(mac, steps), id, i)
  {
    InvariantOfRuns(mac, steps);
  }

  /** Injective agreement: one computed proof never opens two sessions. */
  lemma OneProofOneSession(mac: Mac, steps: seq<Step>, a: nat, b: nat, i: nat)
    requires IsRun(mac, steps)
    requires var s := Run(mac, steps);
      && a in s.sessions && s.sessions[a].phase.Bridging? && BackedBy(s, a, i)
      && b in s.sessions && s.sessions[b].phase.Bridging? && BackedBy(s, b, i)
    ensures a == b
  {
    InvariantOfRuns(mac, steps);
  }

  /** A service for which nobody ever computed a proof is never bridged. */
  lemma NoHolderNoBridge(mac: Mac, steps: seq<Step>, service: Bytes, id: nat)
    requires IsRun(mac, steps)
    requires forall k :: 0 <= k < |steps| && steps[k].MakeProof? ==> steps[k].query.service != service
    requires id in Run(mac, steps).sessions && Run(mac, steps).sessions[id].service == service
    ensures !Run(mac, steps).sessions[id].phase.Bridging?
  {
    ComputedComesFromSteps(mac, steps, service);
    InvariantOfRuns(mac, steps);
  }

  lemma {:induction false} ComputedComesFromSteps(mac: Mac, steps: seq<Step>, service: Bytes)
    requires forall k :: 0 <= k < |steps| && steps[k].MakeProof? ==> steps[k].query.service != service
    ensures forall i :: 0 <= i < |Run(mac, steps).computed| ==> Run(mac, steps).computed[i].service != service
  {
    if steps != [] {
      ComputedComesFromSteps(mac, steps[..|steps| - 1], service);
    }
  }

  /** The honest exchange succeeds: answering a waiting session's nonce with its secret opens it. */
  lemma HonestAnswerIsAccepted(mac: Mac, s: State, id: nat, newNonce: Bytes32)
    requires id in s.sessions && s.sessions[id].phase.AwaitProof?
    ensures
      var p := s.sessions[id];
      var q := Query(p.secret, p.service, p.phase.nonce);
      var told := Apply(mac, s, MakeProof(q));
      var step := Deliver(id, AuthProof(Answer(mac, q)), newNonce);
      && NoForgery(mac, told, p, Answer(mac, q))
      && Apply(mac, told, step).sessions[id].phase == Bridging(p.phase.nonce)
  {
    var p := s.sessions[id];
    var q := Query(p.secret, p.service, p.phase.nonce);
    var told := Apply(mac, s, MakeProof(q));
    assert told.computed[|s.computed|] == q;
  }

  // ---------------------------------------------------------------------
  // What the frames of a session make of it
  // ---------------------------------------------------------------------

  /** The frames that a run delivers to session `id`, in order. */
  function Delivered(steps: seq<Step>, id: nat): seq<Step> {
    if steps == [] then []
    else
      var last := steps[|steps| - 1];
      Delivered(steps[..|steps| - 1], id) + if last.Deliver? && last.id == id then [last] else []
  }

  predicate HungUp(steps: seq<Step>, id: nat) {
    exists k :: 0 <= k < |steps| && steps[k] == Hangup(id)
  }

  lemma HungUpNext(steps: seq<Step>, id: nat)
    requires steps != []
    ensures HungUp(steps, id) <==> HungUp(steps[..|steps| - 1], id) || steps[|steps| - 1] == Hangup(id)
  {
    if HungUp(steps[..|steps| - 1], id) {
      var k :| 0 <= k < |steps| - 1 && steps[..|steps| - 1][k] == Hangup(id);
      assert steps[k] == Hangup(id);
    }
    if HungUp(steps, id) {
      var k :| 0 <= k < |steps| && steps[k] == Hangup(id);
      assert k < |steps| - 1 ==> steps[..|steps| - 1][k] == Hangup(id);
    }
  }

  predicate Proves(mac: Mac, session: Session, nonce: Bytes32, f: Frame) {
    f.AuthProof? && f.mac == mac(session.secret, session.service + nonce)
  }

  /** The phase that the frames a session was delivered call for. */
  predicate PhaseFits(mac: Mac, session: Session, ds: seq<Step>)
    requires forall k :: 0 <= k < |ds| ==> ds[k].Deliver?
  {
    var greeted := ds != [] && ds[0].frame.AuthHello?;
    && |ds| <= 2 && (|ds| == 2 ==> greeted)
    && (session.phase.AwaitHello? <==> ds == [])
    && (session.phase.AwaitProof? <==> |ds| == 1 && greeted)
    && (session.phase.Bridging? <==> |ds| == 2 && Proves(mac, session, ds[0].newNonce, ds[1].frame))
    && (session.phase.Rejected? <==>
          |ds| == 2 && ds[1].frame.AuthProof? && !Proves(mac, session, ds[0].newNonce, ds[1].frame))
    && (session.phase.Closed? <==> (|ds| == 1 && !greeted) || (|ds| == 2 && !ds[1].frame.AuthProof?))
    && (session.HasNonce() ==> session.phase.nonce == ds[0].newNonce)
  }

  lemma FrameFits(mac: Mac, session: Session, ds: seq<Step>, d: Step)
    requires (forall k :: 0 <= k < |ds| ==> ds[k].Deliver?) && d.Deliver?
    requires PhaseFits(mac, session, ds) && (session.phase.AwaitHello? || session.phase.AwaitProof?)
    ensures PhaseFits(mac, OnFrame(mac, session, d.frame, d.newNonce), ds + [d])
  {
  }

  lemma {:induction false} OnlyDelivers(steps: seq<Step>, id: nat)
    ensures forall k :: 0 <= k < |Delivered(steps, id)| ==> Delivered(steps, id)[k].Deliver?
  {
    if steps != [] {
      OnlyDelivers(steps[..|steps| - 1], id);
    }
  }

  lemma {:induction false} NothingBeforeAccept(mac: Mac, steps: seq<Step>, id: nat)
    requires IsRun(mac, steps) && id !in Run(mac, steps).sessions
    ensures Delivered(steps, id) == [] && !HungUp(steps, id)
  {
    if steps != [] {
      NothingBeforeAccept(mac, steps[..|steps| - 1], id);
      HungUpNext(steps, id);
    }
  }

  /** How one step changes one session. */
  lemma SessionAfter(mac: Mac, s: State, step: Step, id: nat)
    requires Enabled(mac, s, step) && id in Apply(mac, s, step).sessions
    ensures
      var next := Apply(mac, s, step).sessions[id];
      if id !in s.sessions then step == Accept(id, next.secret, next.service) && next.phase.AwaitHello?
      else if step == Hangup(id) then next == s.sessions[id].(phase := Closed)
      else if step.Deliver? && step.id == id then
        && next == OnFrame(mac, s.sessions[id], step.frame, step.newNonce)
        && (s.sessions[id].phase.AwaitHello? || s.sessions[id].phase.AwaitProof?)
      else next == s.sessions[id]
  {
  }

  /** The state that `SessionIsItsFrames` describes. */
  predicate SessionFits(mac: Mac, session: Session, steps: seq<Step>, id: nat)
    requires forall k :: 0 <= k < |Delivered(steps, id)| ==> Delivered(steps, id)[k].Deliver?
  {
    if HungUp(steps, id) then session.phase.Closed? else PhaseFits(mac, session, Delivered(steps, id))
  }

  /**
   Over every run, a session is what its frames make of it: it offers a nonce when
   the first is an `AuthHello`, and only then; it bridges when the second is the
   proof for that nonce; any other first frame, or a second one that is no proof,
   closes it.
   */
  lemma {:induction false} SessionIsItsFrames(mac: Mac, steps: seq<Step>, id: nat)
    requires IsRun(mac, steps) && id in Run(mac, steps).sessions
    ensures forall k :: 0 <= k < |Delivered(steps, id)| ==> Delivered(steps, id)[k].Deliver?
    ensures SessionFits(mac, Run(mac, steps).sessions[id], steps, id)
  {
    var before, last := steps[..|steps| - 1], steps[|steps| - 1];
    var s := Run(mac, before);
    OnlyDelivers(steps, id);
    OnlyDelivers(before, id);
    HungUpNext(steps, id);
    SessionAfter(mac, s, last, id);
    if id in s.sessions {
      SessionIsItsFrames(mac, before, id);
      if last.Deliver? && last.id == id {
        FrameFits(mac, s.sessions[id], Delivered(before, id), last);
      }
    } else {
      NothingBeforeAccept(mac, before, id);
    }
  }

  /** The secret and the service of a session are those it was accepted with. */
  lemma {:induction false} SessionIsAccepted(mac: Mac, steps: seq<Step>, id: nat)
    requires IsRun(mac, steps) && id in Run(mac, steps).sessions
    ensures var session := Run(mac, steps).sessions[id]; Accept(id, session.secret, session.service) in steps
  {
    var before, last := steps[..|steps| - 1], steps[|steps| - 1];
    SessionAfter(mac, Run(mac, before), last, id);
    assert forall x :: x in before ==> x in steps;
    if id in Run(mac, before).sessions {
      SessionIsAccepted(mac, before, id);
    }
  }

  /** A proof for this point has not been computed for another one. */
  ghost predicate Unmatched(mac: Mac, s: State, p: Query) {
    forall q :: q in s.computed && Answer(mac, q) == Answer(mac, p) ==>
      PaddedKey(q.secret) == PaddedKey(p.secret) && q.service + q.nonce == p.service + p.nonce
  }

  lemma RunNext(mac: Mac, steps: seq<Step>, step: Step)
    requires IsRun(mac, steps) && Enabled(mac, Run(mac, steps), step)
    ensures IsRun(mac, steps + [step]) && Run(mac, steps + [step]) == Apply(mac, Run(mac, steps), step)
  {
    assert (steps + [step])[..|steps|] == steps;
  }

  /**
   Whatever has happened before, a new session that is greeted, and then answered
   by a holder of its secret, bridges.
   */
  lemma HonestExchangeBridges(mac: Mac, before: seq<Step>, id: nat, p: Query, other: Bytes32)
    requires IsRun(mac, before) && id !in Run(mac, before).sessions && p.nonce !in Run(mac, before).issued
    requires Unmatched(mac, Run(mac, before), p)
    ensures
      var steps := before + [Accept(id, p.secret, p.service)] + [Deliver(id, AuthHello, p.nonce)]
                          + [MakeProof(p)] + [Deliver(id, AuthProof(Answer(mac, p)), other)];
      IsRun(mac, steps) && Run(mac, steps).sessions[id] == Session(p.secret, p.service, Bridging(p.nonce))
  {
    var steps := before;
    RunNext(mac, steps, Accept(id, p.secret, p.service));
    steps := steps + [Accept(id, p.secret, p.service)];
    RunNext(mac, steps, Deliver(id, AuthHello, p.nonce));
    steps := steps + [Deliver(id, AuthHello, p.nonce)];
    RunNext(mac, steps, MakeProof(p));
    steps := steps + [MakeProof(p)];
    var s := Run(mac, steps);
    assert s.computed[|s.computed| - 1] == p;
    assert NoForgery(mac, s, s.sessions[id], Answer(mac, p));
    RunNext(mac, steps, Deliver(id, AuthProof(Answer(mac, p)), other));
  }
}
