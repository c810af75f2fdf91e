/**
 Control sessions and the sweeper, interleaved at the granularity of single map
 operations: a client may hold several control connections at once, and
 `drop_session` is a removal, a collection and one removal per collected name.
 */
module ControlSessions {
  import opened Endpoints
  import opened Options
  import opened Registry

  /** Where `run_session` is. `Replying` is between changing the registry and writing the answer. */
  datatype Phase =
    | Greeting
    | Serving
    | Replying
    | Leaving
    | SessionRemoved
    | Collected(pending: set<Name>)
    | Closed

  /** A connection whose Hello was accepted for `group`. */
  datatype Conn = Conn(peer: EndpointId, group: Name, phase: Phase)

  datatype World = World(groups: Groups, conns: map<nat, Conn>)

  datatype Step =
    | Hello(c: nat, peer: EndpointId, group: Name, now: Instant)
    | HelloAnswered(c: nat)
    | RegisterService(c: nat, service: Name)
    | LookUp(c: nat, service: Name)
    | Answered(c: nat)
    | Heartbeat(c: nat, now: Instant)
    | Break(c: nat)
    | RemoveSession(c: nat)
    | Collect(c: nat)
    | RemoveService(c: nat, service: Name)
    | Finish(c: nat)
    | SweepSession(group: Name, client: EndpointId)
    | SweepService(group: Name, service: Name)
    | FailedWrite(c: nat)
    | Unwind(c: nat)

  predicate InPhase(w: World, c: nat, phase: Phase) {
    c in w.conns && w.conns[c].phase == phase
  }

  predicate Can(w: World, step: Step) {
    match step
    case Hello(c, _, group, _) => c !in w.conns && group in w.groups
    case HelloAnswered(c) => InPhase(w, c, Greeting)
    case RegisterService(c, _) => InPhase(w, c, Serving)
    case LookUp(c, _) => InPhase(w, c, Serving)
    case Answered(c) => InPhase(w, c, Replying)
    case Heartbeat(c, _) => InPhase(w, c, Serving)
    case Break(c) => InPhase(w, c, Serving)
    case RemoveSession(c) => InPhase(w, c, Leaving)
    case Collect(c) => InPhase(w, c, SessionRemoved)
    case RemoveService(c, s) =>
      c in w.conns && w.conns[c].phase.Collected? && s in w.conns[c].phase.pending
    case Finish(c) => InPhase(w, c, Collected({}))
    case SweepSession(group, _) => group in w.groups
    case SweepService(group, _) => group in w.groups
    case FailedWrite(c) => InPhase(w, c, Greeting) || InPhase(w, c, Replying)
    case Unwind(c) => InPhase(w, c, Serving)
  }

  function To(w: World, c: nat, phase: Phase): World
    requires c in w.conns
  {
    w.(conns := w.conns[c := w.conns[c].(phase := phase)])
  }

  function SetGroup(w: World, group: Name, g: GroupState): World {
    w.(groups := w.groups[group := g])
  }

  ghost predicate WellFormed(w: World) {
    forall c :: c in w.conns ==> w.conns[c].group in w.groups
  }

  /**
   The sweeper is given more freedom than it uses: it may remove any session and
   any service at any moment. `FailedWrite` is an answer that cannot be written:
   `run_session` returns at once and skips its clean-up. The answer to a refused
   registration is written without looking at the result. `Unwind` is a command
   whose frame makes the decoder panic, which skips the clean-up as well.
   */
  function Do(w: World, step: Step): (r: World)
    requires WellFormed(w) && Can(w, step)
    ensures WellFormed(r)
  {
    match step
    case Hello(c, peer, group, now) =>
      SetGroup(w, group, Touched(w.groups[group], peer, now)).(conns := w.conns[c := Conn(peer, group, Greeting)])
    case HelloAnswered(c) => To(w, c, Serving)
    case RegisterService(c, s) =>
      var conn := w.conns[c];
      To(SetGroup(w, conn.group, Registered(w.groups[conn.group], s, conn.peer)), c,
         if |s| > MAX_SERVICE_NAME then Serving else Replying)
    case LookUp(c, _) => To(w, c, Replying)
    case Answered(c) => To(w, c, Serving)
    case Heartbeat(c, now) =>
      var conn := w.conns[c];
      SetGroup(w, conn.group, Touched(w.groups[conn.group], conn.peer, now))
    case Break(c) => To(w, c, Leaving)
    case RemoveSession(c) =>
      var conn := w.conns[c];
      var g := w.groups[conn.group];
      To(SetGroup(w, conn.group, g.(sessions := g.sessions - {conn.peer})), c, SessionRemoved)
    case Collect(c) =>
      var conn := w.conns[c];
      To(w, c, Collected(Provided(w.groups[conn.group], conn.peer)))
    case RemoveService(c, s) =>
      var conn := w.conns[c];
      var g := w.groups[conn.group];
      To(SetGroup(w, conn.group, g.(services := g.services - {s})), c, Collected(conn.phase.pending - {s}))
    case Finish(c) => To(w, c, Closed)
    case SweepSession(group, client) =>
      var g := w.groups[group];
      SetGroup(w, group, g.(sessions := g.sessions - {client}))
    case SweepService(group, s) =>
      var g := w.groups[group];
      SetGroup(w, group, g.(services := g.services - {s}))
    case FailedWrite(c) => To(w, c, Closed)
    case Unwind(c) => To(w, c, Closed)
  }

  function Provided(g: GroupState, peer: EndpointId): set<Name> {
    set s | s in g.services && g.services[s] == peer
  }

  /** The session ends without its clean-up. */
  predicate Unclean(step: Step) {
    step.FailedWrite? || step.Unwind?
  }

  // ---------------------------------------------------------------------
  // The lifecycle invariant
  // ---------------------------------------------------------------------

  predicate IsOpen(w: World, c: nat, group: Name, peer: EndpointId) {
    c in w.conns && w.conns[c].group == group && w.conns[c].peer == peer && !w.conns[c].phase.Closed?
  }

  ghost predicate HasOpen(w: World, group: Name, peer: EndpointId) {
    exists c :: IsOpen(w, c, group, peer)
  }

  /** Everyone the registry mentions has an open control session in that group. */
  ghost predicate Lifecycle(w: World) {
    && (forall g, s :: g in w.groups && s in w.groups[g].services ==> HasOpen(w, g, w.groups[g].services[s]))
    && (forall g, p :: g in w.groups && p in w.groups[g].sessions ==> HasOpen(w, g, p))
  }

  /** Connection `c` will still remove its peer's session before it closes. */
  predicate WillRemoveSession(w: World, c: nat, group: Name, peer: EndpointId) {
    IsOpen(w, c, group, peer) && !w.conns[c].phase.SessionRemoved? && !w.conns[c].phase.Collected?
  }

  /** Connection `c` will still remove `service` if it is its peer's by then. */
  predicate WillRemoveService(w: World, c: nat, group: Name, peer: EndpointId, service: Name) {
    IsOpen(w, c, group, peer) && (w.conns[c].phase.Collected? ==> service in w.conns[c].phase.pending)
  }

  ghost predicate SessionsCovered(w: World) {
    forall g, p :: g in w.groups && p in w.groups[g].sessions ==> exists c :: WillRemoveSession(w, c, g, p)
  }

  ghost predicate ServicesCovered(w: World) {
    forall g, s :: g in w.groups && s in w.groups[g].services ==>
      exists c :: WillRemoveService(w, c, g, w.groups[g].services[s], s)
  }

  ghost predicate Inv(w: World) {
    WellFormed(w) && SessionsCovered(w) && ServicesCovered(w)
  }

  lemma InvMeansLifecycle(w: World)
    requires Inv(w)
    ensures Lifecycle(w)
  {
    forall g, s | g in w.groups && s in w.groups[g].services
      ensures HasOpen(w, g, w.groups[g].services[s])
    {
      var c :| WillRemoveService(w, c, g, w.groups[g].services[s], s);
      assert IsOpen(w, c, g, w.groups[g].services[s]);
    }
    forall g, p | g in w.groups && p in w.groups[g].sessions ensures HasOpen(w, g, p) {
      var c :| WillRemoveSession(w, c, g, p);
      assert IsOpen(w, c, g, p);
    }
  }

  lemma StepKeepsSessions(w: World, step: Step)
    requires Inv(w) && Can(w, step) && !Unclean(step)
    ensures WellFormed(Do(w, step)) && SessionsCovered(Do(w, step))
  {
    var w' := Do(w, step);
    forall g, p | g in w'.groups && p in w'.groups[g].sessions
      ensures exists c :: WillRemoveSession(w', c, g, p)
    {
      if step.Hello? && step.group == g && step.peer == p {
        assert WillRemoveSession(w', step.c, g, p);
      } else if step.Heartbeat? && w.conns[step.c].group == g && w.conns[step.c].peer == p {
        assert WillRemoveSession(w', step.c, g, p);
      } else {
        var c :| WillRemoveSession(w, c, g, p);
        assert WillRemoveSession(w', c, g, p);
      }
    }
  }

  lemma StepKeepsServices(w: World, step: Step)
    requires Inv(w) && Can(w, step) && !Unclean(step)
    ensures ServicesCovered(Do(w, step))
  {
    var w' := Do(w, step);
    forall g, s | g in w'.groups && s in w'.groups[g].services
      ensures exists c :: WillRemoveService(w', c, g, w'.groups[g].services[s], s)
    {
      if step.RegisterService? && step.service == s && w.conns[step.c].group == g && |s| <= MAX_SERVICE_NAME {
        assert WillRemoveService(w', step.c, g, w'.groups[g].services[s], s);
      } else {
        var c :| WillRemoveService(w, c, g, w.groups[g].services[s], s);
        assert WillRemoveService(w', c, g, w'.groups[g].services[s], s);
      }
    }
  }

  function Start(names: set<Name>): World {
    World(Initial(names), map[])
  }

  predicate IsRun(start: World, steps: seq<Step>)
    requires WellFormed(start)
    decreases |steps|, 0
  {
    steps != [] ==>
      var before := steps[..|steps| - 1];
      && IsRun(start, before)
      && Can(Run(start, before), steps[|steps| - 1])
  }

  function Run(start: World, steps: seq<Step>): (w: World)
    requires WellFormed(start) && IsRun(start, steps)
    ensures WellFormed(w)
    decreases |steps|, 1
  {
    if steps == [] then start
    else Do(Run(start, steps[..|steps| - 1]), steps[|steps| - 1])
  }

  /** Every session past Hello leaves through its clean-up. */
  predicate CleanExits(steps: seq<Step>) {
    forall i :: 0 <= i < |steps| ==> !Unclean(steps[i])
  }

  lemma {:induction false} InvOfRuns(start: World, steps: seq<Step>)
    requires Inv(start) && IsRun(start, steps) && CleanExits(steps)
    ensures Inv(Run(start, steps))
    decreases |steps|
  {
    if steps != [] {
      var before := steps[..|steps| - 1];
      InvOfRuns(start, before);
      StepKeepsSessions(Run(start, before), steps[|steps| - 1]);
      StepKeepsServices(Run(start, before), steps[|steps| - 1]);
    }
  }

  /**
   In every interleaving of control sessions and sweeps in which each session
   leaves through its clean-up, every registered provider and every session key
   has an open control session in its group.
   */
  lemma LifecycleHolds(names: set<Name>, steps: seq<Step>)
    requires IsRun(Start(names), steps) && CleanExits(steps)
    ensures Lifecycle(Run(Start(names), steps))
  {
    InvOfRuns(Start(names), steps);
    InvMeansLifecycle(Run(Start(names), steps));
  }

  lemma RunNext(start: World, steps: seq<Step>, step: Step)
    requires WellFormed(start) && IsRun(start, steps) && Can(Run(start, steps), step)
    ensures IsRun(start, steps + [step]) && Run(start, steps + [step]) == Do(Run(start, steps), step)
    ensures CleanExits(steps) && !Unclean(step) ==> CleanExits(steps + [step])
  {
    assert (steps + [step])[..|steps|] == steps;
  }

  // ---------------------------------------------------------------------
  // From which states the lifecycle is safe
  // ---------------------------------------------------------------------

  /** However clean sessions and sweeps go on from here, the lifecycle property is never lost. */
  ghost predicate SafeForGood(w: World)
    requires WellFormed(w)
  {
    forall steps :: IsRun(w, steps) && CleanExits(steps) ==> Lifecycle(Run(w, steps))
  }

  /** Connection `c` has gone from `w` to `w'` by closing, and took the services in `lost` with it. */
  ghost predicate ClosedWith(w: World, w': World, c: nat, lost: set<Name>)
    requires WellFormed(w) && c in w.conns
  {
    var conn := w.conns[c];
    var g := w.groups[conn.group];
    && w'.conns == w.conns[c := conn.(phase := Closed)]
    && w'.groups == w.groups[conn.group := g.(services := g.services - lost)]
  }

  lemma FinishCloses(w: World, c: nat)
    requires WellFormed(w) && Can(w, Finish(c))
    ensures ClosedWith(w, Do(w, Finish(c)), c, {})
  {
    var conn := w.conns[c];
    var g := w.groups[conn.group];
    assert g.services - {} == g.services;
    assert w.groups[conn.group := g] == w.groups;
  }

  lemma RemoveThenClose(w: World, c: nat, s: Name, w': World)
    requires WellFormed(w) && Can(w, RemoveService(c, s))
    requires ClosedWith(Do(w, RemoveService(c, s)), w', c, w.conns[c].phase.pending - {s})
    ensures ClosedWith(w, w', c, w.conns[c].phase.pending)
  {
    var conn := w.conns[c];
    var services, pending := w.groups[conn.group].services, conn.phase.pending;
    assert services - {s} - (pending - {s}) == services - pending;
  }

  /** A connection that has collected its names can remove them and close. */
  lemma {:induction false} CloseCollected(start: World, steps: seq<Step>, c: nat) returns (more: seq<Step>)
    requires WellFormed(start) && IsRun(start, steps) && CleanExits(steps)
    requires c in Run(start, steps).conns && Run(start, steps).conns[c].phase.Collected?
    ensures IsRun(start, more) && CleanExits(more)
    ensures ClosedWith(Run(start, steps), Run(start, more), c, Run(start, steps).conns[c].phase.pending)
    decreases |Run(start, steps).conns[c].phase.pending|
  {
    var w := Run(start, steps);
    if w.conns[c].phase.pending == {} {
      RunNext(start, steps, Finish(c));
      FinishCloses(w, c);
      more := steps + [Finish(c)];
    } else {
      var s :| s in w.conns[c].phase.pending;
      RunNext(start, steps, RemoveService(c, s));
      more := CloseCollected(start, steps + [RemoveService(c, s)], c);
      RemoveThenClose(w, c, s, Run(start, more));
    }
  }

  /** What is left for a connection past its session's removal to take with it. */
  function LeftToLose(w: World, c: nat): set<Name>
    requires WellFormed(w) && c in w.conns
  {
    var conn := w.conns[c];
    if conn.phase.Collected? then conn.phase.pending else Provided(w.groups[conn.group], conn.peer)
  }

  lemma CloseOne(start: World, steps: seq<Step>, c: nat) returns (more: seq<Step>)
    requires WellFormed(start) && IsRun(start, steps) && CleanExits(steps)
    requires c in Run(start, steps).conns
    requires Run(start, steps).conns[c].phase.Collected? || Run(start, steps).conns[c].phase.SessionRemoved?
    ensures IsRun(start, more) && CleanExits(more)
    ensures ClosedWith(Run(start, steps), Run(start, more), c, LeftToLose(Run(start, steps), c))
  {
    var w := Run(start, steps);
    if w.conns[c].phase.Collected? {
      more := CloseCollected(start, steps, c);
    } else {
      RunNext(start, steps, Collect(c));
      more := CloseCollected(start, steps + [Collect(c)], c);
    }
  }

  /** The open connections of `peer` in `group` are past removing its session, and will not remove `kept`. */
  ghost predicate AllPast(w: World, group: Name, peer: EndpointId, kept: set<Name>)
    requires WellFormed(w)
  {
    forall c :: IsOpen(w, c, group, peer) ==>
      && (w.conns[c].phase.Collected? || w.conns[c].phase.SessionRemoved?)
      && LeftToLose(w, c) !! kept
  }

  ghost predicate Keeps(w: World, w': World, group: Name, kept: set<Name>) {
    && group in w.groups && group in w'.groups
    && w'.groups[group].sessions == w.groups[group].sessions
    && forall s :: s in kept && s in w.groups[group].services ==>
         s in w'.groups[group].services && w'.groups[group].services[s] == w.groups[group].services[s]
  }

  lemma CloseOnePast(w: World, w': World, c: nat, group: Name, peer: EndpointId, kept: set<Name>)
    requires WellFormed(w) && group in w.groups && AllPast(w, group, peer, kept) && IsOpen(w, c, group, peer)
    requires ClosedWith(w, w', c, LeftToLose(w, c))
    ensures WellFormed(w') && AllPast(w', group, peer, kept) && Keeps(w, w', group, kept)
    ensures forall d :: IsOpen(w', d, group, peer) <==> d != c && IsOpen(w, d, group, peer)
  {
    forall d | IsOpen(w', d, group, peer)
      ensures w'.conns[d].phase.Collected? || w'.conns[d].phase.SessionRemoved?
      ensures LeftToLose(w', d) !! kept
    {
      assert IsOpen(w, d, group, peer) && w'.conns[d] == w.conns[d];
      assert LeftToLose(w', d) <= LeftToLose(w, d);
    }
  }

  /** All connections of a client that are past removing its session can close, and what they do not take stays. */
  lemma {:induction false} CloseAll(start: World, steps: seq<Step>, todo: set<nat>, group: Name, peer: EndpointId, kept: set<Name>)
    returns (more: seq<Step>)
    requires WellFormed(start) && IsRun(start, steps) && CleanExits(steps)
    requires group in Run(start, steps).groups && AllPast(Run(start, steps), group, peer, kept)
    requires forall c :: c in todo <==> IsOpen(Run(start, steps), c, group, peer)
    ensures IsRun(start, more) && CleanExits(more)
    ensures !HasOpen(Run(start, more), group, peer)
    ensures Keeps(Run(start, steps), Run(start, more), group, kept)
    decreases todo
  {
    if todo == {} {
      more := steps;
    } else {
      var c :| c in todo;
      var next := CloseOne(start, steps, c);
      CloseOnePast(Run(start, steps), Run(start, next), c, group, peer, kept);
      more := CloseAll(start, next, todo - {c}, group, peer, kept);
    }
  }

  /** An entry that only past connections of its client could have covered ends up with no open session. */
  lemma PastLosesLifecycle(w: World, group: Name, peer: EndpointId, kept: set<Name>)
    requires WellFormed(w) && group in w.groups && AllPast(w, group, peer, kept)
    requires peer in w.groups[group].sessions
      || exists s :: s in kept && s in w.groups[group].services && w.groups[group].services[s] == peer
    ensures !SafeForGood(w)
  {
    var todo := set c | c in w.conns && IsOpen(w, c, group, peer);
    assert IsRun(w, []) && Run(w, []) == w;
    var steps := CloseAll(w, [], todo, group, peer, kept);
    assert !Lifecycle(Run(w, steps));
  }

  /**
   The covering invariant is exact: the lifecycle property survives every clean
   continuation of a state if and only if each entry of the registry is still
   to be removed by an open connection of its client.
   */
  lemma SafeForGoodExactly(w: World)
    requires WellFormed(w)
    ensures SafeForGood(w) <==> Inv(w)
  {
    if Inv(w) {
      forall steps | IsRun(w, steps) && CleanExits(steps) ensures Lifecycle(Run(w, steps)) {
        InvOfRuns(w, steps);
        InvMeansLifecycle(Run(w, steps));
      }
    } else if !SessionsCovered(w) {
      var g, p :| g in w.groups && p in w.groups[g].sessions && !exists c :: WillRemoveSession(w, c, g, p);
      assert forall c :: IsOpen(w, c, g, p) ==> !WillRemoveSession(w, c, g, p);
      PastLosesLifecycle(w, g, p, {});
    } else {
      var g, s :| g in w.groups && s in w.groups[g].services
        && !exists c :: WillRemoveService(w, c, g, w.groups[g].services[s], s);
      var p := w.groups[g].services[s];
      assert forall c :: IsOpen(w, c, g, p) ==> !WillRemoveService(w, c, g, p, s);
      PastLosesLifecycle(w, g, p, {s});
    }
  }

  /** Another connection of the client will still remove each of its entries. */
  ghost predicate OthersCover(w: World, c: nat)
    requires WellFormed(w) && c in w.conns
  {
    var conn := w.conns[c];
    var g := w.groups[conn.group];
    && (conn.peer in g.sessions ==> exists d :: d != c && WillRemoveSession(w, d, conn.group, conn.peer))
    && (forall s :: s in g.services && g.services[s] == conn.peer ==>
          exists d :: d != c && WillRemoveService(w, d, conn.group, conn.peer, s))
  }

  lemma CoverAfterUnclean(w: World, step: Step)
    requires Inv(w) && Can(w, step) && Unclean(step)
    ensures Inv(Do(w, step)) <==> OthersCover(w, step.c)
  {
    var w', c := Do(w, step), step.c;
    var conn := w.conns[c];
    forall d, g, p ensures WillRemoveSession(w', d, g, p) <==> d != c && WillRemoveSession(w, d, g, p) {
    }
    forall d, g, p, s ensures WillRemoveService(w', d, g, p, s) <==> d != c && WillRemoveService(w, d, g, p, s) {
    }
    if OthersCover(w, c) {
      forall g, p | g in w'.groups && p in w'.groups[g].sessions ensures exists d :: WillRemoveSession(w', d, g, p) {
        var d :| WillRemoveSession(w, d, g, p) && (g == conn.group && p == conn.peer ==> d != c);
        assert WillRemoveSession(w', d, g, p);
      }
      forall g, s | g in w'.groups && s in w'.groups[g].services
        ensures exists d :: WillRemoveService(w', d, g, w'.groups[g].services[s], s)
      {
        var p := w.groups[g].services[s];
        var d :| WillRemoveService(w, d, g, p, s) && (g == conn.group && p == conn.peer ==> d != c);
        assert WillRemoveService(w', d, g, p, s);
      }
    }
    if Inv(w') {
      var g := w'.groups[conn.group];
      if conn.peer in g.sessions {
        var d :| WillRemoveSession(w', d, conn.group, conn.peer);
      }
      forall s | s in g.services && g.services[s] == conn.peer
        ensures exists d :: d != c && WillRemoveService(w, d, conn.group, conn.peer, s)
      {
        var d :| WillRemoveService(w', d, conn.group, g.services[s], s);
      }
    }
  }

  /**
   A session that ends without its clean-up, on a failed write or on a panic of the
   frame decoder, leaves the lifecycle property standing, for good, exactly when
   another connection of its client will still remove the client's session and each
   of its services. Another open connection alone is not enough: it may be past
   removing them.
   */
  lemma UncleanExitExactly(w: World, step: Step)
    requires Inv(w) && Can(w, step) && Unclean(step)
    ensures SafeForGood(Do(w, step)) <==> OthersCover(w, step.c)
  {
    CoverAfterUnclean(w, step);
    SafeForGoodExactly(Do(w, step));
  }

  /** A client whose session outlives it: the answer to its Hello cannot be written. */
  lemma FailedGreetingLeaks(group: Name, peer: EndpointId, now: Instant)
    ensures IsRun(Start({group}), [Hello(0, peer, group, now), FailedWrite(0)])
    ensures !Lifecycle(Run(Start({group}), [Hello(0, peer, group, now), FailedWrite(0)]))
  {
    var start, hello := Start({group}), Hello(0, peer, group, now);
    assert [] + [hello] == [hello] && [hello] + [FailedWrite(0)] == [hello, FailedWrite(0)];
    RunNext(start, [], hello);
    RunNext(start, [hello], FailedWrite(0));
    var w := Run(start, [hello, FailedWrite(0)]);
    assert peer in w.groups[group].sessions;
    assert forall c :: !IsOpen(w, c, group, peer);
  }

  // ---------------------------------------------------------------------
  // What the split costs
  // ---------------------------------------------------------------------

  /** The step registers `service` in `group`, for the peer of its connection. */
  predicate Sets(w: World, step: Step, group: Name, service: Name) {
    && step.RegisterService? && step.service == service && |service| <= 32
    && step.c in w.conns && w.conns[step.c].group == group
  }

  predicate Clears(w: World, step: Step, group: Name, service: Name) {
    || (step.RemoveService? && step.service == service && step.c in w.conns && w.conns[step.c].group == group)
    || (step.SweepService? && step.service == service && step.group == group)
  }

  lemma LookupAfterStep(w: World, step: Step, group: Name, service: Name)
    requires WellFormed(w) && Can(w, step)
    ensures Lookup(Do(w, step).groups, group, service) ==
      if Sets(w, step, group, service) then Some(w.conns[step.c].peer)
      else if Clears(w, step, group, service) then None
      else Lookup(w.groups, group, service)
  {
  }

  predicate Untouched(w: World, step: Step, group: Name, service: Name) {
    !Sets(w, step, group, service) && !Clears(w, step, group, service)
  }

  /** `ws` are the states that `steps` passes through. */
  ghost predicate IsTrace(ws: seq<World>, steps: seq<Step>) {
    |ws| == |steps| + 1 && forall m: nat :: m < |steps| ==> Follows(ws, steps, m)
  }

  ghost predicate Follows(ws: seq<World>, steps: seq<Step>, m: nat)
    requires m < |steps| && |ws| == |steps| + 1
  {
    WellFormed(ws[m]) && Can(ws[m], steps[m]) && ws[m + 1] == Do(ws[m], steps[m])
  }

  /** Step `k` gave `service` to a client other than `peer`, and no step before `j` has changed that. */
  predicate TakenOverAt(ws: seq<World>, steps: seq<Step>, k: nat, j: nat, group: Name, service: Name, peer: EndpointId)
    requires k < j <= |steps| && |ws| == |steps| + 1
  {
    && Sets(ws[k], steps[k], group, service) && ws[k].conns[steps[k].c].peer != peer
    && forall m: nat :: k < m < j ==> Untouched(ws[m], steps[m], group, service)
  }

  /** Between `i` and `j`, and up to `j`, `service` came into the hands of another client. */
  predicate TakenOver(ws: seq<World>, steps: seq<Step>, i: nat, j: nat, group: Name, service: Name, peer: EndpointId)
    requires j <= |steps| && |ws| == |steps| + 1
  {
    exists k: nat :: i <= k < j && TakenOverAt(ws, steps, k, j, group, service, peer)
  }

  lemma TakenOverNext(ws: seq<World>, steps: seq<Step>, i: nat, j: nat, group: Name, service: Name, peer: EndpointId)
    requires i <= j < |steps| && |ws| == |steps| + 1
    ensures TakenOver(ws, steps, i, j + 1, group, service, peer) <==>
        || (Sets(ws[j], steps[j], group, service) && ws[j].conns[steps[j].c].peer != peer)
        || (TakenOver(ws, steps, i, j, group, service, peer) && Untouched(ws[j], steps[j], group, service))
  {
    if Sets(ws[j], steps[j], group, service) && ws[j].conns[steps[j].c].peer != peer {
      assert TakenOverAt(ws, steps, j, j + 1, group, service, peer);
    }
    if TakenOver(ws, steps, i, j, group, service, peer) && Untouched(ws[j], steps[j], group, service) {
      var k: nat :| i <= k < j && TakenOverAt(ws, steps, k, j, group, service, peer);
      assert TakenOverAt(ws, steps, k, j + 1, group, service, peer);
    }
    if TakenOver(ws, steps, i, j + 1, group, service, peer) {
      var k: nat :| i <= k < j + 1 && TakenOverAt(ws, steps, k, j + 1, group, service, peer);
      if k < j {
        assert TakenOverAt(ws, steps, k, j, group, service, peer);
      }
    }
  }

  /** Someone other than `peer` provides `service`. */
  predicate Foreign(w: World, group: Name, service: Name, peer: EndpointId) {
    Lookup(w.groups, group, service).Some? && Lookup(w.groups, group, service) != Some(peer)
  }

  lemma ForeignNext(w: World, step: Step, group: Name, service: Name, peer: EndpointId)
    requires WellFormed(w) && Can(w, step)
    ensures Foreign(Do(w, step), group, service, peer) <==>
        || (Sets(w, step, group, service) && w.conns[step.c].peer != peer)
        || (Foreign(w, group, service, peer) && Untouched(w, step, group, service))
  {
    LookupAfterStep(w, step, group, service);
  }

  /** A service that `peer` provides at `i` is in other hands at `j` exactly when a step in between took it over. */
  lemma {:induction false} ForeignExactly(ws: seq<World>, steps: seq<Step>, i: nat, j: nat, group: Name, service: Name, peer: EndpointId)
    requires IsTrace(ws, steps) && i <= j <= |steps| && Lookup(ws[i].groups, group, service) == Some(peer)
    ensures Foreign(ws[j], group, service, peer) <==> TakenOver(ws, steps, i, j, group, service, peer)
    decreases j
  {
    if i < j {
      ForeignExactly(ws, steps, i, j - 1, group, service, peer);
      assert Follows(ws, steps, j - 1);
      ForeignNext(ws[j - 1], steps[j - 1], group, service, peer);
      TakenOverNext(ws, steps, i, j - 1, group, service, peer);
    }
  }

  /** Connection `c` is done, or still has some of `names` to remove. */
  predicate StillLeaving(w: World, c: nat, group: Name, peer: EndpointId, names: set<Name>) {
    && c in w.conns && w.conns[c].group == group && w.conns[c].peer == peer
    && (w.conns[c].phase.Closed? || (w.conns[c].phase.Collected? && w.conns[c].phase.pending <= names))
  }

  lemma LeavingStep(w: World, step: Step, c: nat, group: Name, peer: EndpointId, names: set<Name>)
    requires WellFormed(w) && Can(w, step) && StillLeaving(w, c, group, peer, names)
    ensures StillLeaving(Do(w, step), c, group, peer, names)
  {
  }

  /** Names leave the pending set of a leaving connection and never enter it. */
  lemma {:induction false} PendingOnlyShrinks(ws: seq<World>, steps: seq<Step>, i: nat, j: nat, c: nat, group: Name, peer: EndpointId, names: set<Name>)
    requires IsTrace(ws, steps) && i <= j <= |steps| && StillLeaving(ws[i], c, group, peer, names)
    ensures StillLeaving(ws[j], c, group, peer, names)
    decreases j
  {
    if i < j {
      PendingOnlyShrinks(ws, steps, i, j - 1, c, group, peer, names);
      assert Follows(ws, steps, j - 1);
      LeavingStep(ws[j - 1], steps[j - 1], c, group, peer, names);
    }
  }

  /**
   The split drop, over every interleaving of any steps: the removal of a collected
   name takes away another client's registration exactly when, since the
   collection, another client registered that name and no step has registered or
   removed it again.
   */
  lemma SplitDropTakesForeignExactly(ws: seq<World>, steps: seq<Step>, i: nat, j: nat, c: nat)
    requires IsTrace(ws, steps) && i < j < |steps|
    requires steps[i] == Collect(c) && steps[j].RemoveService? && steps[j].c == c
    ensures c in ws[i].conns
    ensures
      var conn, s := ws[i].conns[c], steps[j].service;
      Foreign(ws[j], conn.group, s, conn.peer) <==> TakenOver(ws, steps, i + 1, j, conn.group, s, conn.peer)
  {
    assert Follows(ws, steps, i) && Follows(ws, steps, j);
    var conn, s := ws[i].conns[c], steps[j].service;
    var names := Provided(ws[i].groups[conn.group], conn.peer);
    PendingOnlyShrinks(ws, steps, i + 1, j, c, conn.group, conn.peer, names);
    assert s in names;
    ForeignExactly(ws, steps, i + 1, j, conn.group, s, conn.peer);
  }

  ghost predicate Reachable(names: set<Name>, w: World) {
    exists steps :: IsRun(Start(names), steps)
      && CleanExits(steps) && Run(Start(names), steps) == w
  }

  lemma ReachNext(names: set<Name>, w: World, step: Step, w': World)
    requires Reachable(names, w) && WellFormed(w) && Can(w, step) && !Unclean(step) && w' == Do(w, step)
    ensures Reachable(names, w') && WellFormed(w')
  {
    var steps :| IsRun(Start(names), steps) && CleanExits(steps) && Run(Start(names), steps) == w;
    RunNext(Start(names), steps, step);
  }

  /** Two clients of one group. */
  function Two(group: Name, g: GroupState, c0: Conn, c1: Conn): World {
    World(map[group := g], map[0 := c0, 1 := c1])
  }

  lemma TwoUpdates(group: Name, g: GroupState, c0: Conn, c1: Conn, g': GroupState, phase: Phase)
    ensures SetGroup(Two(group, g, c0, c1), group, g') == Two(group, g', c0, c1)
    ensures To(Two(group, g, c0, c1), 0, phase) == Two(group, g, c0.(phase := phase), c1)
    ensures To(Two(group, g, c0, c1), 1, phase) == Two(group, g, c0, c1.(phase := phase))
  {
    assert map[group := g][group := g'] == map[group := g'];
    var conns := map[0 := c0, 1 := c1];
    assert conns[0 := c0.(phase := phase)] == map[0 := c0.(phase := phase), 1 := c1];
    assert conns[1 := c1.(phase := phase)] == map[0 := c0, 1 := c1.(phase := phase)];
  }

  /** One step of client `k`, which changes the group to `g'`. */
  lemma Goes(group: Name, g: GroupState, c0: Conn, c1: Conn, k: nat, step: Step, g': GroupState, phase: Phase)
    requires k < 2 && c0.group == group && c1.group == group && !Unclean(step)
    requires Reachable({group}, Two(group, g, c0, c1)) && Can(Two(group, g, c0, c1), step)
    requires
      var w := Two(group, g, c0, c1);
      Do(w, step) == To(if g' == g then w else SetGroup(w, group, g'), k, phase)
    ensures Reachable({group}, Two(group, g', if k == 0 then c0.(phase := phase) else c0,
                                              if k == 1 then c1.(phase := phase) else c1))
  {
    TwoUpdates(group, g, c0, c1, g', phase);
    TwoUpdates(group, g', c0, c1, g', phase);
    var w := Two(group, g, c0, c1);
    ReachNext({group}, w, step, Do(w, step));
  }

  lemma BothGreeting(group: Name, p: EndpointId, q: EndpointId, now: Instant)
    ensures Reachable({group}, Two(group, GroupState(map[p := now, q := now], map[]),
                                   Conn(p, group, Greeting), Conn(q, group, Greeting)))
  {
    var names := {group};
    var w0 := Start(names);
    assert IsRun(w0, []) && Run(w0, []) == w0;
    var g1 := GroupState(map[p := now], map[]);
    assert w0.groups == map[group := EmptyGroup] && map[group := EmptyGroup][group := g1] == map[group := g1];
    var w1 := World(map[group := g1], map[0 := Conn(p, group, Greeting)]);
    ReachNext(names, w0, Hello(0, p, group, now), w1);
    var g2 := GroupState(map[p := now, q := now], map[]);
    assert map[p := now][q := now] == map[p := now, q := now];
    assert map[group := g1][group := g2] == map[group := g2];
    ReachNext(names, w1, Hello(1, q, group, now), Two(group, g2, Conn(p, group, Greeting), Conn(q, group, Greeting)));
  }

  /** `p` has left its loop and collected `s`, and `q` has just registered `s`. */
  function Replaced(group: Name, s: Name, p: EndpointId, q: EndpointId, now: Instant): World {
    Two(group, GroupState(map[q := now], map[s := q]), Conn(p, group, Collected({s})), Conn(q, group, Replying))
  }

  lemma BothServing(group: Name, p: EndpointId, q: EndpointId, now: Instant)
    ensures Reachable({group}, Two(group, GroupState(map[p := now, q := now], map[]),
                                   Conn(p, group, Serving), Conn(q, group, Serving)))
  {
    var g := GroupState(map[p := now, q := now], map[]);
    BothGreeting(group, p, q, now);
    Goes(group, g, Conn(p, group, Greeting), Conn(q, group, Greeting), 0, HelloAnswered(0), g, Serving);
    Goes(group, g, Conn(p, group, Serving), Conn(q, group, Greeting), 1, HelloAnswered(1), g, Serving);
  }

  lemma FirstRegistered(group: Name, s: Name, p: EndpointId, q: EndpointId, now: Instant)
    requires p != q && |s| <= MAX_SERVICE_NAME
    ensures Reachable({group}, Two(group, GroupState(map[p := now, q := now], map[s := p]),
                                   Conn(p, group, Replying), Conn(q, group, Serving)))
  {
    var g, g' := GroupState(map[p := now, q := now], map[]), GroupState(map[p := now, q := now], map[s := p]);
    BothServing(group, p, q, now);
    Goes(group, g, Conn(p, group, Serving), Conn(q, group, Serving), 0, RegisterService(0, s), g', Replying);
  }

  lemma FirstLeaving(group: Name, s: Name, p: EndpointId, q: EndpointId, now: Instant)
    requires p != q && |s| <= MAX_SERVICE_NAME
    ensures Reachable({group}, Two(group, GroupState(map[p := now, q := now], map[s := p]),
                                   Conn(p, group, Leaving), Conn(q, group, Serving)))
  {
    var g := GroupState(map[p := now, q := now], map[s := p]);
    FirstRegistered(group, s, p, q, now);
    Goes(group, g, Conn(p, group, Replying), Conn(q, group, Serving), 0, Answered(0), g, Serving);
    Goes(group, g, Conn(p, group, Serving), Conn(q, group, Serving), 0, Break(0), g, Leaving);
  }

  lemma FirstCollected(group: Name, s: Name, p: EndpointId, q: EndpointId, now: Instant)
    requires p != q && |s| <= MAX_SERVICE_NAME
    ensures Reachable({group}, Two(group, GroupState(map[q := now], map[s := p]),
                                   Conn(p, group, Collected({s})), Conn(q, group, Serving)))
  {
    var g, left := GroupState(map[p := now, q := now], map[s := p]), GroupState(map[q := now], map[s := p]);
    var other := Conn(q, group, Serving);
    FirstLeaving(group, s, p, q, now);
    assert g.sessions - {p} == left.sessions;
    Goes(group, g, Conn(p, group, Leaving), other, 0, RemoveSession(0), left, SessionRemoved);
    assert Provided(left, p) == {s};
    Goes(group, left, Conn(p, group, SessionRemoved), other, 0, Collect(0), left, Collected({s}));
  }

  lemma ReplacedReachable(group: Name, s: Name, p: EndpointId, q: EndpointId, now: Instant)
    requires p != q && |s| <= MAX_SERVICE_NAME
    ensures Reachable({group}, Replaced(group, s, p, q, now))
  {
    var left, taken := GroupState(map[q := now], map[s := p]), GroupState(map[q := now], map[s := q]);
    FirstCollected(group, s, p, q, now);
    assert map[s := p][s := q] == map[s := q];
    Goes(group, left, Conn(p, group, Collected({s})), Conn(q, group, Serving), 1, RegisterService(1, s), taken, Replying);
  }

  /**
   The split drop can lose a registration that nothing dropped: the collected name
   is removed although its latest registration was by someone else.
   */
  lemma SplitDropLosesRegistration(group: Name, s: Name, p: EndpointId, q: EndpointId, now: Instant)
    requires p != q && |s| <= MAX_SERVICE_NAME
    ensures
      var w := Replaced(group, s, p, q, now);
      && Reachable({group}, w)
      && Lookup(w.groups, group, s) == Some(q)
      && Can(w, RemoveService(0, s))
      && Lookup(Do(w, RemoveService(0, s)).groups, group, s) == None
      && IsOpen(Do(w, RemoveService(0, s)), 1, group, q)
  {
    ReplacedReachable(group, s, p, q, now);
  }

  // ---------------------------------------------------------------------
  // A connection that does not help
  // ---------------------------------------------------------------------

  lemma FirstOfTwoLeaves(group: Name, p: EndpointId, now: Instant)
    ensures Reachable({group}, Two(group, GroupState(map[p := now], map[]), Conn(p, group, Leaving), Conn(p, group, Serving)))
  {
    var g := GroupState(map[p := now], map[]);
    BothServing(group, p, p, now);
    assert map[p := now, p := now] == map[p := now];
    Goes(group, g, Conn(p, group, Serving), Conn(p, group, Serving), 0, Break(0), g, Leaving);
  }

  /** The first connection of a client with two has left its loop and found nothing to remove. */
  lemma EmptyHanded(group: Name, p: EndpointId, now: Instant)
    ensures Reachable({group}, Two(group, EmptyGroup, Conn(p, group, Collected({})), Conn(p, group, Serving)))
  {
    var g := GroupState(map[p := now], map[]);
    FirstOfTwoLeaves(group, p, now);
    assert g.sessions - {p} == map[];
    Goes(group, g, Conn(p, group, Leaving), Conn(p, group, Serving), 0, RemoveSession(0), EmptyGroup, SessionRemoved);
    assert Provided(EmptyGroup, p) == {};
    Goes(group, EmptyGroup, Conn(p, group, SessionRemoved), Conn(p, group, Serving), 0, Collect(0), EmptyGroup, Collected({}));
  }

  /** The second connection registers `s` meanwhile. */
  function Late(group: Name, s: Name, p: EndpointId): World {
    Two(group, GroupState(map[], map[s := p]), Conn(p, group, Collected({})), Conn(p, group, Replying))
  }

  lemma LateReachable(group: Name, s: Name, p: EndpointId, now: Instant)
    requires |s| <= MAX_SERVICE_NAME
    ensures Reachable({group}, Late(group, s, p))
  {
    EmptyHanded(group, p, now);
    Goes(group, EmptyGroup, Conn(p, group, Collected({})), Conn(p, group, Serving), 1, RegisterService(1, s),
         GroupState(map[], map[s := p]), Replying);
  }

  lemma LateIsCoveredOnce(group: Name, s: Name, p: EndpointId)
    ensures Inv(Late(group, s, p)) && !OthersCover(Late(group, s, p), 1)
  {
    var w := Late(group, s, p);
    assert WillRemoveService(w, 1, group, p, s);
    assert forall d :: d != 1 ==> !WillRemoveService(w, d, group, p, s);
    assert s in w.groups[group].services && w.groups[group].services[s] == p;
  }

  /**
   A client's first connection is closing while its second registers a service and
   fails to write the answer. The first is still open then, but it will not remove
   the service.
   */
  lemma OpenConnectionIsNotEnough(group: Name, s: Name, p: EndpointId, now: Instant)
    requires |s| <= MAX_SERVICE_NAME
    ensures
      var w := Late(group, s, p);
      && Reachable({group}, w) && WellFormed(w) && Can(w, FailedWrite(1))
      && IsOpen(Do(w, FailedWrite(1)), 0, group, p) && !SafeForGood(Do(w, FailedWrite(1)))
  {
    LateReachable(group, s, p, now);
    LateIsCoveredOnce(group, s, p);
    UncleanExitExactly(Late(group, s, p), FailedWrite(1));
  }

  // ---------------------------------------------------------------------
  // What the registry holds, read off the trace
  // ---------------------------------------------------------------------

  /** The step says that `client` was alive at `at`: its Hello, or a heartbeat of one of its connections. */
  predicate Stamps(w: World, step: Step, group: Name, client: EndpointId, at: Instant) {
    || (step.Hello? && step.group == group && step.peer == client && step.now == at)
    || (step.Heartbeat? && step.now == at
        && step.c in w.conns && w.conns[step.c].group == group && w.conns[step.c].peer == client)
  }

  predicate StampsAny(w: World, step: Step, group: Name, client: EndpointId) {
    (step.Hello? || step.Heartbeat?) && Stamps(w, step, group, client, step.now)
  }

  predicate Ends(w: World, step: Step, group: Name, client: EndpointId) {
    || (step.RemoveSession? && step.c in w.conns && w.conns[step.c].group == group && w.conns[step.c].peer == client)
    || step == SweepSession(group, client)
  }

  lemma HeartbeatAfterStep(w: World, step: Step, group: Name, client: EndpointId)
    requires WellFormed(w) && Can(w, step)
    ensures LastHeartbeat(Do(w, step).groups, group, client) ==
      if StampsAny(w, step, group, client) then Some(step.now)
      else if Ends(w, step, group, client) then None
      else LastHeartbeat(w.groups, group, client)
  {
  }

  /** Step `k` stamps `client` with `at`, and no step before `j` stamps it again or ends its session. */
  predicate StampedAt(ws: seq<World>, steps: seq<Step>, k: nat, j: nat, group: Name, client: EndpointId, at: Instant)
    requires k < j <= |steps| && |ws| == |steps| + 1
  {
    && Stamps(ws[k], steps[k], group, client, at)
    && forall m: nat :: k < m < j ==> !StampsAny(ws[m], steps[m], group, client) && !Ends(ws[m], steps[m], group, client)
  }

  predicate Stamped(ws: seq<World>, steps: seq<Step>, j: nat, group: Name, client: EndpointId, at: Instant)
    requires j <= |steps| && |ws| == |steps| + 1
  {
    exists k: nat :: k < j && StampedAt(ws, steps, k, j, group, client, at)
  }

  lemma StampedNext(ws: seq<World>, steps: seq<Step>, j: nat, group: Name, client: EndpointId, at: Instant)
    requires j < |steps| && |ws| == |steps| + 1
    ensures Stamped(ws, steps, j + 1, group, client, at) <==>
        if StampsAny(ws[j], steps[j], group, client) then steps[j].now == at
        else Stamped(ws, steps, j, group, client, at) && !Ends(ws[j], steps[j], group, client)
  {
    if StampsAny(ws[j], steps[j], group, client) && steps[j].now == at {
      assert StampedAt(ws, steps, j, j + 1, group, client, at);
    }
    if Stamped(ws, steps, j, group, client, at)
      && !StampsAny(ws[j], steps[j], group, client) && !Ends(ws[j], steps[j], group, client) {
      var k: nat :| k < j && StampedAt(ws, steps, k, j, group, client, at);
      assert StampedAt(ws, steps, k, j + 1, group, client, at);
    }
    if Stamped(ws, steps, j + 1, group, client, at) {
      var k: nat :| k < j + 1 && StampedAt(ws, steps, k, j + 1, group, client, at);
      assert k < j ==> StampedAt(ws, steps, k, j, group, client, at);
    }
  }

  /**
   Over every interleaving, a client's session holds the time of its latest Hello or
   heartbeat, by any of its connections, unless a clean-up or a sweep has ended it since.
   */
  lemma {:induction false} SessionHoldsLatestStamp(names: set<Name>, ws: seq<World>, steps: seq<Step>, j: nat,
                                                   group: Name, client: EndpointId, at: Instant)
    requires IsTrace(ws, steps) && ws[0] == Start(names) && j <= |steps|
    ensures LastHeartbeat(ws[j].groups, group, client) == Some(at) <==> Stamped(ws, steps, j, group, client, at)
    decreases j
  {
    if j > 0 {
      SessionHoldsLatestStamp(names, ws, steps, j - 1, group, client, at);
      assert Follows(ws, steps, j - 1);
      HeartbeatAfterStep(ws[j - 1], steps[j - 1], group, client);
      StampedNext(ws, steps, j - 1, group, client, at);
    }
  }

  /** Step `k` registers `service` for `peer`, and no step before `j` registers or removes it. */
  predicate SetAt(ws: seq<World>, steps: seq<Step>, k: nat, j: nat, group: Name, service: Name, peer: EndpointId)
    requires k < j <= |steps| && |ws| == |steps| + 1
  {
    && Sets(ws[k], steps[k], group, service) && ws[k].conns[steps[k].c].peer == peer
    && forall m: nat :: k < m < j ==> Untouched(ws[m], steps[m], group, service)
  }

  predicate IsSet(ws: seq<World>, steps: seq<Step>, j: nat, group: Name, service: Name, peer: EndpointId)
    requires j <= |steps| && |ws| == |steps| + 1
  {
    exists k: nat :: k < j && SetAt(ws, steps, k, j, group, service, peer)
  }

  lemma IsSetNext(ws: seq<World>, steps: seq<Step>, j: nat, group: Name, service: Name, peer: EndpointId)
    requires j < |steps| && |ws| == |steps| + 1
    ensures IsSet(ws, steps, j + 1, group, service, peer) <==>
        if Sets(ws[j], steps[j], group, service) then ws[j].conns[steps[j].c].peer == peer
        else IsSet(ws, steps, j, group, service, peer) && !Clears(ws[j], steps[j], group, service)
  {
    if Sets(ws[j], steps[j], group, service) && ws[j].conns[steps[j].c].peer == peer {
      assert SetAt(ws, steps, j, j + 1, group, service, peer);
    }
    if IsSet(ws, steps, j, group, service, peer) && Untouched(ws[j], steps[j], group, service) {
      var k: nat :| k < j && SetAt(ws, steps, k, j, group, service, peer);
      assert SetAt(ws, steps, k, j + 1, group, service, peer);
    }
    if IsSet(ws, steps, j + 1, group, service, peer) {
      var k: nat :| k < j + 1 && SetAt(ws, steps, k, j + 1, group, service, peer);
      assert k < j ==> SetAt(ws, steps, k, j, group, service, peer);
    }
  }

  /**
   Over every interleaving, a name resolves to the client that registered it last
   with a name of at most 32 bytes, unless a removal has taken it away since.
   */
  lemma {:induction false} LookupFindsLatestRegistration(names: set<Name>, ws: seq<World>, steps: seq<Step>, j: nat,
                                                         group: Name, service: Name, peer: EndpointId)
    requires IsTrace(ws, steps) && ws[0] == Start(names) && j <= |steps|
    ensures Lookup(ws[j].groups, group, service) == Some(peer) <==> IsSet(ws, steps, j, group, service, peer)
    decreases j
  {
    if j > 0 {
      LookupFindsLatestRegistration(names, ws, steps, j - 1, group, service, peer);
      assert Follows(ws, steps, j - 1);
      LookupAfterStep(ws[j - 1], steps[j - 1], group, service);
      IsSetNext(ws, steps, j - 1, group, service, peer);
    }
  }

  // ---------------------------------------------------------------------
  // Where a connection is
  // ---------------------------------------------------------------------

  /** The step is one of connection `c`. */
  predicate Own(step: Step, c: nat) {
    !step.SweepSession? && !step.SweepService? && step.c == c
  }

  /** Steps whose answer is still to be written: a Hello, an accepted registration, a lookup. */
  predicate Owes(step: Step) {
    step.Hello? || step.LookUp? || (step.RegisterService? && |step.service| <= 32)
  }

  /** Steps behind which the next command is read. */
  predicate Resumes(step: Step) {
    step.HelloAnswered? || step.Answered? || step.Heartbeat? || (step.RegisterService? && |step.service| > 32)
  }

  lemma {:induction false} StaysWhere(ws: seq<World>, steps: seq<Step>, i: nat, j: nat, c: nat)
    requires IsTrace(ws, steps) && i <= j <= |steps| && forall m: nat :: i <= m < j ==> !Own(steps[m], c)
    ensures c in ws[j].conns <==> c in ws[i].conns
    ensures c in ws[j].conns ==> ws[j].conns[c] == ws[i].conns[c]
    decreases j
  {
    if i < j {
      StaysWhere(ws, steps, i, j - 1, c);
      assert Follows(ws, steps, j - 1);
    }
  }

  lemma StepPlaces(w: World, step: Step, c: nat)
    requires WellFormed(w) && Can(w, step) && Own(step, c)
    ensures
      var w' := Do(w, step);
      && c in w'.conns
      && (w'.conns[c].phase.Greeting? || w'.conns[c].phase.Replying? <==> Owes(step))
      && (w'.conns[c].phase.Serving? <==> Resumes(step))
  {
  }

  /**
   Over every interleaving, the last step of a connection says where it is: an
   answer is due, and may fail, exactly behind a Hello, an accepted registration or
   a lookup; commands are read exactly behind an answer, a heartbeat or a refused
   registration.
   */
  lemma LastStepDecides(ws: seq<World>, steps: seq<Step>, k: nat, j: nat, c: nat)
    requires IsTrace(ws, steps) && k < j <= |steps| && Own(steps[k], c)
    requires forall m: nat :: k < m < j ==> !Own(steps[m], c)
    ensures WellFormed(ws[j - 1]) && c in ws[j].conns
    ensures Can(ws[j], FailedWrite(c)) <==> Owes(steps[k])
    ensures Can(ws[j], Break(c)) <==> Resumes(steps[k])
  {
    assert Follows(ws, steps, k) && Follows(ws, steps, j - 1);
    StepPlaces(ws[k], steps[k], c);
    StaysWhere(ws, steps, k + 1, j, c);
  }
}
