/**
 The relay as a byte pipe: what `copy_bidirectional` keeps between the two
 streams of a tunnel, for any traffic, any chunking and any interleaving of the
 four endpoints, with copy errors in either direction.
 */
module RelayPipe {
  import opened Bytes
  import opened Options
  import opened Frames

  datatype End = Running | Ended | Broken

  /**
   One direction. `wrote` and `got` are histories: everything the source has
   written since the `DataOpen`, everything the destination has read. `arriving`
   and `leaving` are the channels on the two sides of the relay, `held` is the
   chunk it has read and not yet written, `count` the total it will report.
   */
  datatype Pipe = Pipe(
    wrote: Bytes, closed: bool, arriving: Bytes, held: Bytes, leaving: Bytes, got: Bytes,
    count: nat, end: End)

  datatype Tunnel = Tunnel(request: Pipe, reply: Pipe, result: Option<Option<(nat, nat)>>)

  datatype Direction = Request | Reply

  datatype Step =
    | Write(dir: Direction, data: Bytes)
    | Close(dir: Direction)
    | RelayRead(dir: Direction, n: nat)
    | RelayWrite(dir: Direction)
    | RelayEnd(dir: Direction)
    | RelayBreak(dir: Direction, part: nat)
    | Receive(dir: Direction, n: nat)
    | Return

  function Fresh(queued: Bytes): Pipe {
    Pipe(queued, false, queued, [], [], [], 0, Running)
  }

  /** The tunnel when copying starts: the consumer may already have written past its `DataOpen`. */
  function Start(queued: Bytes): Tunnel {
    Tunnel(Fresh(queued), Fresh([]), None)
  }

  function Side(t: Tunnel, dir: Direction): Pipe {
    if dir.Request? then t.request else t.reply
  }

  function WithSide(t: Tunnel, dir: Direction, p: Pipe): Tunnel {
    if dir.Request? then t.(request := p) else t.(reply := p)
  }

  predicate Can(t: Tunnel, step: Step) {
    match step
    case Write(dir, _) => !Side(t, dir).closed
    case Close(dir) => !Side(t, dir).closed
    case RelayRead(dir, n) =>
      Side(t, dir).end.Running? && Side(t, dir).held == [] && 0 < n <= |Side(t, dir).arriving|
    case RelayWrite(dir) => Side(t, dir).end.Running? && Side(t, dir).held != []
    case RelayEnd(dir) =>
      var p := Side(t, dir);
      p.end.Running? && p.closed && p.arriving == [] && p.held == []
    case RelayBreak(dir, part) => Side(t, dir).end.Running? && part <= |Side(t, dir).held|
    case Receive(dir, n) => 0 < n <= |Side(t, dir).leaving|
    case Return => !t.request.end.Running? && !t.reply.end.Running? && t.result.None?
  }

  /**
   A copy that breaks in a write may have forwarded part of the chunk it held.
   `tokio::join!` waits for both copies; the first `?` that fails drops both counts.
   */
  function Do(t: Tunnel, step: Step): Tunnel
    requires Can(t, step)
  {
    match step
    case Write(dir, data) =>
      var p := Side(t, dir);
      WithSide(t, dir, p.(wrote := p.wrote + data, arriving := p.arriving + data))
    case Close(dir) => WithSide(t, dir, Side(t, dir).(closed := true))
    case RelayRead(dir, n) =>
      var p := Side(t, dir);
      WithSide(t, dir, p.(held := p.arriving[..n], arriving := p.arriving[n..]))
    case RelayWrite(dir) =>
      var p := Side(t, dir);
      WithSide(t, dir, p.(leaving := p.leaving + p.held, held := [], count := p.count + |p.held|))
    case RelayEnd(dir) => WithSide(t, dir, Side(t, dir).(end := Ended))
    case RelayBreak(dir, part) =>
      var p := Side(t, dir);
      WithSide(t, dir, p.(end := Broken, leaving := p.leaving + p.held[..part], held := p.held[part..]))
    case Receive(dir, n) =>
      var p := Side(t, dir);
      WithSide(t, dir, p.(got := p.got + p.leaving[..n], leaving := p.leaving[n..]))
    case Return =>
      t.(result := Some(if t.request.end.Ended? && t.reply.end.Ended?
                        then Some((t.request.count, t.reply.count)) else None))
  }

  /** Nothing is lost, repeated, reordered or invented, and unless it broke the count is what has been forwarded. */
  predicate Conserves(p: Pipe) {
    && p.wrote == p.got + p.leaving + p.held + p.arriving
    && p.count <= |p.got| + |p.leaving|
    && (!p.end.Broken? ==> p.count == |p.got| + |p.leaving|)
    && (p.end.Ended? ==> p.closed && p.held == [] && p.arriving == [])
  }

  predicate Inv(t: Tunnel) {
    && Conserves(t.request) && Conserves(t.reply)
    && (t.result.Some? ==>
          && !t.request.end.Running? && !t.reply.end.Running?
          && (t.result.value.Some? <==> t.request.end.Ended? && t.reply.end.Ended?)
          && (t.result.value.Some? ==> t.result.value.value == (t.request.count, t.reply.count)))
  }

  lemma WriteConserves(p: Pipe, data: Bytes)
    requires Conserves(p) && !p.closed
    ensures Conserves(p.(wrote := p.wrote + data, arriving := p.arriving + data))
  {
    assert p.got + p.leaving + p.held + (p.arriving + data) == p.got + p.leaving + p.held + p.arriving + data;
  }

  lemma ReadConserves(p: Pipe, n: nat)
    requires Conserves(p) && p.end.Running? && p.held == [] && n <= |p.arriving|
    ensures Conserves(p.(held := p.arriving[..n], arriving := p.arriving[n..]))
  {
    assert p.arriving == p.arriving[..n] + p.arriving[n..];
    assert p.wrote == p.got + p.leaving + p.arriving[..n] + p.arriving[n..];
  }

  /** Forwarding the first `n` held bytes, all of them or as many as a failing write managed. */
  lemma ForwardConserves(p: Pipe, n: nat)
    requires Conserves(p) && n <= |p.held|
    ensures p.wrote == p.got + (p.leaving + p.held[..n]) + p.held[n..] + p.arriving
  {
    assert p.held == p.held[..n] + p.held[n..];
    assert p.got + (p.leaving + p.held[..n]) + p.held[n..] == p.got + p.leaving + p.held;
  }

  lemma ReceiveConserves(p: Pipe, n: nat)
    requires Conserves(p) && n <= |p.leaving|
    ensures Conserves(p.(got := p.got + p.leaving[..n], leaving := p.leaving[n..]))
  {
    assert p.leaving == p.leaving[..n] + p.leaving[n..];
    assert p.got + p.leaving[..n] + p.leaving[n..] == p.got + p.leaving;
  }

  lemma PipeStep(t: Tunnel, step: Step)
    requires Inv(t) && Can(t, step) && !step.Return?
    ensures Conserves(Side(Do(t, step), step.dir))
  {
    var p := Side(t, step.dir);
    match step {
      case Write(_, data) => WriteConserves(p, data);
      case RelayRead(_, n) => ReadConserves(p, n);
      case RelayWrite(_) =>
        ForwardConserves(p, |p.held|);
        assert p.held[..|p.held|] == p.held && p.held[|p.held|..] == [];
      case RelayBreak(_, part) => ForwardConserves(p, part);
      case Receive(_, n) => ReceiveConserves(p, n);
      case _ =>
    }
  }

  lemma StepKeepsInv(t: Tunnel, step: Step)
    requires Inv(t) && Can(t, step)
    ensures Inv(Do(t, step))
  {
    if !step.Return? {
      PipeStep(t, step);
    }
  }

  predicate IsRun(queued: Bytes, steps: seq<Step>)
    decreases |steps|, 0
  {
    steps != [] ==>
      var before := steps[..|steps| - 1];
      IsRun(queued, before) && Can(Run(queued, before), steps[|steps| - 1])
  }

  function Run(queued: Bytes, steps: seq<Step>): Tunnel
    requires IsRun(queued, steps)
    decreases |steps|, 1
  {
    if steps == [] then Start(queued) else Do(Run(queued, steps[..|steps| - 1]), steps[|steps| - 1])
  }

  lemma {:induction false} InvOfRuns(queued: Bytes, steps: seq<Step>)
    requires IsRun(queued, steps)
    ensures Inv(Run(queued, steps))
  {
    if steps != [] {
      var before := steps[..|steps| - 1];
      InvOfRuns(queued, before);
      StepKeepsInv(Run(queued, before), steps[|steps| - 1]);
    } else {
      assert queued == [] + [] + [] + queued;
    }
  }

  /**
   Transparency: at every point of every run each side has read a prefix of what
   the other wrote. Once the relay has returned it reports counts exactly when
   neither copy broke, and then they are what each side wrote, all of it forwarded.
   */
  lemma RelayIsTransparent(queued: Bytes, steps: seq<Step>)
    requires IsRun(queued, steps)
    ensures
      var t := Run(queued, steps);
      && t.request.got <= t.request.wrote
      && t.reply.got <= t.reply.wrote
      && (t.result.Some? ==> (t.result.value.Some? <==> !t.request.end.Broken? && !t.reply.end.Broken?))
      && (t.result.Some? && t.result.value.Some? ==>
            && t.result.value.value == (|t.request.wrote|, |t.reply.wrote|)
            && t.request.wrote == t.request.got + t.request.leaving
            && t.reply.wrote == t.reply.got + t.reply.leaving)
  {
    InvOfRuns(queued, steps);
    var t := Run(queued, steps);
    PrefixOf(t.request);
    PrefixOf(t.reply);
  }

  lemma PrefixOf(p: Pipe)
    requires Conserves(p)
    ensures p.got <= p.wrote
    ensures p.end.Ended? ==> p.wrote == p.got + p.leaving && p.count == |p.wrote|
  {
    assert p.wrote == p.got + (p.leaving + p.held + p.arriving);
  }

  // ---------------------------------------------------------------------
  // Delivery
  // ---------------------------------------------------------------------

  /** A step of the relay or of a reading end; the others are traffic and faults. */
  predicate Moves(step: Step) {
    step.RelayRead? || step.RelayWrite? || step.RelayEnd? || step.Receive? || step.Return?
  }

  function PipeWork(p: Pipe): nat {
    3 * |p.arriving| + 2 * |p.held| + |p.leaving| + if p.end.Running? then 1 else 0
  }

  /** What there is left to move. */
  function Work(t: Tunnel): nat {
    PipeWork(t.request) + PipeWork(t.reply) + if t.result.None? then 1 else 0
  }

  lemma MovesLowerWork(t: Tunnel, step: Step)
    requires Can(t, step) && Moves(step)
    ensures Work(Do(t, step)) < Work(t)
  {
  }

  /** No step but more traffic and faults is possible. */
  ghost predicate Quiet(t: Tunnel) {
    forall step :: Moves(step) ==> !Can(t, step)
  }

  lemma QuietPipe(t: Tunnel, dir: Direction)
    requires Inv(t) && Quiet(t)
    ensures
      var p := Side(t, dir);
      && p.leaving == []
      && (p.end.Running? ==> p.held == [] && p.arriving == [] && !p.closed)
      && (!p.end.Broken? ==> p.got == p.wrote)
  {
    var p := Side(t, dir);
    assert !Can(t, Receive(dir, |p.leaving|));
    assert !Can(t, RelayRead(dir, |p.arriving|)) && !Can(t, RelayWrite(dir)) && !Can(t, RelayEnd(dir));
    PrefixOf(p);
  }

  /**
   Delivery: moving is bounded by the work in hand (`MovesLowerWork`), and when all
   is quiet each side that did not break has delivered everything that was written.
   If both sides are closed by then, the relay has returned, with the exact counts
   unless one broke.
   */
  lemma QuietMeansDelivered(queued: Bytes, steps: seq<Step>)
    requires IsRun(queued, steps) && Quiet(Run(queued, steps))
    ensures
      var t := Run(queued, steps);
      && (!t.request.end.Broken? ==> t.request.got == t.request.wrote)
      && (!t.reply.end.Broken? ==> t.reply.got == t.reply.wrote)
      && (t.request.closed && t.reply.closed ==>
            && t.result.Some?
            && (!t.request.end.Broken? && !t.reply.end.Broken? ==>
                  t.result.value == Some((|t.request.wrote|, |t.reply.wrote|))))
  {
    InvOfRuns(queued, steps);
    var t := Run(queued, steps);
    QuietPipe(t, Request);
    QuietPipe(t, Reply);
    assert !Can(t, Return);
    RelayIsTransparent(queued, steps);
  }

  /** The relay takes exactly the `DataOpen` off the consumer's stream before it starts copying. */
  lemma CopyingStartsBehindDataOpen(j: Json, open: Frame, behind: Bytes)
    requires j.Lawful() && open.DataOpen? && Writable(j, open)
    ensures
      var r := ReadFrame(j, FrameBytes(j, open).value + behind);
      r.out == Ok(open) && Start(r.rest).request.wrote == behind
  {
    FrameRoundTrip(j, open, behind);
  }
}
