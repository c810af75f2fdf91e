/**
 `copy_throttled`: read a chunk, acquire its size from the bucket, write it on.

 The environment decides how the input is cut into chunks of 1 to 16384 bytes and
 how the copy ends: at end of file, on a read error behind the last chunk, on a
 failing flush, or on a write of the last chunk that fails after some of its bytes.
 */
module ThrottledCopy {
  import opened Bytes
  import opened RateLimit
  import opened Throughput

  datatype Ending = EndOfFile | ReadError | FlushError | WriteError(part: nat)

  datatype CopyOutcome = Done(total: nat) | Failed | Blocked

  /** How the copy ended, what the writer has seen, and when. */
  datatype Copy = Copy(outcome: CopyOutcome, written: Bytes, now: real)

  /** The ways `reader.read` may hand out its input. */
  predicate Readable(chunks: seq<Bytes>) {
    forall i :: 0 <= i < |chunks| ==> 1 <= |chunks[i]| <= BUFFER
  }

  function Concat(chunks: seq<Bytes>): Bytes {
    if chunks == [] then [] else chunks[0] + Concat(chunks[1..])
  }

  /** What a failing `write_all` of `chunk` has forwarded. */
  function Part(chunk: Bytes, part: nat): Bytes {
    if part < |chunk| then chunk[..part] else chunk
  }

  function CopyLoop(chunks: seq<Bytes>, ending: Ending, b: Tokens, now: real, ticks: seq<Tick>,
                    written: Bytes, total: nat): Copy
    decreases |chunks|
  {
    if chunks == [] then
      Copy(if ending.EndOfFile? then Done(total) else Failed, written, now)
    else
      var a := Acquire(b, now, |chunks[0]|, ticks);
      if !a.returned then Copy(Blocked, written, a.now)
      else if |chunks| == 1 && ending.WriteError? then Copy(Failed, written + Part(chunks[0], ending.part), a.now)
      else CopyLoop(chunks[1..], ending, a.tokens, a.now, a.left, written + chunks[0], total + |chunks[0]|)
  }

  /** The first load sizes the initial burst. */
  function CopyThrottled(chunks: seq<Bytes>, ending: Ending, now: real, ticks: seq<Tick>): Copy {
    if ticks == [] then Copy(Blocked, [], now)
    else
      var now1 := now + ticks[0].lag;
      CopyLoop(chunks, ending, Tokens(ticks[0].bps as real, now1), now1, ticks[1..], [], 0)
  }

  method RunCopyThrottled(env: Environment, chunks: seq<Bytes>, ending: Ending)
    returns (outcome: CopyOutcome, written: Bytes)
    modifies env
    ensures Copy(outcome, written, env.now) == CopyThrottled(chunks, ending, old(env.now), old(env.ticks))
  {
    if env.ticks == [] {
      return Blocked, [];
    }
    var initial := env.Load();
    var bucket := new Bucket(initial, env.now);
    var total: nat := 0;
    written := [];
    var k := 0;
    ghost var goal := CopyLoop(chunks, ending, bucket.View(), env.now, env.ticks, [], 0);
    assert chunks[0..] == chunks;
    while k < |chunks|
      invariant 0 <= k <= |chunks|
      invariant goal == CopyLoop(chunks[k..], ending, bucket.View(), env.now, env.ticks, written, total)
    {
      assert chunks[k..][0] == chunks[k] && chunks[k..][1..] == chunks[k + 1..];
      var returned := bucket.TryAcquire(env, |chunks[k]|);
      if !returned {
        return Blocked, written;
      }
      if k + 1 == |chunks| && ending.WriteError? {
        return Failed, written + Part(chunks[k], ending.part);
      }
      written := written + chunks[k];
      total := total + |chunks[k]|;
      k := k + 1;
    }
    if ending != EndOfFile {
      return Failed, written;
    }
    return Done(total), written;
  }

  /** The requests that the copy makes of the bucket. */
  function Sizes(chunks: seq<Bytes>): seq<nat> {
    seq(|chunks|, i requires 0 <= i < |chunks| => |chunks[i]|)
  }

  /** What `ending` makes of a copy that got through all its chunks. */
  function EndsAs(ending: Ending, total: nat): CopyOutcome {
    if ending.EndOfFile? then Done(total) else Failed
  }

  /** What a copy has written when its last write fails. */
  function CutShort(chunks: seq<Bytes>, part: nat): Bytes
    requires chunks != []
  {
    var last := chunks[|chunks| - 1];
    Concat(chunks[..|chunks| - 1]) + Part(last, part)
  }

  lemma {:induction false} LoopIsServe(chunks: seq<Bytes>, ending: Ending, b: Tokens, now: real,
                                       ticks: seq<Tick>, written: Bytes, total: nat)
    ensures
      var r := CopyLoop(chunks, ending, b, now, ticks, written, total);
      var a := Serve(b, now, Sizes(chunks), ticks);
      && r.now == a.now
      && (r.outcome.Blocked? <==> !a.returned)
      && (a.returned ==> r.outcome == EndsAs(ending, total + |Concat(chunks)|))
    decreases |chunks|
  {
    if chunks != [] {
      var a := Acquire(b, now, |chunks[0]|, ticks);
      assert Sizes(chunks)[1..] == Sizes(chunks[1..]);
      LoopIsServe(chunks[1..], ending, a.tokens, a.now, a.left, written + chunks[0], total + |chunks[0]|);
    }
  }

  lemma {:induction false} LoopIsCutShort(chunks: seq<Bytes>, part: nat, b: Tokens, now: real,
                                          ticks: seq<Tick>, written: Bytes, total: nat)
    requires chunks != []
    ensures
      var r := CopyLoop(chunks, WriteError(part), b, now, ticks, written, total);
      r.outcome.Failed? ==> r.written == written + CutShort(chunks, part)
    decreases |chunks|
  {
    var a := Acquire(b, now, |chunks[0]|, ticks);
    if |chunks| > 1 {
      var next := written + chunks[0];
      LoopIsCutShort(chunks[1..], part, a.tokens, a.now, a.left, next, total + |chunks[0]|);
      assert chunks[..|chunks| - 1][1..] == chunks[1..][..|chunks| - 2];
      assert written + CutShort(chunks, part) == next + CutShort(chunks[1..], part);
    } else {
      assert CutShort(chunks, part) == Part(chunks[0], part);
    }
  }

  lemma {:induction false} LoopDelivers(chunks: seq<Bytes>, ending: Ending, b: Tokens, now: real,
                                        ticks: seq<Tick>, written: Bytes, total: nat)
    requires total == |written|
    ensures
      var r := CopyLoop(chunks, ending, b, now, ticks, written, total);
      && r.written <= written + Concat(chunks)
      && (r.outcome.Done? ==> r.written == written + Concat(chunks) && r.outcome.total == |r.written|)
      && (r.outcome.Failed? && !ending.WriteError? ==> r.written == written + Concat(chunks))
    decreases |chunks|
  {
    if chunks != [] {
      var a := Acquire(b, now, |chunks[0]|, ticks);
      var next := written + chunks[0];
      assert written + Concat(chunks) == next + Concat(chunks[1..]);
      LoopDelivers(chunks[1..], ending, a.tokens, a.now, a.left, next, total + |chunks[0]|);
    } else {
      assert written + Concat(chunks) == written;
    }
  }

  /**
   Whatever the rate does and however the input is chunked, the writer has seen a
   prefix of the input; a copy that finishes delivered all of it and reports its
   length, and one that fails on reading or flushing has delivered all it read.
   */
  lemma CopyDelivers(chunks: seq<Bytes>, ending: Ending, now: real, ticks: seq<Tick>)
    ensures
      var r := CopyThrottled(chunks, ending, now, ticks);
      && r.written <= Concat(chunks)
      && (r.outcome.Done? ==> r.written == Concat(chunks) && r.outcome.total == |Concat(chunks)|)
      && (r.outcome.Failed? && !ending.WriteError? ==> r.written == Concat(chunks))
  {
    if ticks != [] {
      var now1 := now + ticks[0].lag;
      LoopDelivers(chunks, ending, Tokens(ticks[0].bps as real, now1), now1, ticks[1..], [], 0);
      assert [] + Concat(chunks) == Concat(chunks);
    }
  }

  lemma {:induction false} LoopFinishes(chunks: seq<Bytes>, b: Tokens, now: real, ticks: seq<Tick>,
                                        rate: nat, written: Bytes, total: nat)
    requires Sane(b, now) && Constant(ticks, rate) && |ticks| >= 3 * |chunks|
    requires forall i :: 0 <= i < |chunks| ==> 0 < |chunks[i]| && Admits(rate, |chunks[i]|)
    ensures CopyLoop(chunks, EndOfFile, b, now, ticks, written, total).outcome.Done?
    decreases |chunks|
  {
    if chunks != [] {
      AcquireIsExact(b, now, rate, |chunks[0]|, ticks);
      var a := Acquire(b, now, |chunks[0]|, ticks);
      AcquireLeaves(b, now, |chunks[0]|, ticks);
      assert forall i :: 0 <= i < |chunks[1..]| ==> chunks[1..][i] == chunks[i + 1];
      LoopFinishes(chunks[1..], a.tokens, a.now, a.left, rate, written + chunks[0], total + |chunks[0]|);
    }
  }

  lemma {:induction false} LoopLeaves(b: Tokens, now: real, bps: nat, n: nat, ticks: seq<Tick>)
    requires bps > 0
    ensures exists k: nat :: k <= |ticks| && AcquireLoop(b, now, bps, n, ticks).left == ticks[k..]
    decreases |ticks|
  {
    if ticks == [] {
      assert ticks[0..] == [];
    } else {
      var now1 := now + ticks[0].lag;
      var b1 := Refilled(b, ticks[0].bps, now1);
      var now2 := now1 + Wait(n, b1.available, bps);
      if b1.available < n as real {
        LoopLeaves(b1, now2, bps, n, ticks[1..]);
        var k: nat :| k <= |ticks[1..]| && AcquireLoop(b1, now2, bps, n, ticks[1..]).left == ticks[1..][k..];
        assert ticks[1..][k..] == ticks[k + 1..];
        assert AcquireLoop(b, now, bps, n, ticks).left == ticks[k + 1..];
      } else {
        assert AcquireLoop(b, now, bps, n, ticks).left == ticks[1..];
      }
    }
  }

  /** A call consumes ticks from the front only. */
  lemma AcquireLeaves(b: Tokens, now: real, n: nat, ticks: seq<Tick>)
    ensures exists k: nat :: k <= |ticks| && Acquire(b, now, n, ticks).left == ticks[k..]
  {
    if ticks == [] {
      assert ticks[0..] == [];
    } else if ticks[0].bps > 0 && n > 0 {
      var now1 := now + ticks[0].lag;
      LoopLeaves(b, now1, ticks[0].bps, n, ticks[1..]);
      var k: nat :| k <= |ticks[1..]| && AcquireLoop(b, now1, ticks[0].bps, n, ticks[1..]).left == ticks[1..][k..];
      assert ticks[1..][k..] == ticks[k + 1..];
    } else {
      assert Acquire(b, now, n, ticks).left == ticks[1..];
    }
  }

  /** At a constant `rate`, every chunking of every finite input is copied to its end. */
  ghost predicate AlwaysFinishes(rate: nat) {
    forall chunks, now: real, ticks: seq<Tick> ::
      Readable(chunks) && Constant(ticks, rate) && |ticks| > 3 * |chunks|
      ==> CopyThrottled(chunks, EndOfFile, now, ticks).outcome.Done?
  }

  /** A full read buffer at a smaller positive rate blocks forever, however long it waits. */
  lemma FullBufferBlocks(rate: nat, chunk: Bytes, rest: seq<Bytes>, now: real, ticks: seq<Tick>)
    requires 0 < rate < |chunk| && Constant(ticks, rate)
    ensures CopyThrottled([chunk] + rest, EndOfFile, now, ticks).outcome == Blocked
    ensures CopyThrottled([chunk] + rest, EndOfFile, now, ticks).written == []
  {
    if ticks != [] {
      var now1 := now + ticks[0].lag;
      AcquireIsExact(Tokens(rate as real, now1), now1, rate, |chunk|, ticks[1..]);
    }
  }

  /** The exact condition under which a configured rate cannot stall a tunnel. */
  lemma FinishesExactly(rate: nat)
    ensures AlwaysFinishes(rate) <==> rate == 0 || rate >= 16384
  {
    if rate == 0 || rate >= BUFFER {
      forall chunks, now: real, ticks: seq<Tick> | Readable(chunks) && Constant(ticks, rate) && |ticks| > 3 * |chunks|
        ensures CopyThrottled(chunks, EndOfFile, now, ticks).outcome.Done?
      {
        var now1 := now + ticks[0].lag;
        LoopFinishes(chunks, Tokens(rate as real, now1), now1, ticks[1..], rate, [], 0);
      }
    } else {
      var chunk: Bytes := seq(BUFFER, i => 0);
      var ticks := seq(4, i => Tick(rate, 0.0));
      FullBufferBlocks(rate, chunk, [], 0.0, ticks);
      assert [chunk] + [] == [chunk];
      assert Readable([chunk]);
      assert !CopyThrottled([chunk], EndOfFile, 0.0, ticks).outcome.Done?;
    }
  }

  /**
   A copy blocks exactly when some acquire does not return; otherwise it is done at
   end of file and failed at a read, write or flush error. Of the chunk whose write
   fails, the writer has seen what that write forwarded.
   */
  lemma CopyEndsExactly(chunks: seq<Bytes>, ending: Ending, now: real, ticks: seq<Tick>)
    requires ticks != []
    ensures
      var r := CopyThrottled(chunks, ending, now, ticks);
      var start := now + ticks[0].lag;
      var served := Serve(Tokens(ticks[0].bps as real, start), start, Sizes(chunks), ticks[1..]).returned;
      && (r.outcome.Blocked? <==> !served)
      && (r.outcome.Done? <==> served && ending.EndOfFile?)
      && (r.outcome.Failed? <==> served && !ending.EndOfFile?)
      && (r.outcome.Failed? && chunks != [] && ending.WriteError? ==> r.written == CutShort(chunks, ending.part))
  {
    var start := now + ticks[0].lag;
    LoopIsServe(chunks, ending, Tokens(ticks[0].bps as real, start), start, ticks[1..], [], 0);
    if chunks != [] && ending.WriteError? {
      LoopIsCutShort(chunks, ending.part, Tokens(ticks[0].bps as real, start), start, ticks[1..], [], 0);
      var r := CopyThrottled(chunks, ending, now, ticks);
      assert r.outcome.Failed? ==> r.written == [] + CutShort(chunks, ending.part) == CutShort(chunks, ending.part);
    }
  }

  lemma {:induction false} SizesSum(chunks: seq<Bytes>)
    ensures Sum(Sizes(chunks)) == |Concat(chunks)|
  {
    if chunks != [] {
      assert Sizes(chunks)[1..] == Sizes(chunks[1..]);
      SizesSum(chunks[1..]);
    }
  }

  lemma SecondsOf(total: nat, rate: nat)
    requires rate > 0
    ensures (total as real - rate as real) / rate as real == total as real / rate as real - 1.0
  {
    EarningLess(total as real, 1.0, rate);
    assert Inflow(1.0, rate as real) == rate as real;
  }

  /**
   How long a copy of `total` bytes takes at a constant rate: not less than
   `total / rate` seconds but for the second's worth that a new bucket holds, and
   not more but for a millisecond a chunk and the time the copy was not run. What
   the new bucket covers is copied without sleeping.
   */
  lemma CopyTakes(chunks: seq<Bytes>, now: real, rate: nat, ticks: seq<Tick>)
    requires rate > 0 && Constant(ticks, rate) && |ticks| > 3 * |chunks|
    requires forall i :: 0 <= i < |chunks| ==> |chunks[i]| <= rate
    ensures
      var r := CopyThrottled(chunks, EndOfFile, now, ticks);
      var total := |Concat(chunks)|;
      var seconds := total as real / rate as real;
      && r.outcome == Done(total)
      && now + seconds - 1.0 <= r.now
      && r.now <= now + Lags(ticks) + Max(0.0, seconds - 1.0) + |chunks| as real * 0.001
      && (total <= rate ==> now <= r.now <= now + Lags(ticks))
  {
    var start := now + ticks[0].lag;
    var b := Tokens(rate as real, start);
    var total := |Concat(chunks)|;
    InHandNow(b, rate);
    SizesSum(chunks);
    SecondsOf(total, rate);
    LoopIsServe(chunks, EndOfFile, b, start, ticks[1..], [], 0);
    ServedInTime(b, start, rate, Sizes(chunks), ticks[1..]);
    if total <= rate {
      BurstIsImmediate(b, start, rate, Sizes(chunks), ticks[1..]);
      NeverBackwards(b, start, Sizes(chunks), ticks[1..]);
    }
  }
}
