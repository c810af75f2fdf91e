/**
 The token bucket behind the relay's reply direction, and the copy loop it throttles.

 `f64` quantities are reals. `acquire` need not return, so an execution is driven
 by a finite list of `Tick`s: each atomic load of the rate consumes one, and says
 which rate the environment had stored by then and how much later than requested
 the copy got to run. A statement about every list of ticks is a statement about
 every finite prefix of every execution.
 */
module RateLimit {
  type Delay = d: real | d >= 0.0

  datatype Tick = Tick(bps: nat, lag: Delay)

  /** `Bucket` without the shared handle. */
  datatype Tokens = Tokens(available: real, lastRefill: real)

  const BUFFER := 16 * 1024
  const MIN_SLEEP := 0.001

  function Min(a: real, b: real): real {
    if a <= b then a else b
  }

  function Max(a: real, b: real): real {
    if a >= b then a else b
  }

  /** The tokens that `rate` yields in some time. */
  function Inflow(seconds: real, rate: real): real {
    seconds * rate
  }

  function Refilled(b: Tokens, bps: nat, now: real): Tokens {
    if bps == 0 then b
    else Tokens(Min(b.available + Inflow(now - b.lastRefill, bps as real), bps as real), now)
  }

  /** How long `acquire` sleeps when `available` tokens do not cover `n`. */
  function Wait(n: nat, available: real, bps: nat): real
    requires bps > 0
  {
    Max((n as real - available) / bps as real, MIN_SLEEP)
  }

  datatype Acquired = Acquired(returned: bool, tokens: Tokens, now: real, left: seq<Tick>)

  /** The loop of `acquire`, with the rate `bps` that it captured before the loop. */
  function AcquireLoop(b: Tokens, now: real, bps: nat, n: nat, ticks: seq<Tick>): Acquired
    requires bps > 0
    decreases |ticks|
  {
    if ticks == [] then Acquired(false, b, now, [])
    else
      var now1 := now + ticks[0].lag;
      var b1 := Refilled(b, ticks[0].bps, now1);
      if b1.available >= n as real then
        Acquired(true, Tokens(b1.available - n as real, b1.lastRefill), now1, ticks[1..])
      else
        AcquireLoop(b1, now1 + Wait(n, b1.available, bps), bps, n, ticks[1..])
  }

  function Acquire(b: Tokens, now: real, n: nat, ticks: seq<Tick>): Acquired {
    if ticks == [] then Acquired(false, b, now, [])
    else
      var now1 := now + ticks[0].lag;
      if ticks[0].bps == 0 || n == 0 then Acquired(true, b, now1, ticks[1..])
      else AcquireLoop(b, now1, ticks[0].bps, n, ticks[1..])
  }

  // ---------------------------------------------------------------------
  // The objects
  // ---------------------------------------------------------------------

  /** The clock and the rate cell, as the copy observes them. */
  class Environment {
    var ticks: seq<Tick>
    var now: real

    constructor (ticks: seq<Tick>, now: real)
      ensures this.ticks == ticks && this.now == now
    {
      this.ticks := ticks;
      this.now := now;
    }

    /** Load the rate; the clock has moved on by the tick's lag. */
    method Load() returns (bps: nat)
      requires ticks != []
      modifies this
      ensures bps == old(ticks)[0].bps
      ensures ticks == old(ticks)[1..] && now == old(now) + old(ticks)[0].lag
    {
      bps := ticks[0].bps;
      now := now + ticks[0].lag;
      ticks := ticks[1..];
    }

    method Sleep(d: real)
      modifies this`now
      ensures now == old(now) + d
    {
      now := now + d;
    }
  }

  class Bucket {
    var available: real
    var lastRefill: real

    function View(): Tokens
      reads this
    {
      Tokens(available, lastRefill)
    }

    constructor (initial: nat, now: real)
      ensures View() == Tokens(initial as real, now)
    {
      available := initial as real;
      lastRefill := now;
    }

    method Refill(env: Environment)
      requires env.ticks != []
      modifies this, env
      ensures env.ticks == old(env.ticks)[1..] && env.now == old(env.now) + old(env.ticks)[0].lag
      ensures View() == Refilled(old(View()), old(env.ticks)[0].bps, env.now)
    {
      var bps := env.Load();
      if bps == 0 {
        return;
      }
      var elapsed := env.now - lastRefill;
      var cap := bps as real;
      available := Min(available + Inflow(elapsed, cap), cap);
      lastRefill := env.now;
    }

    /** Runs until the tokens are taken, or until the ticks run out. */
    method TryAcquire(env: Environment, n: nat) returns (returned: bool)
      modifies this, env
      ensures Acquired(returned, View(), env.now, env.ticks)
           == Acquire(old(View()), old(env.now), n, old(env.ticks))
    {
      if env.ticks == [] {
        return false;
      }
      var bps := env.Load();
      if bps == 0 || n == 0 {
        return true;
      }
      ghost var goal := AcquireLoop(View(), env.now, bps, n, env.ticks);
      while env.ticks != []
        invariant goal == AcquireLoop(View(), env.now, bps, n, env.ticks)
        decreases |env.ticks|
      {
        Refill(env);
        if available >= n as real {
          available := available - n as real;
          return true;
        }
        env.Sleep(Wait(n, available, bps));
      }
      return false;
    }
  }

  // ---------------------------------------------------------------------
  // Progress at a constant rate
  // ---------------------------------------------------------------------

  predicate Constant(ticks: seq<Tick>, rate: nat) {
    forall i :: 0 <= i < |ticks| ==> ticks[i].bps == rate
  }

  /** A bucket some execution can be in at time `now`. */
  predicate Sane(b: Tokens, now: real) {
    0.0 <= b.available && b.lastRefill <= now
  }

  /** Requests that a constant rate lets through. */
  predicate Admits(rate: nat, n: nat) {
    rate == 0 || n <= rate
  }

  lemma InflowNonNegative(s: real, rate: real)
    requires s >= 0.0 && rate >= 0.0
    ensures Inflow(s, rate) >= 0.0
  {
  }

  lemma InflowAdds(s: real, t: real, rate: real)
    ensures Inflow(s + t, rate) == Inflow(s, rate) + Inflow(t, rate)
  {
  }

  lemma InflowBetween(s: real, t: real, rate: real)
    ensures Inflow(t - s, rate) == Inflow(t, rate) - Inflow(s, rate)
  {
  }

  lemma InflowMonotone(s: real, t: real, rate: real)
    requires s <= t && rate >= 0.0
    ensures Inflow(s, rate) <= Inflow(t, rate)
  {
    InflowNonNegative(t - s, rate);
    InflowBetween(s, t, rate);
  }

  lemma InflowFaster(s: real, slow: real, fast: real)
    requires s >= 0.0 && slow <= fast
    ensures Inflow(s, slow) <= Inflow(s, fast)
  {
    var more := fast - slow;
    assert s * more >= 0.0;
    assert s * more == s * fast - s * slow;
  }

  lemma InflowOfQuotient(deficit: real, rate: real)
    requires rate > 0.0
    ensures Inflow(deficit / rate, rate) == deficit
  {
  }

  lemma QuotientCovers(deficit: real, rate: real, elapsed: real)
    requires rate > 0.0 && elapsed >= deficit / rate
    ensures Inflow(elapsed, rate) >= deficit
  {
    InflowMonotone(deficit / rate, elapsed, rate);
    InflowOfQuotient(deficit, rate);
  }

  lemma RefillKeepsSane(b: Tokens, bps: nat, now: real)
    requires Sane(b, now)
    ensures Sane(Refilled(b, bps, now), now)
    ensures bps > 0 ==> Refilled(b, bps, now).available <= bps as real
  {
    InflowNonNegative(now - b.lastRefill, bps as real);
  }

  /** How often the bucket is refilled does not matter, nor does a time at rate 0 in between. */
  lemma RefillsCompose(b: Tokens, first: nat, bps: nat, mid: real, now: real)
    requires b.lastRefill <= mid <= now && (first == 0 || first == bps)
    ensures Refilled(Refilled(b, first, mid), bps, now) == Refilled(b, bps, now)
  {
    InflowAdds(mid - b.lastRefill, now - mid, bps as real);
    InflowNonNegative(now - mid, bps as real);
  }

  /** With `n <= rate` the first or the second pass through the loop takes the tokens. */
  lemma LoopReturnsAfterOneSleep(b: Tokens, now: real, rate: nat, n: nat, ticks: seq<Tick>)
    requires Sane(b, now) && 0 < n <= rate && |ticks| >= 2 && Constant(ticks, rate)
    ensures AcquireLoop(b, now, rate, n, ticks).returned
    ensures |AcquireLoop(b, now, rate, n, ticks).left| >= |ticks| - 2
    ensures Sane(AcquireLoop(b, now, rate, n, ticks).tokens, AcquireLoop(b, now, rate, n, ticks).now)
  {
    var now1 := now + ticks[0].lag;
    var b1 := Refilled(b, rate, now1);
    RefillKeepsSane(b, rate, now1);
    if b1.available < n as real {
      var wait := Wait(n, b1.available, rate);
      var now2 := now1 + wait + ticks[1].lag;
      QuotientCovers(n as real - b1.available, rate as real, now2 - b1.lastRefill);
      var b2 := Refilled(b1, rate, now2);
      RefillKeepsSane(b1, rate, now2);
      assert b2.available >= n as real;
      assert ticks[1..][0] == ticks[1];
      assert AcquireLoop(b1, now1 + wait, rate, n, ticks[1..]).returned;
      assert ticks[1..][1..] == ticks[2..];
    }
  }

  /** With `n > rate` no number of passes ever takes the tokens. */
  lemma {:induction false} LoopNeverReturns(b: Tokens, now: real, rate: nat, n: nat, ticks: seq<Tick>)
    requires 0 < rate < n && Constant(ticks, rate)
    ensures !AcquireLoop(b, now, rate, n, ticks).returned
    decreases |ticks|
  {
    if ticks != [] {
      var now1 := now + ticks[0].lag;
      var b1 := Refilled(b, rate, now1);
      assert b1.available <= rate as real < n as real;
      LoopNeverReturns(b1, now1 + Wait(n, b1.available, rate), rate, n, ticks[1..]);
    }
  }

  /**
   At a constant rate, `acquire(n)` returns within one sleep (three loads) from
   every reachable bucket and every schedule if the rate admits `n`, and returns
   from none of them under any schedule, however long, if it does not.
   */
  lemma AcquireIsExact(b: Tokens, now: real, rate: nat, n: nat, ticks: seq<Tick>)
    requires Sane(b, now) && n > 0 && Constant(ticks, rate)
    ensures Admits(rate, n) && |ticks| >= 3 ==>
      && Acquire(b, now, n, ticks).returned
      && |Acquire(b, now, n, ticks).left| >= |ticks| - 3
      && Sane(Acquire(b, now, n, ticks).tokens, Acquire(b, now, n, ticks).now)
    ensures !Admits(rate, n) ==> !Acquire(b, now, n, ticks).returned
  {
    if ticks != [] && rate > 0 {
      var now1 := now + ticks[0].lag;
      assert Sane(b, now1);
      if n > rate {
        LoopNeverReturns(b, now1, rate, n, ticks[1..]);
      } else if |ticks| >= 3 {
        LoopReturnsAfterOneSleep(b, now1, rate, n, ticks[1..]);
      }
    }
  }

  /** The balance after `seconds` more at `rate`. */
  function Earned(have: real, seconds: real, rate: nat): real {
    Min(have + Inflow(seconds, rate as real), rate as real)
  }

  lemma LoopSleepsOnce(b: Tokens, now: real, rate: nat, n: nat, ticks: seq<Tick>)
    requires Sane(b, now) && 0 < n <= rate && Constant(ticks, rate) && |ticks| >= 2
    ensures
      var at := now + ticks[0].lag;
      var have := Refilled(b, rate, at).available;
      var sleep := Max((n as real - have) / rate as real, 0.001) + ticks[1].lag;
      AcquireLoop(b, now, rate, n, ticks) ==
        if n as real <= have then Acquired(true, Tokens(have - n as real, at), at, ticks[1..])
        else Acquired(true, Tokens(Earned(have, sleep, rate) - n as real, at + sleep), at + sleep, ticks[2..])
  {
    var at := now + ticks[0].lag;
    var b1 := Refilled(b, rate, at);
    RefillKeepsSane(b, rate, at);
    if b1.available < n as real {
      var next := at + Wait(n, b1.available, rate);
      var sleep := Wait(n, b1.available, rate) + ticks[1].lag;
      QuotientCovers(n as real - b1.available, rate as real, sleep);
      assert at + sleep == next + ticks[1].lag && at + sleep - b1.lastRefill == sleep;
      assert Refilled(b1, rate, at + sleep) == Tokens(Earned(b1.available, sleep, rate), at + sleep);
      assert ticks[1..][0] == ticks[1] && ticks[1..][1..] == ticks[2..];
      assert AcquireLoop(b1, next, rate, n, ticks[1..]).returned;
    }
  }

  lemma AcquireSleepsOnce(b: Tokens, now: real, rate: nat, n: nat, ticks: seq<Tick>, at: real, have: real, sleep: real)
    requires Sane(b, now) && 0 < n <= rate && Constant(ticks, rate) && |ticks| >= 3
    requires at == now + ticks[0].lag + ticks[1].lag && have == Refilled(b, rate, at).available
    requires sleep == Max((n as real - have) / rate as real, 0.001) + ticks[2].lag
    ensures Acquire(b, now, n, ticks) ==
      if n as real <= have then Acquired(true, Tokens(have - n as real, at), at, ticks[2..])
      else Acquired(true, Tokens(Earned(have, sleep, rate) - n as real, at + sleep), at + sleep, ticks[3..])
  {
    assert ticks[1..][0] == ticks[1] && ticks[1..][1] == ticks[2];
    assert ticks[1..][1..] == ticks[2..] && ticks[1..][2..] == ticks[3..];
    LoopSleepsOnce(b, now + ticks[0].lag, rate, n, ticks[1..]);
  }

  /**
   How long `acquire` takes at a constant rate: the two loads before the first
   refill, and if the tokens do not cover `n` one sleep for exactly the missing
   ones, of at least a millisecond, with the load behind it.
   */
  lemma AcquireSleepsExactly(b: Tokens, now: real, rate: nat, n: nat, ticks: seq<Tick>)
    requires Sane(b, now) && 0 < n <= rate && Constant(ticks, rate) && |ticks| >= 3
    ensures
      var a := Acquire(b, now, n, ticks);
      var at := now + ticks[0].lag + ticks[1].lag;
      var have := Min(b.available + Inflow(at - b.lastRefill, rate as real), rate as real);
      var sleep := Max((n as real - have) / rate as real, 0.001) + ticks[2].lag;
      && a.returned
      && if n as real <= have then
           a.now == at && a.tokens == Tokens(have - n as real, at) && a.left == ticks[2..]
         else
           && a.now == at + sleep && a.left == ticks[3..]
           && a.tokens == Tokens(Min(have + Inflow(sleep, rate as real), rate as real) - n as real, at + sleep)
  {
    var at := now + ticks[0].lag + ticks[1].lag;
    var have := Refilled(b, rate, at).available;
    var sleep := Max((n as real - have) / rate as real, 0.001) + ticks[2].lag;
    AcquireSleepsOnce(b, now, rate, n, ticks, at, have, sleep);
  }

  // ---------------------------------------------------------------------
  // Progress once the rate has settled
  // ---------------------------------------------------------------------

  /** Whether a waiting `acquire(n)` with these tokens gets through at a rate that no longer changes. */
  predicate SettledAdmits(b: Tokens, rate: nat, n: nat) {
    if rate == 0 then n as real <= b.available else n <= rate
  }

  /** A pass adds at least a millisecond of tokens, so `j` more of them cover what is missing. */
  predicate CoveredIn(b: Tokens, now: real, rate: nat, n: nat, j: nat) {
    b.available + Inflow(now - b.lastRefill, rate as real) + Inflow(j as real * MIN_SLEEP, rate as real) >= n as real
  }

  lemma CoveredAfterPass(b: Tokens, now: real, now1: real, now2: real, rate: nat, n: nat, j: nat)
    requires Sane(b, now) && now <= now1 && now1 + MIN_SLEEP <= now2 && n <= rate && j > 0
    requires CoveredIn(b, now, rate, n, j) && Refilled(b, rate, now1).available < n as real
    ensures CoveredIn(Refilled(b, rate, now1), now2, rate, n, j - 1)
  {
    var r := rate as real;
    InflowMonotone(now - b.lastRefill, now1 - b.lastRefill, r);
    InflowMonotone(MIN_SLEEP, now2 - now1, r);
    InflowAdds((j - 1) as real * MIN_SLEEP, MIN_SLEEP, r);
    assert (j - 1) as real * MIN_SLEEP + MIN_SLEEP == j as real * MIN_SLEEP;
  }

  lemma CoveredNow(b: Tokens, now: real, now1: real, rate: nat, n: nat)
    requires Sane(b, now) && now <= now1 && 0 < n <= rate && CoveredIn(b, now, rate, n, 0)
    ensures Refilled(b, rate, now1).available >= n as real
  {
    InflowMonotone(now - b.lastRefill, now1 - b.lastRefill, rate as real);
  }

  lemma {:induction false} LoopReturnsWhenCovered(b: Tokens, now: real, bps: nat, rate: nat, n: nat, ticks: seq<Tick>, j: nat)
    requires Sane(b, now) && bps > 0 && 0 < n <= rate && Constant(ticks, rate)
    requires |ticks| > j && CoveredIn(b, now, rate, n, j)
    ensures AcquireLoop(b, now, bps, n, ticks).returned
    decreases j
  {
    var now1 := now + ticks[0].lag;
    var b1 := Refilled(b, rate, now1);
    RefillKeepsSane(b, rate, now1);
    if j == 0 {
      CoveredNow(b, now, now1, rate, n);
    } else if b1.available < n as real {
      var now2 := now1 + Wait(n, b1.available, bps);
      CoveredAfterPass(b, now, now1, now2, rate, n, j);
      LoopReturnsWhenCovered(b1, now2, bps, rate, n, ticks[1..], j - 1);
    }
  }

  lemma {:induction false} LoopStarves(b: Tokens, now: real, bps: nat, rate: nat, n: nat, ticks: seq<Tick>)
    requires bps > 0 && Constant(ticks, rate) && !SettledAdmits(b, rate, n)
    ensures !AcquireLoop(b, now, bps, n, ticks).returned
    decreases |ticks|
  {
    if ticks != [] {
      var now1 := now + ticks[0].lag;
      var b1 := Refilled(b, rate, now1);
      assert b1.available < n as real;
      LoopStarves(b1, now1 + Wait(n, b1.available, bps), bps, rate, n, ticks[1..]);
    }
  }

  /**
   Rates may change while `acquire` waits, but the loop keeps the one it captured.
   Once the rate has settled at `rate`, a waiting `acquire(n)` returns within a
   thousand sleeps if `rate` is at least `n`, or is 0 with the tokens already in
   hand, and otherwise never: at rate 0 nothing is refilled, and at a positive
   rate below `n` even tokens in hand are clipped away.
   */
  lemma SettledRateIsExact(b: Tokens, now: real, bps: nat, rate: nat, n: nat, ticks: seq<Tick>)
    requires Sane(b, now) && bps > 0 && n > 0 && Constant(ticks, rate)
    ensures SettledAdmits(b, rate, n) && |ticks| > 1000 ==> AcquireLoop(b, now, bps, n, ticks).returned
    ensures !SettledAdmits(b, rate, n) ==> !AcquireLoop(b, now, bps, n, ticks).returned
  {
    if !SettledAdmits(b, rate, n) {
      LoopStarves(b, now, bps, rate, n, ticks);
    } else if rate > 0 && |ticks| > 1000 {
      InflowNonNegative(now - b.lastRefill, rate as real);
      assert 1000 as real * MIN_SLEEP == 1.0;
      assert CoveredIn(b, now, rate, n, 1000);
      LoopReturnsWhenCovered(b, now, bps, rate, n, ticks, 1000);
    }
  }

  // ---------------------------------------------------------------------
  // The bandwidth bound
  // ---------------------------------------------------------------------

  /** One pass through the loop of `acquire`, or one early return that took no tokens. */
  datatype Event =
    | Pass(bps: nat, at: real, bytes: nat)
    | Bypass(bps: nat, at: real, bytes: nat)

  function LoopEvents(b: Tokens, now: real, bps: nat, n: nat, ticks: seq<Tick>): seq<Event>
    requires bps > 0
    decreases |ticks|
  {
    if ticks == [] then []
    else
      var now1 := now + ticks[0].lag;
      var b1 := Refilled(b, ticks[0].bps, now1);
      if b1.available >= n as real then
        [Pass(ticks[0].bps, now1, n)]
      else
        [Pass(ticks[0].bps, now1, 0)] + LoopEvents(b1, now1 + Wait(n, b1.available, bps), bps, n, ticks[1..])
  }

  function AcquireEvents(b: Tokens, now: real, n: nat, ticks: seq<Tick>): seq<Event> {
    if ticks == [] then []
    else
      var now1 := now + ticks[0].lag;
      if ticks[0].bps == 0 || n == 0 then [Bypass(ticks[0].bps, now1, n)]
      else LoopEvents(b, now1, ticks[0].bps, n, ticks[1..])
  }

  /** Every request of `requests` in turn, until one does not return. */
  function ServeEvents(b: Tokens, now: real, requests: seq<nat>, ticks: seq<Tick>): seq<Event>
    decreases |requests|
  {
    if requests == [] then []
    else
      var a := Acquire(b, now, requests[0], ticks);
      AcquireEvents(b, now, requests[0], ticks)
        + if a.returned then ServeEvents(a.tokens, a.now, requests[1..], a.left) else []
  }

  function After(b: Tokens, e: Event): Tokens {
    match e
    case Pass(bps, at, bytes) =>
      var r := Refilled(b, bps, at);
      Tokens(r.available - bytes as real, r.lastRefill)
    case Bypass(_, _, _) => b
  }

  predicate Legal(b: Tokens, e: Event) {
    match e
    case Pass(bps, at, bytes) => b.lastRefill <= at && bytes as real <= Refilled(b, bps, at).available
    case Bypass(bps, _, bytes) => bps == 0 || bytes == 0
  }

  predicate LegalRun(b: Tokens, es: seq<Event>)
    decreases |es|
  {
    es == [] || (Legal(b, es[0]) && LegalRun(After(b, es[0]), es[1..]))
  }

  function AfterAll(b: Tokens, es: seq<Event>): Tokens
    decreases |es|
  {
    if es == [] then b else AfterAll(After(b, es[0]), es[1..])
  }

  function Admitted(es: seq<Event>): nat {
    if es == [] then 0 else es[0].bytes + Admitted(es[1..])
  }

  lemma {:induction false} LegalAppend(b: Tokens, xs: seq<Event>, ys: seq<Event>)
    requires LegalRun(b, xs) && LegalRun(AfterAll(b, xs), ys)
    ensures LegalRun(b, xs + ys)
    decreases |xs|
  {
    if xs == [] {
      assert xs + ys == ys;
    } else {
      LegalAppend(After(b, xs[0]), xs[1..], ys);
      assert (xs + ys)[1..] == xs[1..] + ys;
    }
  }

  lemma {:induction false} LoopIsLegal(b: Tokens, now: real, bps: nat, n: nat, ticks: seq<Tick>)
    requires bps > 0 && Sane(b, now)
    ensures LegalRun(b, LoopEvents(b, now, bps, n, ticks))
    ensures
      var a := AcquireLoop(b, now, bps, n, ticks);
      Sane(a.tokens, a.now) && AfterAll(b, LoopEvents(b, now, bps, n, ticks)) == a.tokens
    decreases |ticks|
  {
    if ticks != [] {
      var now1 := now + ticks[0].lag;
      var b1 := Refilled(b, ticks[0].bps, now1);
      RefillKeepsSane(b, ticks[0].bps, now1);
      if b1.available < n as real {
        var now2 := now1 + Wait(n, b1.available, bps);
        LoopIsLegal(b1, now2, bps, n, ticks[1..]);
        var es := LoopEvents(b, now, bps, n, ticks);
        assert After(b, es[0]) == b1;
        assert es[1..] == LoopEvents(b1, now2, bps, n, ticks[1..]);
      }
    }
  }

  lemma AcquireIsLegal(b: Tokens, now: real, n: nat, ticks: seq<Tick>)
    requires Sane(b, now)
    ensures LegalRun(b, AcquireEvents(b, now, n, ticks))
    ensures
      var a := Acquire(b, now, n, ticks);
      Sane(a.tokens, a.now) && AfterAll(b, AcquireEvents(b, now, n, ticks)) == a.tokens
  {
    if ticks != [] && ticks[0].bps > 0 && n > 0 {
      LoopIsLegal(b, now + ticks[0].lag, ticks[0].bps, n, ticks[1..]);
    }
  }

  lemma {:induction false} ServeIsLegal(b: Tokens, now: real, requests: seq<nat>, ticks: seq<Tick>)
    requires Sane(b, now)
    ensures LegalRun(b, ServeEvents(b, now, requests, ticks))
    decreases |requests|
  {
    if requests != [] {
      var a := Acquire(b, now, requests[0], ticks);
      AcquireIsLegal(b, now, requests[0], ticks);
      if a.returned {
        ServeIsLegal(a.tokens, a.now, requests[1..], a.left);
        LegalAppend(b, AcquireEvents(b, now, requests[0], ticks),
                    ServeEvents(a.tokens, a.now, requests[1..], a.left));
      } else {
        var es := AcquireEvents(b, now, requests[0], ticks);
        assert es + [] == es;
      }
    }
  }

  /** Events between `start` and `start + span` whose rates were positive and at most `rate`. */
  predicate InWindow(es: seq<Event>, rate: nat, start: real, span: real) {
    forall i :: 0 <= i < |es| ==> 0 < es[i].bps <= rate && start <= es[i].at <= start + span
  }

  /** Tokens in hand, less what the clock has already paid at `rate` tokens a second. */
  function Potential(rate: real, b: Tokens): real {
    b.available - Inflow(b.lastRefill, rate)
  }

  lemma PassEffect(b: Tokens, e: Event, rate: real)
    requires 0.0 <= b.available && e.Pass? && 0.0 < e.bps as real <= rate && Legal(b, e)
    ensures 0.0 <= After(b, e).available && After(b, e).lastRefill == e.at
    ensures After(b, e).available + e.bytes as real <= rate
    ensures Potential(rate, After(b, e)) + e.bytes as real <= Potential(rate, b)
  {
    InflowFaster(e.at - b.lastRefill, e.bps as real, rate);
    InflowBetween(b.lastRefill, e.at, rate);
  }

  /** Event `i` is paid for by the drop from potential `i` to potential `i + 1`. */
  predicate Paid(es: seq<Event>, pots: seq<real>, i: nat)
    requires i < |es| < |pots|
  {
    pots[i + 1] + es[i].bytes as real <= pots[i]
  }

  lemma {:induction false} SumsTelescope(es: seq<Event>, pots: seq<real>)
    requires |pots| == |es| + 1
    requires forall i :: 0 <= i < |es| ==> Paid(es, pots, i)
    ensures Admitted(es) as real <= pots[0] - pots[|es|]
  {
    if es != [] {
      forall i | 0 <= i < |es[1..]| ensures Paid(es[1..], pots[1..], i) {
        assert Paid(es, pots, i + 1);
      }
      SumsTelescope(es[1..], pots[1..]);
      assert Paid(es, pots, 0);
    }
  }

  /** Every event of a window pays for its bytes out of the potential. */
  lemma {:induction false} Potentials(b: Tokens, es: seq<Event>, rate: nat, start: real, span: real)
    returns (pots: seq<real>)
    requires 0.0 <= b.available && b.lastRefill <= start + span
    requires LegalRun(b, es) && InWindow(es, rate, start, span)
    ensures |pots| == |es| + 1 && pots[0] == Potential(rate as real, b)
    ensures forall i :: 0 <= i < |es| ==> Paid(es, pots, i)
    ensures pots[|es|] >= -Inflow(start + span, rate as real)
    decreases |es|
  {
    if es == [] {
      pots := [Potential(rate as real, b)];
      InflowMonotone(b.lastRefill, start + span, rate as real);
    } else {
      assert InWindow(es[1..], rate, start, span);
      if es[0].Pass? {
        PassEffect(b, es[0], rate as real);
      }
      var more := Potentials(After(b, es[0]), es[1..], rate, start, span);
      pots := [Potential(rate as real, b)] + more;
      forall i | 0 <= i < |es| ensures Paid(es, pots, i) {
        if i > 0 {
          assert Paid(es[1..], more, i - 1);
        }
      }
    }
  }

  lemma OneBurst(rate: nat, at: real, start: real, span: real, first: nat, others: nat, available: real, end: real)
    requires start <= at && available + first as real <= rate as real
    requires others as real <= available - Inflow(at, rate as real) - end
    requires end >= -Inflow(start + span, rate as real)
    ensures (first + others) as real <= Inflow(span + 1.0, rate as real)
  {
    InflowMonotone(start, at, rate as real);
    InflowAdds(start, span, rate as real);
    InflowAdds(span, 1.0, rate as real);
  }

  lemma LaterEvents(b: Tokens, es: seq<Event>, rate: nat, start: real, span: real) returns (end: real)
    requires 0.0 <= b.available && b.lastRefill <= start + span
    requires LegalRun(b, es) && InWindow(es, rate, start, span)
    ensures Admitted(es) as real <= b.available - Inflow(b.lastRefill, rate as real) - end
    ensures end >= -Inflow(start + span, rate as real)
  {
    var pots := Potentials(b, es, rate, start, span);
    SumsTelescope(es, pots);
    end := pots[|es|];
  }

  /** A bucket that has just been refilled and drawn from inside the window. */
  lemma WindowAfterPass(b: Tokens, bytes: nat, es: seq<Event>, rate: nat, start: real, span: real)
    requires 0.0 <= b.available && b.available + bytes as real <= rate as real
    requires start <= b.lastRefill <= start + span
    requires LegalRun(b, es) && InWindow(es, rate, start, span)
    ensures (bytes + Admitted(es)) as real <= Inflow(span + 1.0, rate as real)
  {
    var end := LaterEvents(b, es, rate, start, span);
    OneBurst(rate, b.lastRefill, start, span, bytes, Admitted(es), b.available, end);
  }

  lemma {:induction false} WindowBound(b: Tokens, es: seq<Event>, rate: nat, start: real, span: real)
    requires 0.0 <= b.available && span >= 0.0
    requires LegalRun(b, es) && InWindow(es, rate, start, span)
    ensures Admitted(es) as real <= Inflow(span + 1.0, rate as real)
    decreases |es|
  {
    if es == [] {
      InflowNonNegative(span + 1.0, rate as real);
    } else {
      assert InWindow(es[1..], rate, start, span);
      if es[0].Pass? {
        PassEffect(b, es[0], rate as real);
        WindowAfterPass(After(b, es[0]), es[0].bytes, es[1..], rate, start, span);
      } else {
        WindowBound(After(b, es[0]), es[1..], rate, start, span);
      }
    }
  }

  lemma {:induction false} LegalPrefix(b: Tokens, es: seq<Event>, i: nat)
    requires 0.0 <= b.available && LegalRun(b, es) && i <= |es|
    ensures LegalRun(b, es[..i])
    decreases |es|
  {
    if i > 0 {
      LegalStepAvailable(b, es[0]);
      LegalPrefix(After(b, es[0]), es[1..], i - 1);
      assert es[..i][1..] == es[1..][..i - 1];
    }
  }

  lemma LegalStepAvailable(b: Tokens, e: Event)
    requires 0.0 <= b.available && Legal(b, e)
    ensures 0.0 <= After(b, e).available
  {
  }

  lemma {:induction false} LegalSuffix(b: Tokens, es: seq<Event>, i: nat) returns (c: Tokens)
    requires 0.0 <= b.available && LegalRun(b, es) && i <= |es|
    ensures 0.0 <= c.available && LegalRun(c, es[i..])
    decreases |es|
  {
    if i == 0 {
      c := b;
      assert es[0..] == es;
    } else {
      LegalStepAvailable(b, es[0]);
      c := LegalSuffix(After(b, es[0]), es[1..], i - 1);
      assert es[1..][i - 1..] == es[i..];
    }
  }

  /**
   The bandwidth bound: for every sequence of requests and every schedule of rate
   changes and clock readings, the bytes admitted by any consecutive events that
   fall within `span` seconds and read only positive rates of at most `rate` are
   at most `(span + 1) * rate`.
   */
  lemma BandwidthBound(b: Tokens, now: real, requests: seq<nat>, ticks: seq<Tick>,
                       i: nat, j: nat, rate: nat, start: real, span: real)
    requires Sane(b, now) && span >= 0.0
    requires i <= j <= |ServeEvents(b, now, requests, ticks)|
    requires InWindow(ServeEvents(b, now, requests, ticks)[i..j], rate, start, span)
    ensures Admitted(ServeEvents(b, now, requests, ticks)[i..j]) as real <= (span + 1.0) * rate as real
  {
    var es := ServeEvents(b, now, requests, ticks);
    ServeIsLegal(b, now, requests, ticks);
    var c := LegalSuffix(b, es, i);
    LegalPrefix(c, es[i..], j - i);
    assert es[i..][..j - i] == es[i..j];
    WindowBound(c, es[i..j], rate, start, span);
  }

  /** The events of a call that returns account for exactly its `n` bytes. */
  lemma {:induction false} LoopAdmitsRequest(b: Tokens, now: real, bps: nat, n: nat, ticks: seq<Tick>)
    requires bps > 0
    ensures Admitted(LoopEvents(b, now, bps, n, ticks)) == if AcquireLoop(b, now, bps, n, ticks).returned then n else 0
    decreases |ticks|
  {
    if ticks != [] {
      var now1 := now + ticks[0].lag;
      var b1 := Refilled(b, ticks[0].bps, now1);
      if b1.available < n as real {
        LoopAdmitsRequest(b1, now1 + Wait(n, b1.available, bps), bps, n, ticks[1..]);
        var es := LoopEvents(b, now, bps, n, ticks);
        assert es[1..] == LoopEvents(b1, now1 + Wait(n, b1.available, bps), bps, n, ticks[1..]);
      }
    }
  }

  lemma AcquireAdmitsRequest(b: Tokens, now: real, n: nat, ticks: seq<Tick>)
    ensures Admitted(AcquireEvents(b, now, n, ticks)) == if Acquire(b, now, n, ticks).returned then n else 0
  {
    if ticks != [] && ticks[0].bps > 0 && n > 0 {
      LoopAdmitsRequest(b, now + ticks[0].lag, ticks[0].bps, n, ticks[1..]);
    }
  }

  /**
   At any rates, `acquire` loads the rate once for each pass, and sleeps between
   two passes for exactly the tokens missing at the rate it captured, but at least
   a millisecond; the pass that takes the tokens is the last one.
   */
  lemma {:induction false} PassesAreSpaced(b: Tokens, now: real, bps: nat, n: nat, ticks: seq<Tick>, i: nat)
    requires bps > 0 && i < |LoopEvents(b, now, bps, n, ticks)|
    ensures
      var es := LoopEvents(b, now, bps, n, ticks);
      var a := AcquireLoop(b, now, bps, n, ticks);
      && |es| <= |ticks| && es[i].Pass? && es[i].bps == ticks[i].bps
      && es[i].at == ticks[i].lag
           + (if i == 0 then now
              else es[i - 1].at + Max((n as real - AfterAll(b, es[..i]).available) / bps as real, 0.001))
      && (es[i].bytes == if a.returned && i == |es| - 1 then n else 0)
      && (a.returned && i == |es| - 1 ==> a.now == es[i].at)
    decreases |ticks|
  {
    var now1 := now + ticks[0].lag;
    var b1 := Refilled(b, ticks[0].bps, now1);
    if b1.available < n as real {
      var es := LoopEvents(b, now, bps, n, ticks);
      var next := now1 + Wait(n, b1.available, bps);
      var rest := LoopEvents(b1, next, bps, n, ticks[1..]);
      assert es == [Pass(ticks[0].bps, now1, 0)] + rest && After(b, es[0]) == b1;
      if i > 0 {
        PassesAreSpaced(b1, next, bps, n, ticks[1..], i - 1);
        assert es[..i][1..] == rest[..i - 1];
      } else if rest != [] {
        PassesAreSpaced(b1, next, bps, n, ticks[1..], |rest| - 1);
      }
    }
  }

  /** The bound is met with equality: a full burst, then one second of tokens a second later. */
  lemma BoundIsTight(rate: nat)
    requires rate > 0
    ensures
      var b := Tokens(rate as real, 0.0);
      var ticks := [Tick(rate, 0.0), Tick(rate, 0.0), Tick(rate, 1.0), Tick(rate, 0.0)];
      var es := ServeEvents(b, 0.0, [rate, rate], ticks);
      && InWindow(es, rate, 0.0, 1.0)
      && Admitted(es) as real == (1.0 + 1.0) * rate as real
  {
    var b := Tokens(rate as real, 0.0);
    var ticks := [Tick(rate, 0.0), Tick(rate, 0.0), Tick(rate, 1.0), Tick(rate, 0.0)];
    assert ticks[1..] == [Tick(rate, 0.0), Tick(rate, 1.0), Tick(rate, 0.0)];
    assert ticks[1..][1..] == [Tick(rate, 1.0), Tick(rate, 0.0)];
    assert Refilled(b, rate, 0.0) == b;
    assert AcquireEvents(b, 0.0, rate, ticks) == [Pass(rate, 0.0, rate)];
    var a := Acquire(b, 0.0, rate, ticks);
    assert a == Acquired(true, Tokens(0.0, 0.0), 0.0, [Tick(rate, 1.0), Tick(rate, 0.0)]);
    assert a.left[1..] == [Tick(rate, 0.0)];
    assert Refilled(Tokens(0.0, 0.0), rate, 1.0) == Tokens(rate as real, 1.0);
    assert AcquireEvents(a.tokens, 0.0, rate, a.left) == [Pass(rate, 1.0, rate)];
    assert [rate, rate][1..] == [rate] && [rate][1..] == [];
    var a2 := Acquire(a.tokens, 0.0, rate, a.left);
    assert ServeEvents(a2.tokens, a2.now, [], a2.left) == [];
    assert ServeEvents(a.tokens, 0.0, [rate], a.left) == [Pass(rate, 1.0, rate)];
    var es := ServeEvents(b, 0.0, [rate, rate], ticks);
    assert es == [Pass(rate, 0.0, rate), Pass(rate, 1.0, rate)];
    assert es[1..] == [Pass(rate, 1.0, rate)] && es[1..][1..] == [];
    assert Admitted([]) == 0;
    assert Admitted(es[1..]) == rate;
    assert Admitted(es) == rate + rate;
  }
}
