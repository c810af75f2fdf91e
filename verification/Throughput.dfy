/**
 How long the limiter takes at a constant rate: requests served one behind the
 other cannot finish before their tokens have come in, and finish at most a
 millisecond a request later.
 */
module Throughput {
  import opened RateLimit

  /** Every request of `requests` in turn, until one does not return. */
  function Serve(b: Tokens, now: real, requests: seq<nat>, ticks: seq<Tick>): Acquired
    decreases |requests|
  {
    if requests == [] then Acquired(true, b, now, ticks)
    else
      var a := Acquire(b, now, requests[0], ticks);
      if a.returned then Serve(a.tokens, a.now, requests[1..], a.left) else a
  }

  function Sum(requests: seq<nat>): nat {
    if requests == [] then 0 else requests[0] + Sum(requests[1..])
  }

  /** How much later than requested the copy got to run, in all. */
  function Lags(ticks: seq<Tick>): Delay {
    if ticks == [] then 0.0 else ticks[0].lag + Lags(ticks[1..])
  }

  /** The tokens in hand at `now`, at most one second's worth. */
  function InHand(b: Tokens, now: real, rate: nat): real {
    Earned(b.available, now - b.lastRefill, rate)
  }

  /** The time `tokens` more tokens take to come in. */
  function Earning(tokens: real, rate: nat): real
    requires rate > 0
  {
    tokens / rate as real
  }

  /** The time until `tokens` are in hand. */
  function Owed(tokens: real, rate: nat): real
    requires rate > 0
  {
    Max(0.0, Earning(tokens, rate))
  }

  lemma EarningMonotone(a: real, b: real, rate: nat)
    requires rate > 0 && a <= b
    ensures Earning(a, rate) <= Earning(b, rate)
  {
    var r := rate as real;
    var more := Earning(b - a, rate);
    assert Earning(b, rate) == Earning(a, rate) + more;
  }

  lemma EarningLess(a: real, seconds: real, rate: nat)
    requires rate > 0
    ensures Earning(a - Inflow(seconds, rate as real), rate) == Earning(a, rate) - seconds
  {
    var r := rate as real;
    assert (a - seconds * r) / r == a / r - seconds;
  }

  /** A refill at `at` of what was in hand before. */
  lemma RefillAfter(b: Tokens, now: real, at: real, rate: nat)
    requires Sane(b, now) && now <= at && rate > 0
    ensures Refilled(b, rate, at).available == Earned(InHand(b, now, rate), at - now, rate)
    ensures InHand(b, now, rate) <= Refilled(b, rate, at).available
  {
    InflowAdds(now - b.lastRefill, at - now, rate as real);
    InflowNonNegative(at - now, rate as real);
  }

  /** Being late earns tokens, and never delays the end by more than the lateness. */
  lemma LagCosts(have: real, lag: real, owed: real, rate: nat)
    requires rate > 0 && lag >= 0.0 && have <= rate as real
    ensures
      var then' := Earned(have, lag, rate);
      && Owed(owed - then', rate) <= Owed(owed - have, rate)
      && Earning(owed - have, rate) <= lag + Earning(owed - then', rate)
  {
    var then' := Earned(have, lag, rate);
    InflowNonNegative(lag, rate as real);
    EarningMonotone(owed - then', owed - have, rate);
    EarningLess(owed - have, lag, rate);
    EarningMonotone(owed - have - Inflow(lag, rate as real), owed - then', rate);
  }

  /** A sleep for the missing tokens brings the end nearer by its own length, up to a millisecond. */
  lemma SleepPays(have: real, n: nat, owed: real, sleep: real, rate: nat)
    requires rate > 0 && have < n as real <= rate as real && n as real <= owed
    requires sleep == Max(Earning(n as real - have, rate), 0.001)
    ensures
      var then' := Earned(have, sleep, rate);
      sleep + Owed(owed - then', rate) <= Owed(owed - have, rate) + 0.001
  {
    var r := rate as real;
    var then' := Earned(have, sleep, rate);
    EarningMonotone(n as real - have, owed - have, rate);
    if then' == r {
      InflowOfQuotient(n as real - have, r);
      assert Earning(n as real - have, rate) >= 0.001 ==> sleep == Earning(n as real - have, rate) && r == n as real;
      EarningMonotone(owed - r, owed - have, rate);
      EarningLess(owed - have, sleep, rate);
    } else {
      EarningLess(owed - have, sleep, rate);
    }
  }

  /** The end of serving `owed` bytes stays within these bounds over one request. */
  predicate Bounds(b: Tokens, now: real, ticks: seq<Tick>, a: Acquired, n: nat, owed: nat, rate: nat)
    requires rate > 0 && n <= owed
  {
    && a.now + Lags(a.left) + Owed((owed - n) as real - InHand(a.tokens, a.now, rate), rate)
         <= now + Lags(ticks) + Owed(owed as real - InHand(b, now, rate), rate) + 0.001
    && now + Earning(owed as real - InHand(b, now, rate), rate)
         <= a.now + Earning((owed - n) as real - InHand(a.tokens, a.now, rate), rate)
  }

  lemma LagsOfThree(ticks: seq<Tick>)
    requires |ticks| >= 3
    ensures Lags(ticks) == ticks[0].lag + Lags(ticks[1..])
    ensures Lags(ticks) == ticks[0].lag + ticks[1].lag + Lags(ticks[2..])
    ensures Lags(ticks) == ticks[0].lag + ticks[1].lag + ticks[2].lag + Lags(ticks[3..])
  {
    assert ticks[1..][1..] == ticks[2..] && ticks[2..][1..] == ticks[3..];
  }

  lemma EmptyRequestBounds(b: Tokens, now: real, rate: nat, owed: nat, ticks: seq<Tick>)
    requires Sane(b, now) && rate > 0 && Constant(ticks, rate) && |ticks| >= 3
    ensures Bounds(b, now, ticks, Acquire(b, now, 0, ticks), 0, owed, rate)
  {
    LagsOfThree(ticks);
    RefillAfter(b, now, now + ticks[0].lag, rate);
    LagCosts(InHand(b, now, rate), ticks[0].lag, owed as real, rate);
  }

  /** What a request finds in the bucket once it has loaded the rate twice. */
  function Found(b: Tokens, now: real, rate: nat, ticks: seq<Tick>): real
    requires |ticks| >= 2
  {
    Refilled(b, rate, now + ticks[0].lag + ticks[1].lag).available
  }

  lemma InHandNow(b: Tokens, rate: nat)
    requires b.available <= rate as real
    ensures InHand(b, b.lastRefill, rate) == b.available
  {
  }

  /** A request that what it finds covers takes it at once; another one has slept once. */
  lemma OneRequest(b: Tokens, now: real, rate: nat, n: nat, ticks: seq<Tick>)
    requires Sane(b, now) && 0 < n <= rate && Constant(ticks, rate) && |ticks| >= 3
    ensures
      var a := Acquire(b, now, n, ticks);
      var have := Found(b, now, rate, ticks);
      var sleep := Max(Earning(n as real - have, rate), 0.001);
      && have <= rate as real
      && InHand(a.tokens, a.now, rate) == a.tokens.available
      && a.now + Lags(a.left) == now + Lags(ticks) + (if n as real <= have then 0.0 else sleep)
      && a.now == now + ticks[0].lag + ticks[1].lag + (if n as real <= have then 0.0 else sleep + ticks[2].lag)
      && a.tokens.available + n as real
           == if n as real <= have then have else Earned(have, sleep + ticks[2].lag, rate)
  {
    LagsOfThree(ticks);
    var at, have := now + ticks[0].lag + ticks[1].lag, Found(b, now, rate, ticks);
    var sleep := Max((n as real - have) / rate as real, 0.001) + ticks[2].lag;
    AcquireSleepsOnce(b, now, rate, n, ticks, at, have, sleep);
    var a := Acquire(b, now, n, ticks);
    InHandNow(a.tokens, rate);
  }

  /** A sleep, and being late behind it. */
  lemma LateSleep(have: real, n: nat, owed: real, sleep: real, lag: real, rate: nat)
    requires rate > 0 && have < n as real <= rate as real && n as real <= owed && lag >= 0.0
    requires sleep == Max(Earning(n as real - have, rate), 0.001)
    ensures
      var then' := Earned(have, sleep + lag, rate);
      && sleep + Owed(owed - then', rate) <= Owed(owed - have, rate) + 0.001
      && Earning(owed - have, rate) <= sleep + lag + Earning(owed - then', rate)
  {
    var slept := Earned(have, sleep, rate);
    var then' := Earned(have, sleep + lag, rate);
    SleepPays(have, n, owed, sleep, rate);
    LagCosts(have, sleep + lag, owed, rate);
    InflowMonotone(sleep, sleep + lag, rate as real);
    EarningMonotone(owed - then', owed - slept, rate);
  }

  lemma RequestBounds(b: Tokens, now: real, rate: nat, n: nat, owed: nat, ticks: seq<Tick>)
    requires Sane(b, now) && 0 < n <= rate && n <= owed && Constant(ticks, rate) && |ticks| >= 3
    ensures Bounds(b, now, ticks, Acquire(b, now, n, ticks), n, owed, rate)
  {
    var lag := ticks[0].lag + ticks[1].lag;
    var have := Found(b, now, rate, ticks);
    OneRequest(b, now, rate, n, ticks);
    RefillAfter(b, now, now + lag, rate);
    LagCosts(InHand(b, now, rate), lag, owed as real, rate);
    if have < n as real {
      LateSleep(have, n, owed as real, Max(Earning(n as real - have, rate), 0.001), ticks[2].lag, rate);
    }
  }

  /**
   Requests that a constant rate admits, served one behind the other, end no
   earlier than their bytes, less what was in hand, have come in, and at most a
   millisecond a request later, not counting time the copy was not run.
   */
  lemma {:induction false} ServedInTime(b: Tokens, now: real, rate: nat, requests: seq<nat>, ticks: seq<Tick>)
    requires Sane(b, now) && rate > 0 && Constant(ticks, rate) && |ticks| >= 3 * |requests|
    requires forall i :: 0 <= i < |requests| ==> requests[i] <= rate
    ensures
      var a := Serve(b, now, requests, ticks);
      var earned := (Sum(requests) as real - InHand(b, now, rate)) / rate as real;
      && a.returned && now + earned <= a.now
      && a.now + Lags(a.left) <= now + Lags(ticks) + Max(0.0, earned) + |requests| as real * 0.001
    decreases |requests|
  {
    if requests == [] {
      InflowNonNegative(now - b.lastRefill, rate as real);
      EarningMonotone(-InHand(b, now, rate), 0.0, rate);
    } else {
      var n, owed := requests[0], Sum(requests);
      var a := Acquire(b, now, n, ticks);
      AcquireReturns(b, now, rate, n, ticks);
      if n == 0 {
        EmptyRequestBounds(b, now, rate, owed, ticks);
      } else {
        RequestBounds(b, now, rate, n, owed, ticks);
      }
      ServedInTime(a.tokens, a.now, rate, requests[1..], a.left);
    }
  }

  lemma AcquireReturns(b: Tokens, now: real, rate: nat, n: nat, ticks: seq<Tick>)
    requires Sane(b, now) && rate > 0 && n <= rate && Constant(ticks, rate) && |ticks| >= 3
    ensures
      var a := Acquire(b, now, n, ticks);
      a.returned && Sane(a.tokens, a.now) && Constant(a.left, rate) && |a.left| >= |ticks| - 3
  {
    if n > 0 {
      AcquireIsExact(b, now, rate, n, ticks);
      AcquireSleepsExactly(b, now, rate, n, ticks);
    }
  }

  /** What is in hand is served without sleeping. */
  lemma {:induction false} BurstIsImmediate(b: Tokens, now: real, rate: nat, requests: seq<nat>, ticks: seq<Tick>)
    requires Sane(b, now) && rate > 0 && Constant(ticks, rate) && |ticks| >= 3 * |requests|
    requires Sum(requests) as real <= InHand(b, now, rate)
    ensures
      var a := Serve(b, now, requests, ticks);
      a.returned && a.now + Lags(a.left) == now + Lags(ticks)
    decreases |requests|
  {
    if requests != [] {
      var n := requests[0];
      var a := Acquire(b, now, n, ticks);
      AcquireReturns(b, now, rate, n, ticks);
      if n == 0 {
        LagsOfThree(ticks);
        RefillAfter(b, now, now + ticks[0].lag, rate);
      } else {
        OneRequest(b, now, rate, n, ticks);
        RefillAfter(b, now, now + ticks[0].lag + ticks[1].lag, rate);
      }
      BurstIsImmediate(a.tokens, a.now, rate, requests[1..], a.left);
    }
  }

  lemma {:induction false} LoopNeverBackwards(b: Tokens, now: real, bps: nat, n: nat, ticks: seq<Tick>)
    requires bps > 0
    ensures now <= AcquireLoop(b, now, bps, n, ticks).now
    decreases |ticks|
  {
    if ticks != [] {
      var now1 := now + ticks[0].lag;
      var b1 := Refilled(b, ticks[0].bps, now1);
      if b1.available < n as real {
        LoopNeverBackwards(b1, now1 + Wait(n, b1.available, bps), bps, n, ticks[1..]);
      }
    }
  }

  lemma {:induction false} NeverBackwards(b: Tokens, now: real, requests: seq<nat>, ticks: seq<Tick>)
    ensures now <= Serve(b, now, requests, ticks).now
    decreases |requests|
  {
    if requests != [] {
      var a := Acquire(b, now, requests[0], ticks);
      if ticks != [] && ticks[0].bps > 0 && requests[0] > 0 {
        LoopNeverBackwards(b, now + ticks[0].lag, ticks[0].bps, requests[0], ticks[1..]);
      }
      if a.returned {
        NeverBackwards(a.tokens, a.now, requests[1..], a.left);
      }
    }
  }
}
