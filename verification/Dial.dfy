/**
 The retry loop of `dial_stream`: provider cache, fallback to the relay, and
 exponential backoff in `u64` milliseconds.

 The environment is a finite list of attempts, each saying how subscribe, the
 direct dial and the relay dial would end if they are reached.
 */
module Dial {
  import opened Endpoints
  import opened Numbers
  import opened Options

  const U64 := 0x1_0000_0000_0000_0000
  const HALF_U64 := 0x8000_0000_0000_0000

  datatype Settings = Settings(initial: nat, max: nat, preferDirect: bool)

  function ClampBackoff(configured: nat, floor: nat): (r: nat)
    ensures r >= floor && r >= configured && (r == floor || r == configured)
  {
    if configured < floor then floor else configured
  }

  /** What `main` passes on: 10 ms and 100 ms floors. */
  function Clamped(s: Settings): Settings {
    Settings(ClampBackoff(s.initial, 10), ClampBackoff(s.max, 100), s.preferDirect)
  }

  /** Failures of the direct dial are split by whether they say the cached id is stale. */
  datatype Direct = DirectOk | AuthFailure | OtherFailure

  datatype Attempt = Attempt(subscribe: Option<EndpointId>, direct: Direct, relayOk: bool)

  /** A failed pass through the loop: whether it subscribed, whom it dialed, and how long it slept. */
  datatype Try = Try(subscribed: bool, provider: EndpointId, direct: Option<Direct>, slept: nat)

  datatype Result = LiveDirect(EndpointId) | LiveRelay(EndpointId) | NoProvider | Overflow | StillTrying

  datatype Outcome = Outcome(result: Result, tries: seq<Try>, cached: Option<EndpointId>)

  function Prepend(t: Try, o: Outcome): Outcome {
    o.(tries := [t] + o.tries)
  }

  function DirectResult(s: Settings, a: Attempt): Option<Direct> {
    if s.preferDirect then Some(a.direct) else None
  }

  function CacheAfter(provider: EndpointId, d: Option<Direct>): Option<EndpointId> {
    if d == Some(AuthFailure) then None else Some(provider)
  }

  function DialFrom(s: Settings, cached: Option<EndpointId>, backoff: nat, env: seq<Attempt>): Outcome
    decreases |env|
  {
    if env == [] then Outcome(StillTrying, [], cached)
    else
      var a := env[0];
      var found := if cached.Some? then cached else a.subscribe;
      if found.None? then Outcome(NoProvider, [], cached)
      else
        var d := DirectResult(s, a);
        if d == Some(DirectOk) then Outcome(LiveDirect(found.value), [], found)
        else if a.relayOk then Outcome(LiveRelay(found.value), [], CacheAfter(found.value, d))
        else
          var t := Try(cached.None?, found.value, d, backoff);
          if backoff * 2 >= U64 then Outcome(Overflow, [t], CacheAfter(found.value, d))
          else Prepend(t, DialFrom(s, CacheAfter(found.value, d), Min(backoff * 2, s.max), env[1..]))
  }

  /** The failures of the passes so far, in front of what the rest of the loop does. */
  function Behind(tries: seq<Try>, o: Outcome): Outcome {
    o.(tries := tries + o.tries)
  }

  lemma BehindPrepend(tries: seq<Try>, t: Try, o: Outcome)
    ensures Behind(tries, Prepend(t, o)) == Behind(tries + [t], o)
  {
    assert tries + ([t] + o.tries) == tries + [t] + o.tries;
  }

  /** The consumer's shared state: the provider id that the last subscribe found. */
  class ConsumeState {
    var cachedProvider: Option<EndpointId>

    constructor ()
      ensures cachedProvider == None
    {
      cachedProvider := None;
    }

    method EnsureProviderId(subscribe: Option<EndpointId>) returns (id: Option<EndpointId>)
      modifies this
      ensures id == if old(cachedProvider).Some? then old(cachedProvider) else subscribe
      ensures cachedProvider == id
    {
      if cachedProvider.Some? {
        return cachedProvider;
      }
      if subscribe.None? {
        return None;
      }
      cachedProvider := subscribe;
      return subscribe;
    }

    method InvalidateProviderCache()
      modifies this
      ensures cachedProvider == None
    {
      cachedProvider := None;
    }

    method DialStream(s: Settings, env: seq<Attempt>) returns (result: Result, tries: seq<Try>)
      modifies this
      ensures Outcome(result, tries, cachedProvider) == DialFrom(s, old(cachedProvider), s.initial, env)
    {
      var backoff: nat := s.initial;
      tries := [];
      var k := 0;
      assert env[0..] == env;
      ghost var goal := DialFrom(s, cachedProvider, backoff, env);
      assert [] + goal.tries == goal.tries;
      while k < |env|
        invariant 0 <= k <= |env|
        invariant goal == Behind(tries, DialFrom(s, cachedProvider, backoff, env[k..]))
      {
        assert env[k..][0] == env[k] && env[k..][1..] == env[k + 1..];
        var wasEmpty := cachedProvider.None?;
        var id := EnsureProviderId(env[k].subscribe);
        if id.None? {
          return NoProvider, tries;
        }
        if s.preferDirect {
          if env[k].direct.DirectOk? {
            return LiveDirect(id.value), tries;
          }
          if env[k].direct.AuthFailure? {
            InvalidateProviderCache();
          }
        }
        if env[k].relayOk {
          return LiveRelay(id.value), tries;
        }
        var t := Try(wasEmpty, id.value, DirectResult(s, env[k]), backoff);
        if backoff * 2 >= U64 {
          return Overflow, tries + [t];
        }
        backoff := Min(backoff * 2, s.max);
        k := k + 1;
        BehindPrepend(tries, t, DialFrom(s, cachedProvider, backoff, env[k..]));
        tries := tries + [t];
      }
      assert env[k..] == [];
      return StillTrying, tries;
    }
  }

  // ---------------------------------------------------------------------
  // Backoff
  // ---------------------------------------------------------------------

  function Pow2(k: nat): (r: nat)
    ensures r >= 1
  {
    if k == 0 then 1 else 2 * Pow2(k - 1)
  }

  /** The closed form of the k-th sleep. */
  function BackoffAt(s: Settings, k: nat): nat {
    if k == 0 then s.initial else Min(s.initial * Pow2(k), s.max)
  }

  lemma BackoffDoubles(s: Settings, k: nat)
    ensures Min(BackoffAt(s, k) * 2, s.max) == BackoffAt(s, k + 1)
  {
    var grown := s.initial * Pow2(k);
    assert s.initial * Pow2(k + 1) == grown * 2;
  }

  /** The value of `backoff_ms` after `i` doublings. */
  function Doubled(s: Settings, backoff: nat, i: nat): nat
    decreases i
  {
    if i == 0 then backoff else Doubled(s, Min(backoff * 2, s.max), i - 1)
  }

  lemma {:induction false} DoubledClosedForm(s: Settings, k: nat, i: nat)
    ensures Doubled(s, BackoffAt(s, k), i) == BackoffAt(s, k + i)
    decreases i
  {
    if i > 0 {
      BackoffDoubles(s, k);
      DoubledClosedForm(s, k + 1, i - 1);
    }
  }

  lemma {:induction false} SleepsDouble(s: Settings, cached: Option<EndpointId>, backoff: nat, env: seq<Attempt>, i: nat)
    requires i < |DialFrom(s, cached, backoff, env).tries|
    ensures DialFrom(s, cached, backoff, env).tries[i].slept == Doubled(s, backoff, i)
    decreases i
  {
    if i > 0 {
      var o := DialFrom(s, cached, backoff, env);
      var next := CacheAfter(o.tries[0].provider, o.tries[0].direct);
      assert o.tries == [o.tries[0]] + DialFrom(s, next, Min(backoff * 2, s.max), env[1..]).tries;
      SleepsDouble(s, next, Min(backoff * 2, s.max), env[1..], i - 1);
    }
  }

  /**
   The settings are clamped to at least 10 and 100 ms; then the k-th sleep is
   `initial` for k = 0 and `min(initial * 2^k, max)` after, and never below 10 ms.
   */
  lemma SleepsAreExponential(s: Settings, cached: Option<EndpointId>, env: seq<Attempt>, i: nat)
    requires i < |DialFrom(Clamped(s), cached, Clamped(s).initial, env).tries|
    ensures
      var initial, max := Max(s.initial, 10), Max(s.max, 100);
      && DialFrom(Clamped(s), cached, Clamped(s).initial, env).tries[i].slept
           == (if i == 0 then initial else Min(initial * Pow2(i), max)) >= 10
      && Clamped(s).preferDirect == s.preferDirect
  {
    var c := Clamped(s);
    SleepsDouble(c, cached, c.initial, env, i);
    DoubledClosedForm(c, 0, i);
    assert c.initial * Pow2(i) >= c.initial by {
      MulAtLeast(c.initial, Pow2(i));
    }
  }

  lemma MulAtLeast(a: nat, b: nat)
    requires b >= 1
    ensures a * b >= a
  {
  }

  lemma {:induction false} SmallBackoffNeverOverflows(s: Settings, cached: Option<EndpointId>, backoff: nat, env: seq<Attempt>)
    requires backoff < HALF_U64 && s.max < HALF_U64
    ensures !DialFrom(s, cached, backoff, env).result.Overflow?
    decreases |env|
  {
    if env != [] {
      var found := if cached.Some? then cached else env[0].subscribe;
      if found.Some? {
        SmallBackoffNeverOverflows(s, CacheAfter(found.value, DirectResult(s, env[0])), Min(backoff * 2, s.max), env[1..]);
      }
    }
  }

  /** An environment in which every dial fails. */
  lemma {:induction false} BigBackoffOverflows(s: Settings, cached: Option<EndpointId>, backoff: nat) returns (env: seq<Attempt>)
    requires 0 < backoff && (backoff >= HALF_U64 || s.max >= HALF_U64)
    ensures DialFrom(s, cached, backoff, env).result.Overflow?
    decreases HALF_U64 - backoff
  {
    var fail := Attempt(Some(0), OtherFailure, false);
    if backoff >= HALF_U64 {
      env := [fail];
    } else {
      var found := if cached.Some? then cached else fail.subscribe;
      var more := BigBackoffOverflows(s, CacheAfter(found.value, DirectResult(s, fail)), Min(backoff * 2, s.max));
      env := [fail] + more;
      assert env[1..] == more;
    }
  }

  /** The doubling can overflow `u64` exactly when one of the two settings is at least 2^63. */
  lemma OverflowExactly(s: Settings, cached: Option<EndpointId>)
    requires s.initial > 0
    ensures (exists env :: DialFrom(s, cached, s.initial, env).result.Overflow?)
       <==> s.initial >= 0x8000_0000_0000_0000 || s.max >= 0x8000_0000_0000_0000
  {
    if s.initial >= HALF_U64 || s.max >= HALF_U64 {
      var env := BigBackoffOverflows(s, cached, s.initial);
    } else {
      forall env ensures !DialFrom(s, cached, s.initial, env).result.Overflow? {
        SmallBackoffNeverOverflows(s, cached, s.initial, env);
      }
    }
  }

  // ---------------------------------------------------------------------
  // What a dial ends with
  // ---------------------------------------------------------------------

  /** The provider that pass `k` dials if all passes before it fail: the last subscribe's, redone behind an authentication failure. */
  function ProviderAt(s: Settings, cached: Option<EndpointId>, env: seq<Attempt>, k: nat): Option<EndpointId>
    requires k < |env|
  {
    if k == 0 then if cached.Some? then cached else env[0].subscribe
    else if s.preferDirect && env[k - 1].direct.AuthFailure? then env[k].subscribe
    else ProviderAt(s, cached, env, k - 1)
  }

  predicate ReachesDirectly(s: Settings, a: Attempt) {
    s.preferDirect && a.direct.DirectOk?
  }

  predicate Reaches(s: Settings, a: Attempt) {
    ReachesDirectly(s, a) || a.relayOk
  }

  /** Pass `k` is followed by another one: it has a provider, both dials fail, and the backoff can double. */
  predicate GoesOn(s: Settings, cached: Option<EndpointId>, backoff: nat, env: seq<Attempt>, k: nat)
    requires k < |env|
  {
    ProviderAt(s, cached, env, k).Some? && !Reaches(s, env[k]) && Doubled(s, backoff, k) < HALF_U64
  }

  predicate AllGoOn(s: Settings, cached: Option<EndpointId>, backoff: nat, env: seq<Attempt>, n: nat)
    requires n <= |env|
  {
    forall k :: 0 <= k < n ==> GoesOn(s, cached, backoff, env, k)
  }

  lemma {:induction false} ProviderLater(s: Settings, cached: Option<EndpointId>, env: seq<Attempt>, k: nat)
    requires k + 1 < |env| && ProviderAt(s, cached, env, 0).Some?
    ensures
      var next := CacheAfter(ProviderAt(s, cached, env, 0).value, DirectResult(s, env[0]));
      ProviderAt(s, cached, env, k + 1) == ProviderAt(s, next, env[1..], k)
  {
    if k > 0 {
      ProviderLater(s, cached, env, k - 1);
    }
  }

  lemma GoesOnLater(s: Settings, cached: Option<EndpointId>, backoff: nat, env: seq<Attempt>, k: nat)
    requires k + 1 < |env| && ProviderAt(s, cached, env, 0).Some?
    ensures
      var next := CacheAfter(ProviderAt(s, cached, env, 0).value, DirectResult(s, env[0]));
      GoesOn(s, cached, backoff, env, k + 1) <==> GoesOn(s, next, Min(backoff * 2, s.max), env[1..], k)
  {
    ProviderLater(s, cached, env, k);
  }

  /** `o` is what pass `n` ends the dial with when all passes before it go on. */
  ghost predicate EndsAt(s: Settings, cached: Option<EndpointId>, env: seq<Attempt>, n: nat, o: Outcome)
    requires n < |env|
  {
    var p := ProviderAt(s, cached, env, n);
    && (o.result == NoProvider <==> p == None)
    && (forall id: EndpointId :: o.result == LiveDirect(id) <==> p == Some(id) && ReachesDirectly(s, env[n]))
    && (forall id: EndpointId :: o.result == LiveRelay(id) <==>
          p == Some(id) && !ReachesDirectly(s, env[n]) && env[n].relayOk)
    && (o.result == Overflow <==> p.Some? && !Reaches(s, env[n]))
    && |o.tries| == n + (if o.result == Overflow then 1 else 0)
    && o.cached == if s.preferDirect && env[n].direct.AuthFailure? then None else p
  }

  lemma FirstPassEnds(s: Settings, cached: Option<EndpointId>, backoff: nat, env: seq<Attempt>)
    requires env != [] && !GoesOn(s, cached, backoff, env, 0)
    ensures EndsAt(s, cached, env, 0, DialFrom(s, cached, backoff, env))
  {
  }

  lemma FirstPassGoesOn(s: Settings, cached: Option<EndpointId>, backoff: nat, env: seq<Attempt>)
    requires env != [] && GoesOn(s, cached, backoff, env, 0)
    ensures
      var p := ProviderAt(s, cached, env, 0).value;
      var t := Try(cached.None?, p, DirectResult(s, env[0]), backoff);
      DialFrom(s, cached, backoff, env)
        == Prepend(t, DialFrom(s, CacheAfter(p, DirectResult(s, env[0])), Min(backoff * 2, s.max), env[1..]))
  {
  }

  /**
   What a dial returns, from its environment alone. Passes go on while a provider is
   known and both dials fail. The first one that does not go on decides: no provider
   if a needed subscribe fails, else the direct stream if the direct dial is tried
   and succeeds, else the relayed one, else the doubling overflows. The dial is still
   trying exactly when there is no such pass.
   */
  lemma {:induction false} DialEndsExactly(s: Settings, cached: Option<EndpointId>, backoff: nat, env: seq<Attempt>)
    ensures DialFrom(s, cached, backoff, env).result == StillTrying <==> AllGoOn(s, cached, backoff, env, |env|)
    ensures forall n: nat :: n < |env| && AllGoOn(s, cached, backoff, env, n) && !GoesOn(s, cached, backoff, env, n) ==>
      EndsAt(s, cached, env, n, DialFrom(s, cached, backoff, env))
    decreases |env|
  {
    if env != [] && GoesOn(s, cached, backoff, env, 0) {
      var next := CacheAfter(ProviderAt(s, cached, env, 0).value, DirectResult(s, env[0]));
      var later := Min(backoff * 2, s.max);
      FirstPassGoesOn(s, cached, backoff, env);
      DialEndsExactly(s, next, later, env[1..]);
      forall k: nat | k + 1 < |env|
        ensures GoesOn(s, cached, backoff, env, k + 1) <==> GoesOn(s, next, later, env[1..], k)
        ensures ProviderAt(s, cached, env, k + 1) == ProviderAt(s, next, env[1..], k)
      {
        GoesOnLater(s, cached, backoff, env, k);
        ProviderLater(s, cached, env, k);
      }
      AllGoOnLater(s, cached, backoff, env, next, later, |env|);
      forall n: nat | n < |env| && AllGoOn(s, cached, backoff, env, n) && !GoesOn(s, cached, backoff, env, n)
        ensures EndsAt(s, cached, env, n, DialFrom(s, cached, backoff, env))
      {
        AllGoOnLater(s, cached, backoff, env, next, later, n);
        assert EndsAt(s, next, env[1..], n - 1, DialFrom(s, next, later, env[1..]));
      }
    } else if env != [] {
      FirstPassEnds(s, cached, backoff, env);
      assert !AllGoOn(s, cached, backoff, env, |env|);
    }
  }

  lemma AllGoOnLater(s: Settings, cached: Option<EndpointId>, backoff: nat, env: seq<Attempt>,
                     next: Option<EndpointId>, later: nat, n: nat)
    requires 0 < n <= |env| && GoesOn(s, cached, backoff, env, 0)
    requires forall k: nat :: k + 1 < |env| ==>
      (GoesOn(s, cached, backoff, env, k + 1) <==> GoesOn(s, next, later, env[1..], k))
    ensures AllGoOn(s, cached, backoff, env, n) <==> AllGoOn(s, next, later, env[1..], n - 1)
  {
    if AllGoOn(s, cached, backoff, env, n) {
      forall k | 0 <= k < n - 1 ensures GoesOn(s, next, later, env[1..], k) {
        assert GoesOn(s, cached, backoff, env, k + 1);
      }
    }
    if AllGoOn(s, next, later, env[1..], n - 1) {
      forall k | 0 <= k < n ensures GoesOn(s, cached, backoff, env, k) {
        assert k > 0 ==> GoesOn(s, next, later, env[1..], k - 1);
      }
    }
  }

  /** Every failed pass dialed the provider of its place, and directly only if told to. */
  lemma {:induction false} TriesFollowEnvironment(s: Settings, cached: Option<EndpointId>, backoff: nat, env: seq<Attempt>, i: nat)
    requires i < |DialFrom(s, cached, backoff, env).tries|
    ensures i < |env|
    ensures
      var t := DialFrom(s, cached, backoff, env).tries[i];
      && Some(t.provider) == ProviderAt(s, cached, env, i)
      && t.direct == (if s.preferDirect then Some(env[i].direct) else None)
    decreases i
  {
    if i > 0 {
      var next := CacheAfter(ProviderAt(s, cached, env, 0).value, DirectResult(s, env[0]));
      FirstPassGoesOn(s, cached, backoff, env);
      TriesFollowEnvironment(s, next, Min(backoff * 2, s.max), env[1..], i - 1);
      ProviderLater(s, cached, env, i - 1);
    }
  }

  // ---------------------------------------------------------------------
  // The provider cache
  // ---------------------------------------------------------------------

  /**
   One task on its own: a retry subscribes again exactly when the direct dial
   before it failed authentication, and otherwise dials the same provider.
   */
  lemma {:induction false} AuthFailureForcesSubscribe(s: Settings, cached: Option<EndpointId>, backoff: nat, env: seq<Attempt>)
    ensures
      var o := DialFrom(s, cached, backoff, env);
      && (o.tries != [] ==> (o.tries[0].subscribed <==> cached.None?))
      && (forall i :: 0 <= i < |o.tries| - 1 ==>
            && (o.tries[i + 1].subscribed <==> o.tries[i].direct == Some(AuthFailure))
            && (!o.tries[i + 1].subscribed ==> o.tries[i + 1].provider == o.tries[i].provider))
    decreases |env|
  {
    var o := DialFrom(s, cached, backoff, env);
    if |o.tries| > 1 {
      var next := CacheAfter(o.tries[0].provider, o.tries[0].direct);
      var rest := DialFrom(s, next, Min(backoff * 2, s.max), env[1..]);
      assert o.tries == [o.tries[0]] + rest.tries;
      AuthFailureForcesSubscribe(s, next, Min(backoff * 2, s.max), env[1..]);
      FirstTryUsesCache(s, next, Min(backoff * 2, s.max), env[1..]);
      forall i | 0 <= i < |o.tries| - 1
        ensures o.tries[i + 1].subscribed <==> o.tries[i].direct == Some(AuthFailure)
        ensures !o.tries[i + 1].subscribed ==> o.tries[i + 1].provider == o.tries[i].provider
      {
        if i > 0 {
          var k := i - 1;
          assert rest.tries[k + 1].subscribed <==> rest.tries[k].direct == Some(AuthFailure);
        }
      }
    }
  }

  lemma FirstTryUsesCache(s: Settings, cached: Option<EndpointId>, backoff: nat, env: seq<Attempt>)
    ensures
      var o := DialFrom(s, cached, backoff, env);
      o.tries != [] && cached.Some? ==> o.tries[0].provider == cached.value
  {
  }

  // ---------------------------------------------------------------------
  // Several dialing tasks
  // ---------------------------------------------------------------------

  /** Where one `dial_stream` is; the lock on the cache is not held while it subscribes. */
  datatype Doing =
    | Looking
    | Subscribing
    | Storing(id: EndpointId)
    | DialingDirect(id: EndpointId)
    | DialingRelay(id: EndpointId)
    | Over

  /** The shared cache, the ids that subscribes have returned, and the tasks. */
  datatype Shared = Shared(cached: Option<EndpointId>, returned: set<EndpointId>, tasks: map<nat, Doing>)

  const SharedStart := Shared(None, {}, map[])

  datatype Step =
    | Begin(task: nat)
    | FindCached(task: nat)
    | FindEmpty(task: nat)
    | SubscribeReturns(task: nat, id: EndpointId)
    | SubscribeFails(task: nat)
    | Store(task: nat)
    | Invalidate(task: nat)
    | DirectFails(task: nat)
    | RelayFails(task: nat)
    | Connects(task: nat)

  predicate Is(w: Shared, t: nat, d: Doing) {
    t in w.tasks && w.tasks[t] == d
  }

  predicate Can(w: Shared, step: Step) {
    var t := step.task;
    match step
    case Begin(_) => t !in w.tasks
    case FindCached(_) => Is(w, t, Looking) && w.cached.Some?
    case FindEmpty(_) => Is(w, t, Looking) && w.cached.None?
    case SubscribeReturns(_, _) => Is(w, t, Subscribing)
    case SubscribeFails(_) => Is(w, t, Subscribing)
    case Store(_) => t in w.tasks && w.tasks[t].Storing?
    case Invalidate(_) => t in w.tasks && w.tasks[t].DialingDirect?
    case DirectFails(_) => t in w.tasks && w.tasks[t].DialingDirect?
    case RelayFails(_) => t in w.tasks && w.tasks[t].DialingRelay?
    case Connects(_) => t in w.tasks && (w.tasks[t].DialingDirect? || w.tasks[t].DialingRelay?)
  }

  function To(w: Shared, t: nat, d: Doing): Shared {
    w.(tasks := w.tasks[t := d])
  }

  /** `Invalidate` is a direct dial that fails authentication, `DirectFails` any other way past it. */
  function Do(w: Shared, step: Step): Shared
    requires Can(w, step)
  {
    var t := step.task;
    match step
    case Begin(_) => To(w, t, Looking)
    case FindCached(_) => To(w, t, DialingDirect(w.cached.value))
    case FindEmpty(_) => To(w, t, Subscribing)
    case SubscribeReturns(_, id) => To(w, t, Storing(id)).(returned := w.returned + {id})
    case SubscribeFails(_) => To(w, t, Over)
    case Store(_) => To(w, t, DialingDirect(w.tasks[t].id)).(cached := Some(w.tasks[t].id))
    case Invalidate(_) => To(w, t, DialingRelay(w.tasks[t].id)).(cached := None)
    case DirectFails(_) => To(w, t, DialingRelay(w.tasks[t].id))
    case RelayFails(_) => To(w, t, Looking)
    case Connects(_) => To(w, t, Over)
  }

  /** `ws` are the states that `steps` passes through. */
  predicate IsTrace(ws: seq<Shared>, steps: seq<Step>) {
    |ws| == |steps| + 1 && ws[0] == SharedStart && forall m: nat :: m < |steps| ==> Follows(ws, steps, m)
  }

  predicate Follows(ws: seq<Shared>, steps: seq<Step>, m: nat)
    requires m < |steps| && |ws| == |steps| + 1
  {
    Can(ws[m], steps[m]) && ws[m + 1] == Do(ws[m], steps[m])
  }

  predicate Known(w: Shared, d: Doing) {
    d.Storing? || d.DialingDirect? || d.DialingRelay? ==> d.id in w.returned
  }

  /** Over every interleaving, the cache and every id held or dialed by a task came from some subscribe. */
  lemma {:induction false} CacheHoldsReturnedIds(ws: seq<Shared>, steps: seq<Step>, n: nat)
    requires IsTrace(ws, steps) && n <= |steps|
    ensures ws[n].cached.Some? ==> ws[n].cached.value in ws[n].returned
    ensures forall t :: t in ws[n].tasks ==> Known(ws[n], ws[n].tasks[t])
    decreases n
  {
    if n > 0 {
      CacheHoldsReturnedIds(ws, steps, n - 1);
      assert Follows(ws, steps, n - 1);
    }
  }

  // ---------------------------------------------------------------------
  // When a retry dials without subscribing
  // ---------------------------------------------------------------------

  /** Step `k` stores an id, and no step before `j` invalidates it. */
  predicate StoredAt(steps: seq<Step>, k: nat, j: nat)
    requires k < j <= |steps|
  {
    steps[k].Store? && forall m: nat :: k < m < j ==> !steps[m].Invalidate?
  }

  predicate Stored(steps: seq<Step>, i: nat, j: nat)
    requires j <= |steps|
  {
    exists k: nat :: i < k < j && StoredAt(steps, k, j)
  }

  lemma StoredNext(steps: seq<Step>, i: nat, j: nat)
    requires i < j < |steps|
    ensures Stored(steps, i, j + 1) <==> steps[j].Store? || (Stored(steps, i, j) && !steps[j].Invalidate?)
  {
    if steps[j].Store? {
      assert StoredAt(steps, j, j + 1);
    }
    if Stored(steps, i, j) && !steps[j].Invalidate? {
      var k: nat :| i < k < j && StoredAt(steps, k, j);
      assert StoredAt(steps, k, j + 1);
    }
    if Stored(steps, i, j + 1) {
      var k: nat :| i < k < j + 1 && StoredAt(steps, k, j + 1);
      assert k < j ==> StoredAt(steps, k, j);
    }
  }

  /** After an invalidation the cache is filled exactly when a later store has not been invalidated. */
  lemma {:induction false} FilledExactly(ws: seq<Shared>, steps: seq<Step>, i: nat, j: nat)
    requires IsTrace(ws, steps) && i < j <= |steps| && steps[i].Invalidate?
    ensures ws[j].cached.Some? <==> Stored(steps, i, j)
    decreases j
  {
    assert Follows(ws, steps, j - 1);
    if i < j - 1 {
      FilledExactly(ws, steps, i, j - 1);
      StoredNext(steps, i, j - 1);
    }
  }

  predicate Looks(step: Step, t: nat) {
    step == FindCached(t) || step == FindEmpty(t)
  }

  /** Until it looks again, a task that has invalidated the cache has nothing to store. */
  lemma {:induction false} BetweenDials(ws: seq<Shared>, steps: seq<Step>, i: nat, j: nat, t: nat)
    requires IsTrace(ws, steps) && i < j <= |steps| && steps[i] == Invalidate(t)
    requires forall m: nat :: i < m < j ==> !Looks(steps[m], t)
    ensures t in ws[j].tasks && (ws[j].tasks[t].DialingRelay? || ws[j].tasks[t].Looking? || ws[j].tasks[t].Over?)
    decreases j
  {
    assert Follows(ws, steps, j - 1);
    if i < j - 1 {
      BetweenDials(ws, steps, i, j - 1, t);
    }
  }

  /** An id that a task other than `t` has stored since `i`, and nobody has invalidated. */
  predicate StoredByAnother(steps: seq<Step>, i: nat, j: nat, t: nat)
    requires j <= |steps|
  {
    exists k: nat :: i < k < j && StoredAt(steps, k, j) && steps[k].task != t
  }

  /**
   With several tasks the single-task guarantee is lost, and exactly so: a task that
   has invalidated the cache dials again without subscribing if and only if, since
   then, another task has stored an id and nobody has invalidated the cache again.
   */
  lemma RetrySkipsSubscribeExactly(ws: seq<Shared>, steps: seq<Step>, i: nat, j: nat, t: nat)
    requires IsTrace(ws, steps) && i < j < |steps|
    requires steps[i] == Invalidate(t) && Looks(steps[j], t)
    requires forall m: nat :: i < m < j ==> !Looks(steps[m], t)
    ensures steps[j] == FindCached(t) <==> StoredByAnother(steps, i, j, t)
  {
    assert Follows(ws, steps, j);
    FilledExactly(ws, steps, i, j);
    if Stored(steps, i, j) {
      var k: nat :| i < k < j && StoredAt(steps, k, j);
      assert Follows(ws, steps, k);
      BetweenDials(ws, steps, i, k, t);
      assert steps[k].task != t;
    }
  }

  lemma Extend(ws: seq<Shared>, steps: seq<Step>, step: Step, w: Shared)
    requires IsTrace(ws, steps) && Can(ws[|steps|], step) && w == Do(ws[|steps|], step)
    ensures IsTrace(ws + [w], steps + [step])
  {
    var ws', steps' := ws + [w], steps + [step];
    forall m: nat | m < |steps'| ensures Follows(ws', steps', m) {
      if m < |steps| {
        assert Follows(ws, steps, m);
      }
    }
  }

  /** Two tasks find the cache empty, and both subscribes return `id`. */
  lemma BothSubscribe(id: EndpointId) returns (ws: seq<Shared>, steps: seq<Step>)
    ensures IsTrace(ws, steps) && ws[|steps|] == Shared(None, {id}, map[0 := Storing(id), 1 := Storing(id)])
  {
    ws, steps := [SharedStart], [];
    var w1 := Shared(None, {}, map[0 := Looking]);
    Extend(ws, steps, Begin(0), w1);
    ws, steps := ws + [w1], steps + [Begin(0)];
    var w2 := Shared(None, {}, map[0 := Looking, 1 := Looking]);
    Extend(ws, steps, Begin(1), w2);
    ws, steps := ws + [w2], steps + [Begin(1)];
    var w3 := Shared(None, {}, map[0 := Subscribing, 1 := Looking]);
    Extend(ws, steps, FindEmpty(0), w3);
    ws, steps := ws + [w3], steps + [FindEmpty(0)];
    var w4 := Shared(None, {}, map[0 := Subscribing, 1 := Subscribing]);
    Extend(ws, steps, FindEmpty(1), w4);
    ws, steps := ws + [w4], steps + [FindEmpty(1)];
    var w5 := Shared(None, {id}, map[0 := Storing(id), 1 := Subscribing]);
    Extend(ws, steps, SubscribeReturns(0, id), w5);
    ws, steps := ws + [w5], steps + [SubscribeReturns(0, id)];
    var w6 := Shared(None, {id}, map[0 := Storing(id), 1 := Storing(id)]);
    Extend(ws, steps, SubscribeReturns(1, id), w6);
    ws, steps := ws + [w6], steps + [SubscribeReturns(1, id)];
  }

  /**
   The other task's subscribe was under way when the first one invalidated the id;
   its store puts the id back, and the first task dials it again.
   */
  lemma StaleIdCanComeBack(id: EndpointId) returns (ws: seq<Shared>, steps: seq<Step>)
    ensures IsTrace(ws, steps) && |steps| >= 4
    ensures steps[|steps| - 4..] == [Invalidate(0), Store(1), RelayFails(0), FindCached(0)]
    ensures Is(ws[|steps| - 4], 0, DialingDirect(id)) && Is(ws[|steps|], 0, DialingDirect(id))
  {
    ws, steps := BothSubscribe(id);
    var w1 := Shared(Some(id), {id}, map[0 := DialingDirect(id), 1 := Storing(id)]);
    Extend(ws, steps, Store(0), w1);
    ws, steps := ws + [w1], steps + [Store(0)];
    var w2 := Shared(None, {id}, map[0 := DialingRelay(id), 1 := Storing(id)]);
    Extend(ws, steps, Invalidate(0), w2);
    ws, steps := ws + [w2], steps + [Invalidate(0)];
    var w3 := Shared(Some(id), {id}, map[0 := DialingRelay(id), 1 := DialingDirect(id)]);
    Extend(ws, steps, Store(1), w3);
    ws, steps := ws + [w3], steps + [Store(1)];
    var w4 := Shared(Some(id), {id}, map[0 := Looking, 1 := DialingDirect(id)]);
    Extend(ws, steps, RelayFails(0), w4);
    ws, steps := ws + [w4], steps + [RelayFails(0)];
    var w5 := Shared(Some(id), {id}, map[0 := DialingDirect(id), 1 := DialingDirect(id)]);
    Extend(ws, steps, FindCached(0), w5);
    ws, steps := ws + [w5], steps + [FindCached(0)];
  }
}
