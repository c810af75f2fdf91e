/**
 The server's registry as a value, the events that change it, and the reading of
 an event log that it implements.
 */
module Registry {
  import opened Bytes
  import opened Endpoints
  import opened Options

  /** Names of services and groups, as UTF-8 bytes. */
  type Name = Bytes

  /** Clock readings of the server process. */
  type Instant = int

  const MAX_SERVICE_NAME := 32

  /** `sessions` maps a client to its last heartbeat, `services` a name to its provider. */
  datatype GroupState = GroupState(sessions: map<EndpointId, Instant>, services: map<Name, EndpointId>)

  type Groups = map<Name, GroupState>

  const EmptyGroup := GroupState(map[], map[])

  function Registered(g: GroupState, service: Name, provider: EndpointId): GroupState {
    if |service| > MAX_SERVICE_NAME then g else g.(services := g.services[service := provider])
  }

  function Touched(g: GroupState, client: EndpointId, now: Instant): GroupState {
    g.(sessions := g.sessions[client := now])
  }

  /** All sessions in `gone` and the services they provide. */
  function Without(g: GroupState, gone: set<EndpointId>): GroupState {
    GroupState(g.sessions - gone, map s | s in g.services && g.services[s] !in gone :: g.services[s])
  }

  function Dropped(g: GroupState, client: EndpointId): GroupState {
    Without(g, {client})
  }

  function Stale(g: GroupState, cutoff: Instant): set<EndpointId> {
    set c | c in g.sessions && g.sessions[c] < cutoff
  }

  /** A sweep visits the groups that have a service when it starts. */
  function SweptGroup(g: GroupState, cutoff: Instant): GroupState {
    if g.services == map[] then g else Without(g, Stale(g, cutoff))
  }

  datatype Event =
    | Register(group: Name, service: Name, provider: EndpointId)
    | Touch(group: Name, client: EndpointId, now: Instant)
    | Drop(group: Name, client: EndpointId)
    | Sweep(cutoff: Instant)

  function OnGroup(g: GroupState, e: Event): GroupState {
    match e
    case Register(_, s, p) => Registered(g, s, p)
    case Touch(_, c, now) => Touched(g, c, now)
    case Drop(_, c) => Dropped(g, c)
    case Sweep(cutoff) => SweptGroup(g, cutoff)
  }

  /** Events that concern group `g`: its own, and sweeps. */
  predicate Concerns(e: Event, g: Name) {
    e.Sweep? || e.group == g
  }

  function Apply(r: Groups, e: Event): Groups {
    map g | g in r :: if Concerns(e, g) then OnGroup(r[g], e) else r[g]
  }

  function Initial(names: set<Name>): Groups {
    map g | g in names :: EmptyGroup
  }

  function Run(names: set<Name>, log: seq<Event>): (r: Groups)
    ensures r.Keys == names
  {
    if log == [] then Initial(names) else Apply(Run(names, log[..|log| - 1]), log[|log| - 1])
  }

  function Lookup(r: Groups, group: Name, service: Name): Option<EndpointId> {
    if group in r && service in r[group].services then Some(r[group].services[service]) else None
  }

  function LastHeartbeat(r: Groups, group: Name, client: EndpointId): Option<Instant> {
    if group in r && client in r[group].sessions then Some(r[group].sessions[client]) else None
  }

  // ---------------------------------------------------------------------
  // Listing the services
  // ---------------------------------------------------------------------

  /** A (group, service, provider) triple of `dump_services`. */
  type Entry = (Name, Name, EndpointId)

  function Only(r: Groups, names: set<Name>): Groups {
    map g | g in r && g in names :: r[g]
  }

  predicate Distinct(es: seq<Entry>) {
    forall i, j :: 0 <= i < j < |es| ==> es[i] != es[j]
  }

  /** The services of one group in some order. */
  ghost predicate ListsGroup(part: seq<Entry>, name: Name, g: GroupState) {
    && Distinct(part)
    && forall e: Entry :: e in part <==> e.0 == name && e.1 in g.services && g.services[e.1] == e.2
  }

  /** What iterating the group map, and inside it each service map, can produce. */
  ghost predicate IterationOf(dump: seq<Entry>, r: Groups)
    decreases |r|
  {
    if r == map[] then dump == []
    else exists name, rest, part :: IterationStep(dump, r, name, rest, part)
  }

  ghost predicate IterationStep(dump: seq<Entry>, r: Groups, name: Name, rest: seq<Entry>, part: seq<Entry>)
    decreases |r|, 0
  {
    name in r && dump == rest + part && ListsGroup(part, name, r[name])
    && (assert |r - {name}| < |r| by { FewerGroups(r, name); } IterationOf(rest, r - {name}))
  }

  lemma FewerGroups(r: Groups, name: Name)
    requires name in r
    ensures |r - {name}| < |r|
  {
    assert (r - {name}).Keys == r.Keys - {name};
  }

  /** Whatever the order, the entries are the registered services. */
  lemma {:induction false} IterationMembers(dump: seq<Entry>, r: Groups)
    requires IterationOf(dump, r)
    ensures forall e: Entry :: e in dump <==> Lookup(r, e.0, e.1) == Some(e.2)
    decreases |r|
  {
    if r != map[] {
      var name, rest, part :| IterationStep(dump, r, name, rest, part);
      FewerGroups(r, name);
      IterationMembers(rest, r - {name});
    }
  }

  lemma LookupExists(r: Groups, group: Name)
    ensures (exists s :: Lookup(r, group, s).Some?) <==> group in r && r[group].services != map[]
  {
    if group in r && r[group].services != map[] {
      assert r[group].services.Keys != {};
      var s :| s in r[group].services;
      assert Lookup(r, group, s).Some?;
    }
  }

  // ---------------------------------------------------------------------
  // The log, read on its own
  // ---------------------------------------------------------------------

  /** An accepted registration of `service` in `group`, by anyone. */
  predicate Registers(e: Event, group: Name, service: Name) {
    e.Register? && e.group == group && e.service == service && |service| <= 32
  }

  predicate Touches(e: Event, group: Name, client: EndpointId) {
    e.Touch? && e.group == group && e.client == client
  }

  /**
   Event `j` drops `client` from `group`: by itself, or as a sweep that finds a
   service standing in the group and the client's last heartbeat before its cutoff.
   */
  ghost predicate DropsAt(log: seq<Event>, j: nat, group: Name, client: EndpointId)
    requires j < |log|
    decreases j
  {
    match log[j]
    case Drop(g, c) => g == group && c == client
    case Sweep(cutoff) =>
      && (exists i: nat :: i < j
            && log[i].Register? && Registers(log[i], group, log[i].service)
            && forall m: nat :: i < m < j ==>
                 !Registers(log[m], group, log[i].service) && !DropsAt(log, m, group, log[i].provider))
      && (exists i: nat :: i < j
            && Touches(log[i], group, client) && log[i].now < cutoff
            && forall m: nat :: i < m < j ==> !Touches(log[m], group, client) && !DropsAt(log, m, group, client))
    case _ => false
  }

  /** After `n` events, registration `i` of `service` by `provider` stands: nothing since has taken it away. */
  ghost predicate StandsSince(log: seq<Event>, n: nat, i: nat, group: Name, service: Name, provider: EndpointId)
    requires i < n <= |log|
  {
    && Registers(log[i], group, service) && log[i].provider == provider
    && forall j: nat :: i < j < n ==> !Registers(log[j], group, service) && !DropsAt(log, j, group, provider)
  }

  ghost predicate Stands(log: seq<Event>, n: nat, group: Name, service: Name, provider: EndpointId)
    requires n <= |log|
  {
    exists i: nat :: i < n && StandsSince(log, n, i, group, service, provider)
  }

  /** After `n` events, heartbeat `i` of `client` is its latest, and nothing since has dropped the client. */
  ghost predicate HeardSince(log: seq<Event>, n: nat, i: nat, group: Name, client: EndpointId)
    requires i < n <= |log|
  {
    && Touches(log[i], group, client)
    && forall j: nat :: i < j < n ==> !Touches(log[j], group, client) && !DropsAt(log, j, group, client)
  }

  ghost predicate Heard(log: seq<Event>, n: nat, group: Name, client: EndpointId, seen: Instant)
    requires n <= |log|
  {
    exists i: nat :: i < n && HeardSince(log, n, i, group, client) && log[i].now == seen
  }

  lemma StandsStep(log: seq<Event>, n: nat, group: Name, service: Name, provider: EndpointId)
    requires n < |log|
    ensures Stands(log, n + 1, group, service, provider) <==>
        if Registers(log[n], group, service) then log[n].provider == provider
        else Stands(log, n, group, service, provider) && !DropsAt(log, n, group, provider)
  {
    if Stands(log, n + 1, group, service, provider) {
      var i: nat :| i < n + 1 && StandsSince(log, n + 1, i, group, service, provider);
      assert i < n ==> StandsSince(log, n, i, group, service, provider);
    }
    if Registers(log[n], group, service) && log[n].provider == provider {
      assert StandsSince(log, n + 1, n, group, service, provider);
    }
    if Stands(log, n, group, service, provider) && !Registers(log[n], group, service) && !DropsAt(log, n, group, provider) {
      var i: nat :| i < n && StandsSince(log, n, i, group, service, provider);
      assert StandsSince(log, n + 1, i, group, service, provider);
    }
  }

  lemma HeardStep(log: seq<Event>, n: nat, group: Name, client: EndpointId, seen: Instant)
    requires n < |log|
    ensures Heard(log, n + 1, group, client, seen) <==>
        if Touches(log[n], group, client) then log[n].now == seen
        else Heard(log, n, group, client, seen) && !DropsAt(log, n, group, client)
  {
    if Heard(log, n + 1, group, client, seen) {
      var i: nat :| i < n + 1 && HeardSince(log, n + 1, i, group, client) && log[i].now == seen;
      assert i < n ==> HeardSince(log, n, i, group, client);
    }
    if Touches(log[n], group, client) && log[n].now == seen {
      assert HeardSince(log, n + 1, n, group, client);
    }
    if Heard(log, n, group, client, seen) && !Touches(log[n], group, client) && !DropsAt(log, n, group, client) {
      var i: nat :| i < n && HeardSince(log, n, i, group, client) && log[i].now == seen;
      assert HeardSince(log, n + 1, i, group, client);
    }
  }

  /** A sweep drops through a registration that stands and a heartbeat that was heard before it. */
  lemma SweepDropsThrough(log: seq<Event>, n: nat, group: Name, client: EndpointId)
    requires n < |log| && log[n].Sweep?
    ensures DropsAt(log, n, group, client) <==>
        && (exists s: Name, p: EndpointId :: Stands(log, n, group, s, p))
        && (exists seen :: Heard(log, n, group, client, seen) && seen < log[n].cutoff)
  {
    if DropsAt(log, n, group, client) {
      var i: nat :| i < n && log[i].Register? && StandsSince(log, n, i, group, log[i].service, log[i].provider);
      assert Stands(log, n, group, log[i].service, log[i].provider);
      var h: nat :| h < n && HeardSince(log, n, h, group, client) && log[h].Touch? && log[h].now < log[n].cutoff;
      assert Heard(log, n, group, client, log[h].now);
    }
  }

  // ---------------------------------------------------------------------
  // The registry refines its log
  // ---------------------------------------------------------------------

  /** What one event drops from a registry. */
  predicate DropsFrom(r: Groups, e: Event, group: Name, client: EndpointId) {
    match e
    case Drop(g, c) => g == group && c == client
    case Sweep(cutoff) =>
      && group in r && r[group].services != map[]
      && client in r[group].sessions && r[group].sessions[client] < cutoff
    case _ => false
  }

  lemma LookupAfter(r: Groups, e: Event, group: Name, service: Name)
    requires group in r
    ensures
      var before := Lookup(r, group, service);
      Lookup(Apply(r, e), group, service) ==
        if Registers(e, group, service) then Some(e.provider)
        else if before.Some? && DropsFrom(r, e, group, before.value) then None
        else before
  {
  }

  lemma HeartbeatAfter(r: Groups, e: Event, group: Name, client: EndpointId)
    requires group in r
    ensures LastHeartbeat(Apply(r, e), group, client) ==
        if Touches(e, group, client) then Some(e.now)
        else if DropsFrom(r, e, group, client) then None
        else LastHeartbeat(r, group, client)
  {
  }

  ghost predicate ServicesAgree(r: Groups, log: seq<Event>, n: nat, group: Name)
    requires n <= |log|
  {
    forall s: Name, p: EndpointId :: Lookup(r, group, s) == Some(p) <==> Stands(log, n, group, s, p)
  }

  ghost predicate HeartbeatsAgree(r: Groups, log: seq<Event>, n: nat, group: Name)
    requires n <= |log|
  {
    forall c: EndpointId, seen: Instant :: LastHeartbeat(r, group, c) == Some(seen) <==> Heard(log, n, group, c, seen)
  }

  lemma ServingAgrees(r: Groups, log: seq<Event>, n: nat, group: Name)
    requires n <= |log| && group in r && ServicesAgree(r, log, n, group)
    ensures (exists s: Name, p: EndpointId :: Stands(log, n, group, s, p)) <==> r[group].services != map[]
  {
    if r[group].services != map[] {
      assert r[group].services.Keys != {};
      var s :| s in r[group].services;
      assert Lookup(r, group, s) == Some(r[group].services[s]);
    }
    forall s: Name, p: EndpointId | Stands(log, n, group, s, p) ensures s in r[group].services {
      assert Lookup(r, group, s) == Some(p);
    }
  }

  lemma SilenceAgrees(r: Groups, log: seq<Event>, n: nat, group: Name, client: EndpointId, cutoff: Instant)
    requires n <= |log| && group in r && HeartbeatsAgree(r, log, n, group)
    ensures (exists seen :: Heard(log, n, group, client, seen) && seen < cutoff)
       <==> client in r[group].sessions && r[group].sessions[client] < cutoff
  {
    if client in r[group].sessions {
      assert LastHeartbeat(r, group, client) == Some(r[group].sessions[client]);
    }
    forall seen | Heard(log, n, group, client, seen) ensures LastHeartbeat(r, group, client) == Some(seen) {
    }
  }

  lemma DropsAgree(r: Groups, log: seq<Event>, n: nat, group: Name, client: EndpointId)
    requires n < |log| && group in r && ServicesAgree(r, log, n, group) && HeartbeatsAgree(r, log, n, group)
    ensures DropsAt(log, n, group, client) <==> DropsFrom(r, log[n], group, client)
  {
    if log[n].Sweep? {
      SweepDropsThrough(log, n, group, client);
      ServingAgrees(r, log, n, group);
      SilenceAgrees(r, log, n, group, client, log[n].cutoff);
    }
  }

  lemma ServicesAgreeStep(r: Groups, log: seq<Event>, n: nat, group: Name)
    requires n < |log| && group in r && ServicesAgree(r, log, n, group) && HeartbeatsAgree(r, log, n, group)
    ensures ServicesAgree(Apply(r, log[n]), log, n + 1, group)
  {
    forall s: Name, p: EndpointId
      ensures Lookup(Apply(r, log[n]), group, s) == Some(p) <==> Stands(log, n + 1, group, s, p)
    {
      LookupAfter(r, log[n], group, s);
      StandsStep(log, n, group, s, p);
      DropsAgree(r, log, n, group, p);
      assert Lookup(r, group, s) == Some(p) <==> Stands(log, n, group, s, p);
    }
  }

  lemma HeartbeatsAgreeStep(r: Groups, log: seq<Event>, n: nat, group: Name)
    requires n < |log| && group in r && ServicesAgree(r, log, n, group) && HeartbeatsAgree(r, log, n, group)
    ensures HeartbeatsAgree(Apply(r, log[n]), log, n + 1, group)
  {
    forall c: EndpointId, seen: Instant
      ensures LastHeartbeat(Apply(r, log[n]), group, c) == Some(seen) <==> Heard(log, n + 1, group, c, seen)
    {
      HeartbeatAfter(r, log[n], group, c);
      HeardStep(log, n, group, c, seen);
      DropsAgree(r, log, n, group, c);
      assert LastHeartbeat(r, group, c) == Some(seen) <==> Heard(log, n, group, c, seen);
    }
  }

  /** After every number of events the maps of a configured group hold exactly what the log says. */
  lemma {:induction false} RegistryAgreesWithLog(names: set<Name>, log: seq<Event>, n: nat, group: Name)
    requires n <= |log| && group in names
    ensures ServicesAgree(Run(names, log[..n]), log, n, group)
    ensures HeartbeatsAgree(Run(names, log[..n]), log, n, group)
    decreases n
  {
    if n > 0 {
      assert log[..n][..n - 1] == log[..n - 1];
      RegistryAgreesWithLog(names, log, n - 1, group);
      ServicesAgreeStep(Run(names, log[..n - 1]), log, n - 1, group);
      HeartbeatsAgreeStep(Run(names, log[..n - 1]), log, n - 1, group);
    }
  }

  /**
   After any log of registrations, heartbeats, drops and sweeps, a service of a
   configured group resolves to `provider` exactly when its latest accepted
   registration was by `provider` and nothing dropped `provider` afterwards.
   */
  lemma LookupRefinesLog(names: set<Name>, log: seq<Event>, group: Name, service: Name, provider: EndpointId)
    requires group in names
    ensures Lookup(Run(names, log), group, service) == Some(provider)
       <==> exists i: nat :: i < |log| && StandsSince(log, |log|, i, group, service, provider)
  {
    assert log[..|log|] == log;
    RegistryAgreesWithLog(names, log, |log|, group);
    assert Lookup(Run(names, log), group, service) == Some(provider) <==> Stands(log, |log|, group, service, provider);
  }

  /** A client's session holds the time of its latest heartbeat exactly when nothing dropped it afterwards. */
  lemma HeartbeatRefinesLog(names: set<Name>, log: seq<Event>, group: Name, client: EndpointId, seen: Instant)
    requires group in names
    ensures LastHeartbeat(Run(names, log), group, client) == Some(seen)
       <==> exists i: nat :: i < |log| && HeardSince(log, |log|, i, group, client) && log[i].now == seen
  {
    assert log[..|log|] == log;
    RegistryAgreesWithLog(names, log, |log|, group);
    assert LastHeartbeat(Run(names, log), group, client) == Some(seen) <==> Heard(log, |log|, group, client, seen);
  }

  // ---------------------------------------------------------------------
  // Groups do not see each other
  // ---------------------------------------------------------------------

  function OnlyConcerning(log: seq<Event>, g: Name): seq<Event> {
    if log == [] then []
    else
      var rest := OnlyConcerning(log[..|log| - 1], g);
      if Concerns(log[|log| - 1], g) then rest + [log[|log| - 1]] else rest
  }

  /** Removing every event of every other group from the log leaves a group as it was. */
  lemma {:induction false} GroupsAreIndependent(names: set<Name>, log: seq<Event>, g: Name)
    requires g in names
    ensures Run(names, OnlyConcerning(log, g))[g] == Run(names, log)[g]
  {
    if log != [] {
      var before, e := log[..|log| - 1], log[|log| - 1];
      GroupsAreIndependent(names, before, g);
      if Concerns(e, g) {
        var rest := OnlyConcerning(before, g);
        assert (rest + [e])[..|rest|] == rest;
      }
    }
  }

  // ---------------------------------------------------------------------
  // Sweeps
  // ---------------------------------------------------------------------

  /** What a sweep leaves of a group that had a service: the live sessions and the services of everyone not dropped. */
  lemma SweepKeepsExactlyTheLive(g: GroupState, cutoff: Instant)
    requires g.services != map[]
    ensures
      var h := SweptGroup(g, cutoff);
      && (forall c :: c in h.sessions <==> c in g.sessions && g.sessions[c] >= cutoff)
      && (forall c :: c in h.sessions ==> h.sessions[c] == g.sessions[c])
      && (forall s :: s in h.services <==>
            s in g.services && !(g.services[s] in g.sessions && g.sessions[g.services[s]] < cutoff))
      && (forall s :: s in h.services ==> h.services[s] == g.services[s])
  {
  }

  /** Visiting a group again changes nothing, whether or not it still has services. */
  lemma SweepIsIdempotent(g: GroupState, cutoff: Instant)
    ensures SweptGroup(SweptGroup(g, cutoff), cutoff) == SweptGroup(g, cutoff)
    ensures Without(Without(g, Stale(g, cutoff)), Stale(Without(g, Stale(g, cutoff)), cutoff))
         == Without(g, Stale(g, cutoff))
  {
    var h := Without(g, Stale(g, cutoff));
    assert Stale(h, cutoff) == {};
    assert Without(h, {}) == h;
  }

  /** Dropping clients one after the other is dropping them all. */
  lemma WithoutOneMore(g: GroupState, gone: set<EndpointId>, c: EndpointId)
    ensures Dropped(Without(g, gone), c) == Without(g, gone + {c})
  {
    var a, b := Dropped(Without(g, gone), c), Without(g, gone + {c});
    assert a.sessions == b.sessions;
    assert a.services == b.services;
  }

  /** A sweep leaves no stale session in a group exactly when there was none, or a service to find the group by. */
  lemma SweepMissesExactly(g: GroupState, cutoff: Instant)
    ensures Stale(SweptGroup(g, cutoff), cutoff) == {} <==> g.services != map[] || Stale(g, cutoff) == {}
  {
    assert Stale(Without(g, Stale(g, cutoff)), cutoff) == {};
  }

  /** A group without services outlives every number of sweeps and every event of other groups unchanged. */
  lemma {:induction false} ServicelessGroupIsNeverSwept(names: set<Name>, log: seq<Event>, later: seq<Event>, group: Name)
    requires group in names && Run(names, log)[group].services == map[]
    requires forall i :: 0 <= i < |later| ==> later[i].Sweep? || !Concerns(later[i], group)
    ensures Run(names, log + later)[group] == Run(names, log)[group]
    decreases |later|
  {
    if later == [] {
      assert log + later == log;
    } else {
      var k := |later| - 1;
      assert (log + later)[..|log + later| - 1] == log + later[..k];
      ServicelessGroupIsNeverSwept(names, log, later[..k], group);
    }
  }

  // ---------------------------------------------------------------------
  // Which group a token opens
  // ---------------------------------------------------------------------

  /** The configured groups with their tokens. */
  type Tokens = map<Name, Bytes>

  /** An order in which iterating the groups can visit them. */
  ghost predicate OrderOf(order: seq<Name>, tokens: Tokens) {
    && (forall i, j :: 0 <= i < j < |order| ==> order[i] != order[j])
    && (forall g :: g in order <==> g in tokens)
  }

  /** `authenticate`: the first group with this token. */
  function Authenticate(order: seq<Name>, tokens: Tokens, token: Bytes): Option<Name>
    requires forall g :: g in order ==> g in tokens
  {
    if order == [] then None
    else if tokens[order[0]] == token then Some(order[0])
    else Authenticate(order[1..], tokens, token)
  }

  lemma {:induction false} AuthenticatedHasToken(order: seq<Name>, tokens: Tokens, token: Bytes)
    requires forall g :: g in order ==> g in tokens
    ensures
      var r := Authenticate(order, tokens, token);
      && (r.Some? ==> r.value in order && tokens[r.value] == token)
      && (r.None? ==> forall g :: g in order ==> tokens[g] != token)
    decreases |order|
  {
    if order != [] && tokens[order[0]] != token {
      AuthenticatedHasToken(order[1..], tokens, token);
    }
  }

  lemma {:induction false} OrderExists(names: set<Name>) returns (order: seq<Name>)
    ensures forall i, j :: 0 <= i < j < |order| ==> order[i] != order[j]
    ensures forall g :: g in order <==> g in names
    decreases names
  {
    if names == {} {
      order := [];
    } else {
      var g :| g in names;
      var rest := OrderExists(names - {g});
      order := [g] + rest;
    }
  }

  lemma OrderStartingWith(tokens: Tokens, g: Name) returns (order: seq<Name>)
    requires g in tokens
    ensures OrderOf(order, tokens) && order != [] && order[0] == g
  {
    var rest := OrderExists(tokens.Keys - {g});
    order := [g] + rest;
  }

  /** The same group answers to the token in whatever order the groups are visited. */
  ghost predicate SameInEveryOrder(tokens: Tokens, token: Bytes) {
    forall a, b :: OrderOf(a, tokens) && OrderOf(b, tokens) ==>
      Authenticate(a, tokens, token) == Authenticate(b, tokens, token)
  }

  /** A token opens the same group under every iteration order exactly when at most one group has it. */
  lemma TokenOpensOneGroupExactly(tokens: Tokens, token: Bytes)
    ensures SameInEveryOrder(tokens, token)
       <==> forall g, h :: g in tokens && h in tokens && tokens[g] == token && tokens[h] == token ==> g == h
  {
    forall a, b | OrderOf(a, tokens) && OrderOf(b, tokens)
      && (forall g, h :: g in tokens && h in tokens && tokens[g] == token && tokens[h] == token ==> g == h)
      ensures Authenticate(a, tokens, token) == Authenticate(b, tokens, token)
    {
      AuthenticatedHasToken(a, tokens, token);
      AuthenticatedHasToken(b, tokens, token);
    }
    forall g, h | SameInEveryOrder(tokens, token) && g in tokens && h in tokens && tokens[g] == token && tokens[h] == token
      ensures g == h
    {
      var a := OrderStartingWith(tokens, g);
      var b := OrderStartingWith(tokens, h);
      assert Authenticate(a, tokens, token) == Some(g) && Authenticate(b, tokens, token) == Some(h);
    }
  }
}
