/**
 The server's shared objects: groups whose maps are changed in place, and the
 state that owns them. Each method is specified by the value it stands for.
 */
module ServerObjects {
  import opened Endpoints
  import opened Options
  import opened Registry

  datatype RegisterResult = Replaced(previous: Option<EndpointId>) | BadName

  class Group {
    var sessions: map<EndpointId, Instant>
    var services: map<Name, EndpointId>

    function View(): GroupState
      reads this
    {
      GroupState(sessions, services)
    }

    constructor ()
      ensures View() == EmptyGroup
    {
      sessions := map[];
      services := map[];
    }

    /** Last registration wins; the previous provider is reported, an over-long name changes nothing. */
    method RegisterService(service: Name, provider: EndpointId) returns (r: RegisterResult)
      modifies this
      ensures View() == Registered(old(View()), service, provider)
      ensures r == if |service| > MAX_SERVICE_NAME then BadName
                   else Replaced(if service in old(services) then Some(old(services)[service]) else None)
    {
      if |service| > MAX_SERVICE_NAME {
        return BadName;
      }
      var prev := if service in services then Some(services[service]) else None;
      services := services[service := provider];
      return Replaced(prev);
    }

    method TouchSession(client: EndpointId, now: Instant)
      modifies this
      ensures View() == Touched(old(View()), client, now)
    {
      if client !in sessions {
        sessions := sessions[client := now];
      }
      sessions := sessions[client := now];
    }

    /** Remove the session, collect the client's services, then remove them one by one. */
    method DropSession(client: EndpointId)
      modifies this
      ensures View() == Dropped(old(View()), client)
    {
      sessions := sessions - {client};
      var toRemove := set s | s in services && services[s] == client;
      ghost var all := toRemove;
      while toRemove != {}
        invariant toRemove <= all
        invariant sessions == old(sessions) - {client}
        invariant services == old(services) - (all - toRemove)
        decreases toRemove
      {
        var s :| s in toRemove;
        toRemove := toRemove - {s};
        services := services - {s};
      }
      assert services == Dropped(old(View()), client).services;
    }
  }

  class ServerState {
    const groups: map<Name, Group>

    constructor (groups: map<Name, Group>)
      ensures this.groups == groups
    {
      this.groups := groups;
    }

    /** No group object is shared between two names. */
    ghost predicate Valid() {
      forall a, b :: a in groups && b in groups && groups[a] == groups[b] ==> a == b
    }

    function View(): Groups
      reads groups.Values
    {
      map g | g in groups :: groups[g].View()
    }

    method LookupService(group: Name, service: Name) returns (r: Option<EndpointId>)
      ensures r == Lookup(View(), group, service)
    {
      if group !in groups {
        return None;
      }
      var g := groups[group];
      return if service in g.services then Some(g.services[service]) else None;
    }

    /** The (group, service, provider) triples, in whatever order the maps are iterated. */
    method DumpServices() returns (out: seq<Entry>)
      ensures IterationOf(out, View())
    {
      out := [];
      var todo := groups.Keys;
      ghost var r := View();
      assert Only(r, groups.Keys - todo) == map[];
      while todo != {}
        invariant todo <= groups.Keys
        invariant IterationOf(out, Only(r, groups.Keys - todo))
        decreases todo
      {
        var g :| g in todo;
        var part := ListGroup(g);
        ghost var next := Only(r, groups.Keys - (todo - {g}));
        assert next - {g} == Only(r, groups.Keys - todo);
        assert IterationStep(out + part, next, g, out, part);
        out := out + part;
        todo := todo - {g};
      }
      assert Only(r, groups.Keys - {}) == r;
    }

    method ListGroup(name: Name) returns (part: seq<Entry>)
      requires name in groups
      ensures ListsGroup(part, name, View()[name])
    {
      var group := groups[name];
      var keys := group.services.Keys;
      part := [];
      while keys != {}
        invariant keys <= group.services.Keys
        invariant Distinct(part)
        invariant forall e: Entry :: e in part <==>
          e.0 == name && e.1 in group.services && e.1 !in keys && group.services[e.1] == e.2
        decreases keys
      {
        var s :| s in keys;
        keys := keys - {s};
        assert forall i :: 0 <= i < |part| ==> part[i] in part;
        part := part + [(name, s, group.services[s])];
      }
    }

    /** The body of the sweeper: each dumped entry sweeps its group again. */
    method SweepDeadSessions(now: Instant, timeout: nat)
      requires Valid()
      modifies groups.Values
      ensures View() == Apply(old(View()), Sweep(now - timeout))
    {
      var cutoff := now - timeout;
      var dump := DumpServices();
      ghost var start := View();
      IterationMembers(dump, start);
      var k := 0;
      while k < |dump|
        invariant 0 <= k <= |dump|
        invariant View().Keys == start.Keys
        invariant forall g :: g in start ==>
          View()[g] == if Visited(dump[..k], g) then Without(start[g], Stale(start[g], cutoff)) else start[g]
      {
        var name := dump[k].0;
        assert dump[k] in dump;
        assert name in groups;
        SweepOne(name, cutoff);
        SweepIsIdempotent(start[name], cutoff);
        VisitedStep(dump, k);
        k := k + 1;
      }
      assert dump[..k] == dump;
      forall g | g in start ensures View()[g] == OnGroup(start[g], Sweep(cutoff)) {
        DumpVisitsServing(start, dump, g);
      }
    }

    /** Drop every session of one group that is older than the cutoff. */
    method SweepOne(name: Name, cutoff: Instant)
      requires Valid() && name in groups
      modifies groups[name]
      ensures View().Keys == old(View()).Keys
      ensures View()[name] == Without(old(View()[name]), Stale(old(View()[name]), cutoff))
      ensures forall g :: g in groups && g != name ==> View()[g] == old(View()[g])
    {
      var group := groups[name];
      var dead := set c | c in group.sessions && group.sessions[c] < cutoff;
      ghost var start := group.View();
      ghost var all := dead;
      assert Without(start, {}) == start;
      while dead != {}
        invariant dead <= all
        invariant group.View() == Without(start, all - dead)
        invariant forall g :: g in groups && g != name ==> View()[g] == old(View()[g])
        decreases dead
      {
        var c :| c in dead;
        WithoutOneMore(start, all - dead, c);
        assert all - dead + {c} == all - (dead - {c});
        dead := dead - {c};
        group.DropSession(c);
      }
      assert all - dead == all;
    }
  }

  ghost predicate Visited(dump: seq<Entry>, g: Name) {
    exists i :: 0 <= i < |dump| && dump[i].0 == g
  }

  /** A dump mentions exactly the groups that have a service. */
  lemma DumpVisitsServing(r: Groups, dump: seq<Entry>, g: Name)
    requires forall e: Entry :: e in dump <==> Lookup(r, e.0, e.1) == Some(e.2)
    ensures Visited(dump, g) <==> g in r && r[g].services != map[]
  {
    LookupExists(r, g);
    if Visited(dump, g) {
      var i :| 0 <= i < |dump| && dump[i].0 == g;
      assert dump[i] in dump;
    }
    if g in r && r[g].services != map[] {
      var s :| Lookup(r, g, s).Some?;
      var entry := (g, s, Lookup(r, g, s).value);
      assert entry in dump;
      var i :| 0 <= i < |dump| && dump[i] == entry;
    }
  }

  lemma VisitedStep(dump: seq<Entry>, k: nat)
    requires k < |dump|
    ensures forall g :: Visited(dump[..k + 1], g) <==> Visited(dump[..k], g) || g == dump[k].0
  {
    assert dump[..k + 1] == dump[..k] + [dump[k]];
    forall g ensures Visited(dump[..k + 1], g) <==> Visited(dump[..k], g) || g == dump[k].0 {
      if Visited(dump[..k], g) {
        var i :| 0 <= i < k && dump[..k][i].0 == g;
        assert dump[..k + 1][i].0 == g;
      }
      if g == dump[k].0 {
        assert dump[..k + 1][k].0 == g;
      }
    }
  }
}
