/**
 What the relay decides about one incoming stream: which requests it dials a
 provider for, and at which initial reply rate.
 */
module RelayAdmission {
  import opened Bytes
  import opened Endpoints
  import opened Options
  import opened Frames
  import opened Registry

  /** The `[relay]` section of a server configuration. */
  datatype RelayConfig = RelayConfig(enabled: bool, bytesPerSec: nat)

  /** `default` is `None` when the master switch is off. */
  datatype Limits = Limits(default: Option<nat>, overrides: map<EndpointId, nat>)

  /** The default reply rate that the server starts with: off unless a `[relay]` section turns it on. */
  function DefaultRate(config: Option<RelayConfig>): Option<nat> {
    var enabled := if config.Some? then config.value.enabled else false;
    if enabled then Some(if config.Some? then config.value.bytesPerSec else 100 * 1024) else None
  }

  function InitialRate(limits: Limits, consumer: EndpointId): Option<nat> {
    match limits.default
    case None => None
    case Some(d) => Some(if consumer in limits.overrides then limits.overrides[consumer] else d)
  }

  datatype Decision =
    | Relay(provider: EndpointId, rate: Option<nat>)
    | Unreadable
    | Unwound
    | NotDataOpen
    | BadTarget
    | BadConsumer
    | WrongPeer
    | WrongProvider(actual: EndpointId)
    | NotRegistered

  /** `parse_endpoint_id`: a partial function on strings. */
  type ParseId = Text -> Option<EndpointId>

  /** The first entry of the dump with this service name. */
  function LookupAnyGroup(dump: seq<Entry>, service: Name): Option<EndpointId> {
    if dump == [] then None
    else if dump[0].1 == service then Some(dump[0].2)
    else LookupAnyGroup(dump[1..], service)
  }

  method LookupServiceAnyGroup(dump: seq<Entry>, service: Name) returns (r: Option<EndpointId>)
    ensures r == LookupAnyGroup(dump, service)
  {
    assert dump[0..] == dump;
    var k := 0;
    while k < |dump|
      invariant 0 <= k <= |dump|
      invariant LookupAnyGroup(dump, service) == LookupAnyGroup(dump[k..], service)
    {
      if dump[k].1 == service {
        return Some(dump[k].2);
      }
      assert dump[k..][1..] == dump[k + 1..];
      k := k + 1;
    }
    return None;
  }

  /** One pass of `accept_loop` after `accept_bi`, up to spawning the relay task. */
  function Decide(parse: ParseId, limits: Limits, dump: seq<Entry>, peer: EndpointId, read: Outcome<Frame>): Decision {
    if read.Panic? then Unwound
    else if !read.Ok? then Unreadable
    else if !read.value.DataOpen? then NotDataOpen
    else
      var target := parse(read.value.provider);
      if target.None? then BadTarget
      else
        var consumer := parse(read.value.consumer);
        if consumer.None? then BadConsumer
        else if consumer.value != peer then WrongPeer
        else
          var found := LookupAnyGroup(dump, read.value.service);
          if found.None? then NotRegistered
          else if found.value != target.value then WrongProvider(found.value)
          else Relay(found.value, InitialRate(limits, consumer.value))
  }

  // ---------------------------------------------------------------------
  // The streams of one connection
  // ---------------------------------------------------------------------

  /** An incoming stream: what reading its first frame gives, and the registry as it is listed then. */
  datatype Incoming = Incoming(dump: seq<Entry>, read: Outcome<Frame>)

  /** What `accept_loop` decides, stream after stream; a panic of the decoder ends it. */
  function Decisions(parse: ParseId, limits: Limits, peer: EndpointId, ins: seq<Incoming>): seq<Decision> {
    if ins == [] then []
    else
      var d := Decide(parse, limits, ins[0].dump, peer, ins[0].read);
      [d] + if d.Unwound? then [] else Decisions(parse, limits, peer, ins[1..])
  }

  lemma OneMoreDecision(parse: ParseId, limits: Limits, peer: EndpointId, ins: seq<Incoming>, k: nat, ds: seq<Decision>)
    requires k < |ins|
    ensures
      var d := Decide(parse, limits, ins[k].dump, peer, ins[k].read);
      ds + Decisions(parse, limits, peer, ins[k..])
        == ds + [d] + if d.Unwound? then [] else Decisions(parse, limits, peer, ins[k + 1..])
  {
    assert ins[k..][0] == ins[k] && ins[k..][1..] == ins[k + 1..];
    var d := Decide(parse, limits, ins[k].dump, peer, ins[k].read);
    Join(ds, [d], if d.Unwound? then [] else Decisions(parse, limits, peer, ins[k + 1..]));
  }

  lemma Join(a: seq<Decision>, b: seq<Decision>, c: seq<Decision>)
    ensures a + (b + c) == a + b + c
  {
  }

  method AcceptLoop(parse: ParseId, limits: Limits, peer: EndpointId, ins: seq<Incoming>) returns (ds: seq<Decision>)
    ensures ds == Decisions(parse, limits, peer, ins)
  {
    ds := [];
    assert ins[0..] == ins;
    ghost var all := Decisions(parse, limits, peer, ins);
    assert [] + all == all;
    for k := 0 to |ins|
      invariant all == ds + Decisions(parse, limits, peer, ins[k..])
    {
      OneMoreDecision(parse, limits, peer, ins, k, ds);
      var d := Decide(parse, limits, ins[k].dump, peer, ins[k].read);
      ds := ds + [d];
      if d.Unwound? {
        assert ds + [] == ds;
        return;
      }
    }
    assert ins[|ins|..] == [] && ds + [] == ds;
  }

  /** A stream of the connection is decided on its own merits exactly when no stream before it panicked. */
  lemma {:induction false} StreamIsDecidedExactly(parse: ParseId, limits: Limits, peer: EndpointId, ins: seq<Incoming>, k: nat)
    requires k < |ins|
    ensures
      var ds := Decisions(parse, limits, peer, ins);
      && (k < |ds| <==> forall j :: 0 <= j < k ==> !ins[j].read.Panic?)
      && (k < |ds| ==> ds[k] == Decide(parse, limits, ins[k].dump, peer, ins[k].read))
    decreases k
  {
    if k > 0 {
      StreamIsDecidedExactly(parse, limits, peer, ins[1..], k - 1);
      assert forall j :: 0 < j < k ==> ins[j] == ins[1..][j - 1];
    }
  }

  /** Some group registers `provider` for `service`. */
  ghost predicate RegisteredSomewhere(r: Groups, service: Name, provider: EndpointId) {
    exists g :: Lookup(r, g, service) == Some(provider)
  }

  lemma {:induction false} FoundIsListed(dump: seq<Entry>, service: Name)
    ensures
      var found := LookupAnyGroup(dump, service);
      && (found.Some? ==> exists e: Entry :: e in dump && e.1 == service && e.2 == found.value)
      && (found.None? ==> forall e: Entry :: e in dump ==> e.1 != service)
  {
    if dump != [] {
      FoundIsListed(dump[1..], service);
      if dump[0].1 == service {
        assert dump[0] in dump;
      }
    }
  }

  /**
   A stream reaches the relay task only for the peer it claims to come from and a
   provider registered for that service in some group, at the rate of that peer.
   */
  lemma AdmissionIsSafe(parse: ParseId, limits: Limits, r: Groups, dump: seq<Entry>, peer: EndpointId, read: Outcome<Frame>)
    requires IterationOf(dump, r)
    requires Decide(parse, limits, dump, peer, read).Relay?
    ensures
      var d := Decide(parse, limits, dump, peer, read);
      && read.Ok? && read.value.DataOpen?
      && parse(read.value.consumer) == Some(peer)
      && parse(read.value.provider) == Some(d.provider)
      && RegisteredSomewhere(r, read.value.service, d.provider)
      && (d.rate.Some? <==> limits.default.Some?)
      && (d.rate.Some? ==>
            d.rate.value == if peer in limits.overrides then limits.overrides[peer] else limits.default.value)
  {
    IterationMembers(dump, r);
    FoundIsListed(dump, read.value.service);
    var e: Entry :| e in dump && e.1 == read.value.service && e.2 == LookupAnyGroup(dump, read.value.service).value;
    assert Lookup(r, e.0, e.1) == Some(e.2);
  }

  /** Nobody registers `service`. */
  ghost predicate RegisteredNowhere(r: Groups, service: Name) {
    forall g :: Lookup(r, g, service) == None
  }

  /** The claims of a `DataOpen`: it names a target, and comes from the peer it names as its consumer. */
  predicate Claims(parse: ParseId, peer: EndpointId, open: Frame, target: EndpointId)
    requires open.DataOpen?
  {
    parse(open.provider) == Some(target) && parse(open.consumer) == Some(peer)
  }

  lemma RegisteredIsListed(r: Groups, dump: seq<Entry>, g: Name, service: Name)
    requires forall e: Entry :: e in dump <==> Lookup(r, e.0, e.1) == Some(e.2)
    ensures Lookup(r, g, service).Some? ==> exists e: Entry :: e in dump && e.1 == service
  {
    if Lookup(r, g, service).Some? {
      var e: Entry := (g, service, Lookup(r, g, service).value);
      assert e in dump;
    }
  }

  /**
   Why a readable stream is not relayed, against the registry and not its listing:
   an unparsable target, an unparsable or foreign consumer, a service that nobody
   registers, or a provider other than one of those that register it.
   */
  lemma RefusalMeans(parse: ParseId, limits: Limits, r: Groups, dump: seq<Entry>, peer: EndpointId, open: Frame)
    requires IterationOf(dump, r) && open.DataOpen?
    ensures
      var d := Decide(parse, limits, dump, peer, Ok(open));
      && (d.BadTarget? <==> parse(open.provider).None?)
      && (d.BadConsumer? <==> parse(open.provider).Some? && parse(open.consumer).None?)
      && (d.WrongPeer? <==>
            parse(open.provider).Some? && parse(open.consumer).Some? && parse(open.consumer) != Some(peer))
      && (forall target :: Claims(parse, peer, open, target) ==>
            && (d.NotRegistered? <==> RegisteredNowhere(r, open.service))
            && (d.WrongProvider? ==> d.actual != target && RegisteredSomewhere(r, open.service, d.actual))
            && (d.Relay? || d.NotRegistered? || d.WrongProvider?))
  {
    IterationMembers(dump, r);
    FoundIsListed(dump, open.service);
    var found := LookupAnyGroup(dump, open.service);
    if found.Some? {
      var e: Entry :| e in dump && e.1 == open.service && e.2 == found.value;
      assert Lookup(r, e.0, e.1) == Some(e.2);
    } else {
      forall g ensures Lookup(r, g, open.service) == None {
        RegisteredIsListed(r, dump, g, open.service);
      }
    }
  }

  /**
   A tunnel is limited exactly when the configuration has a `[relay]` section that
   enables it, and then starts at the override for its consumer or else at the
   section's rate.
   */
  lemma MasterSwitch(config: Option<RelayConfig>, overrides: map<EndpointId, nat>, consumer: EndpointId)
    ensures InitialRate(Limits(DefaultRate(config), overrides), consumer) ==
      if config.None? || !config.value.enabled then None
      else if consumer in overrides then Some(overrides[consumer])
      else Some(config.value.bytesPerSec)
  {
  }

  // ---------------------------------------------------------------------
  // Iteration order
  // ---------------------------------------------------------------------

  lemma {:induction false} FirstMatchFirst(a: seq<Entry>, b: seq<Entry>, service: Name)
    requires LookupAnyGroup(a, service).Some?
    ensures LookupAnyGroup(a + b, service) == LookupAnyGroup(a, service)
  {
    if a[0].1 != service {
      assert (a + b)[1..] == a[1..] + b;
      FirstMatchFirst(a[1..], b, service);
    }
  }

  /** Some order of one group's services. */
  lemma {:induction false} ListingExists(name: Name, services: map<Name, EndpointId>, keys: set<Name>) returns (part: seq<Entry>)
    requires keys <= services.Keys
    ensures Distinct(part)
    ensures forall e: Entry :: e in part <==> e.0 == name && e.1 in keys && services[e.1] == e.2
  {
    if keys == {} {
      part := [];
    } else {
      var s :| s in keys;
      var rest := ListingExists(name, services, keys - {s});
      part := rest + [(name, s, services[s])];
      assert forall i :: 0 <= i < |rest| ==> rest[i] in rest;
    }
  }

  /** Some iteration of `r` starts with a listing of the group `first`. */
  lemma {:induction false} IterationStartingWith(r: Groups, first: Name) returns (dump: seq<Entry>, part: seq<Entry>)
    requires first in r
    ensures IterationOf(dump, r) && ListsGroup(part, first, r[first]) && part <= dump
    decreases |r|
  {
    if r.Keys == {first} {
      part := ListingExists(first, r[first].services, r[first].services.Keys);
      dump := part;
      assert r - {first} == map[];
      assert [] + part == dump;
      assert IterationStep(dump, r, first, [], part);
    } else {
      var name :| name in r && name != first;
      FewerGroups(r, name);
      var rest;
      rest, part := IterationStartingWith(r - {name}, first);
      var last := ListingExists(name, r[name].services, r[name].services.Keys);
      dump := rest + last;
      assert IterationStep(dump, r, name, rest, last);
    }
  }

  /** If two groups disagree, the iteration order decides which provider the relay believes in. */
  lemma DisagreementCanWin(r: Groups, first: Name, service: Name) returns (dump: seq<Entry>)
    requires Lookup(r, first, service).Some?
    ensures IterationOf(dump, r) && LookupAnyGroup(dump, service) == Lookup(r, first, service)
  {
    var part;
    dump, part := IterationStartingWith(r, first);
    FoundIsListed(part, service);
    var e := (first, service, r[first].services[service]);
    assert e in part;
    FirstMatchFirst(part, dump[|part|..], service);
    assert part + dump[|part|..] == dump;
  }

  ghost predicate AdmittedInEveryOrder(parse: ParseId, limits: Limits, r: Groups, peer: EndpointId, read: Outcome<Frame>) {
    forall dump :: IterationOf(dump, r) ==> Decide(parse, limits, dump, peer, read).Relay?
  }

  /**
   A well-formed request of the connection's own peer that names a registered
   provider is relayed whatever the iteration order exactly when all groups that
   register the service agree on that provider.
   */
  lemma AdmittedExactlyOnAgreement(parse: ParseId, limits: Limits, r: Groups, peer: EndpointId, open: Frame, provider: EndpointId)
    requires open.DataOpen? && parse(open.consumer) == Some(peer) && parse(open.provider) == Some(provider)
    requires RegisteredSomewhere(r, open.service, provider)
    ensures AdmittedInEveryOrder(parse, limits, r, peer, Ok(open))
       <==> forall g :: Lookup(r, g, open.service).Some? ==> Lookup(r, g, open.service) == Some(provider)
  {
    if forall g :: Lookup(r, g, open.service).Some? ==> Lookup(r, g, open.service) == Some(provider) {
      forall dump | IterationOf(dump, r) ensures Decide(parse, limits, dump, peer, Ok(open)).Relay? {
        IterationMembers(dump, r);
        FoundIsListed(dump, open.service);
        var g :| Lookup(r, g, open.service) == Some(provider);
        assert (g, open.service, provider) in dump;
        var e: Entry :| e in dump && e.1 == open.service && e.2 == LookupAnyGroup(dump, open.service).value;
        assert Lookup(r, e.0, e.1) == Some(e.2);
      }
    } else {
      var g :| Lookup(r, g, open.service).Some? && Lookup(r, g, open.service) != Some(provider);
      var dump := DisagreementCanWin(r, g, open.service);
      assert !Decide(parse, limits, dump, peer, Ok(open)).Relay?;
    }
  }
}
