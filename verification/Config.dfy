/**
 Validation of a parsed configuration: the loops over the service tables, and the
 condition they decide.

 Socket addresses, paths and TOML syntax are not part of the record. Whether a
 static root exists and is a directory is a fact that the record carries.
 */
module Config {
  import opened Options
  import opened ServiceNames

  datatype ExposeEntry = ExposeEntry(name: string, secret: string)

  datatype StaticEntry = StaticEntry(name: string, secret: string, rootExists: bool, rootIsDir: bool)

  datatype ConsumeEntry = ConsumeEntry(name: string, secret: string)

  datatype GroupEntry = GroupEntry(name: string, token: string)

  datatype RateOverride = RateOverride(nodeId: string, bytesPerSec: nat)

  datatype RootConfig = RootConfig(
    logLevel: string,
    groups: seq<GroupEntry>,
    relay: Option<seq<RateOverride>>,
    serverNodeId: Option<string>,
    groupToken: Option<string>,
    expose: seq<ExposeEntry>,
    statics: seq<StaticEntry>,
    consume: seq<ConsumeEntry>)

  /** `parse_endpoint_id`. */
  type ParseId = string -> Option<nat>

  // ---------------------------------------------------------------------
  // What a valid configuration is
  // ---------------------------------------------------------------------

  predicate AllDistinct(names: seq<string>) {
    forall i, j :: 0 <= i < j < |names| ==> names[i] != names[j]
  }

  function ExposeNames(cfg: RootConfig): (r: seq<string>)
    ensures |r| == |cfg.expose| && forall i :: 0 <= i < |r| ==> r[i] == cfg.expose[i].name
  {
    seq(|cfg.expose|, i requires 0 <= i < |cfg.expose| => cfg.expose[i].name)
  }

  function StaticNames(cfg: RootConfig): (r: seq<string>)
    ensures |r| == |cfg.statics| && forall i :: 0 <= i < |r| ==> r[i] == cfg.statics[i].name
  {
    seq(|cfg.statics|, i requires 0 <= i < |cfg.statics| => cfg.statics[i].name)
  }

  function ConsumeNames(cfg: RootConfig): (r: seq<string>)
    ensures |r| == |cfg.consume| && forall i :: 0 <= i < |r| ==> r[i] == cfg.consume[i].name
  {
    seq(|cfg.consume|, i requires 0 <= i < |cfg.consume| => cfg.consume[i].name)
  }

  predicate Named(name: string) {
    ValidateServiceName(name).Valid?
  }

  predicate Filled(s: Option<string>) {
    s.Some? && s.value != ""
  }

  /** All service names of a client, over the three tables, are distinct and valid, and all secrets are set. */
  ghost predicate ClientOk(cfg: RootConfig) {
    && cfg.relay.None? && Filled(cfg.serverNodeId) && Filled(cfg.groupToken)
    && AllDistinct(ExposeNames(cfg) + StaticNames(cfg) + ConsumeNames(cfg))
    && (forall i :: 0 <= i < |cfg.expose| ==> Named(cfg.expose[i].name) && cfg.expose[i].secret != "")
    && (forall i :: 0 <= i < |cfg.statics| ==>
          && Named(cfg.statics[i].name) && cfg.statics[i].secret != ""
          && cfg.statics[i].rootExists && cfg.statics[i].rootIsDir)
    && (forall i :: 0 <= i < |cfg.consume| ==> Named(cfg.consume[i].name) && cfg.consume[i].secret != "")
  }

  function Overrides(cfg: RootConfig): seq<RateOverride> {
    if cfg.relay.Some? then cfg.relay.value else []
  }

  /** Group names are distinct, tokens set, and override rows name distinct endpoints. */
  ghost predicate ServerOk(parse: ParseId, cfg: RootConfig) {
    && (forall i, j :: 0 <= i < j < |cfg.groups| ==> cfg.groups[i].name != cfg.groups[j].name)
    && (forall i :: 0 <= i < |cfg.groups| ==> cfg.groups[i].token != "")
    && (forall i :: 0 <= i < |Overrides(cfg)| ==> parse(Overrides(cfg)[i].nodeId).Some?)
    && (forall i, j :: 0 <= i < j < |Overrides(cfg)| ==>
          parse(Overrides(cfg)[i].nodeId) != parse(Overrides(cfg)[j].nodeId))
  }

  predicate KnownLevel(level: string) {
    level == "trace" || level == "debug" || level == "info" || level == "warn" || level == "error"
  }

  predicate HasServerFields(cfg: RootConfig) {
    cfg.groups != []
  }

  predicate HasClientFields(cfg: RootConfig) {
    cfg.serverNodeId.Some? || cfg.expose != [] || cfg.consume != []
  }

  ghost predicate Acceptable(parse: ParseId, cfg: RootConfig) {
    && (HasServerFields(cfg) <==> !HasClientFields(cfg))
    && (if HasServerFields(cfg) then ServerOk(parse, cfg) else ClientOk(cfg))
    && KnownLevel(cfg.logLevel)
  }

  // ---------------------------------------------------------------------
  // The loops
  // ---------------------------------------------------------------------

  /** The three duplicate checks: insert each name in a fresh set and stop at the first that is there already. */
  method NoDuplicates(names: seq<string>) returns (ok: bool)
    ensures ok <==> AllDistinct(names)
  {
    var seen: set<string> := {};
    for k := 0 to |names|
      invariant AllDistinct(names[..k])
      invariant forall n :: n in seen <==> n in names[..k]
    {
      if names[k] in seen {
        var i :| 0 <= i < k && names[..k][i] == names[k];
        return false;
      }
      seen := seen + {names[k]};
      assert names[..k + 1] == names[..k] + [names[k]];
    }
    assert names[..|names|] == names;
    return true;
  }

  method NamesOf(names: seq<string>) returns (all: set<string>)
    ensures forall n :: n in all <==> n in names
  {
    all := set n | n in names;
  }

  /** No name of `names` occurs in `others`. */
  method NoneIn(names: seq<string>, others: set<string>) returns (ok: bool)
    ensures ok <==> forall i :: 0 <= i < |names| ==> names[i] !in others
  {
    for k := 0 to |names|
      invariant forall i :: 0 <= i < k ==> names[i] !in others
    {
      if names[k] in others {
        return false;
      }
    }
    return true;
  }

  method ValidateClient(cfg: RootConfig) returns (ok: bool)
    ensures ok <==> ClientOk(cfg)
  {
    if cfg.relay.Some? || !Filled(cfg.serverNodeId) || !Filled(cfg.groupToken) {
      return false;
    }
    var distinct := NamesDistinct(cfg);
    if !distinct {
      return false;
    }
    for k := 0 to |cfg.expose|
      invariant forall i :: 0 <= i < k ==> Named(cfg.expose[i].name) && cfg.expose[i].secret != ""
    {
      var e := cfg.expose[k];
      if !Named(e.name) || e.secret == "" || AlpnForService(e.name).NoAlpn? {
        return false;
      }
    }
    for k := 0 to |cfg.statics|
      invariant forall i :: 0 <= i < k ==>
        && Named(cfg.statics[i].name) && cfg.statics[i].secret != ""
        && cfg.statics[i].rootExists && cfg.statics[i].rootIsDir
    {
      var s := cfg.statics[k];
      if !Named(s.name) || s.secret == "" || !s.rootExists || !s.rootIsDir || AlpnForService(s.name).NoAlpn? {
        return false;
      }
    }
    for k := 0 to |cfg.consume|
      invariant forall i :: 0 <= i < k ==> Named(cfg.consume[i].name) && cfg.consume[i].secret != ""
    {
      var c := cfg.consume[k];
      if !Named(c.name) || c.secret == "" || AlpnForService(c.name).NoAlpn? {
        return false;
      }
    }
    return true;
  }

  /** The five passes over names decide whether all names of the client are distinct. */
  method NamesDistinct(cfg: RootConfig) returns (ok: bool)
    ensures ok <==> AllDistinct(ExposeNames(cfg) + StaticNames(cfg) + ConsumeNames(cfg))
  {
    var es, ss, cs := ExposeNames(cfg), StaticNames(cfg), ConsumeNames(cfg);
    var expNames := NamesOf(es);
    var staticNames := NamesOf(ss);
    var okE := NoDuplicates(es);
    var okC := NoDuplicates(cs);
    var okS := NoDuplicates(ss);
    var okCross := NoneIn(cs, expNames + staticNames);
    var okBoth := NoneIn(es, staticNames);
    DistinctParts(es, ss, cs);
    ok := okE && okC && okS && okCross && okBoth;
  }

  lemma DistinctParts(es: seq<string>, ss: seq<string>, cs: seq<string>)
    ensures AllDistinct(es + ss + cs) <==>
      && AllDistinct(es) && AllDistinct(ss) && AllDistinct(cs)
      && (forall i :: 0 <= i < |cs| ==> cs[i] !in es && cs[i] !in ss)
      && (forall i :: 0 <= i < |es| ==> es[i] !in ss)
  {
    DistinctTwo(es + ss, cs);
    DistinctTwo(es, ss);
    assert forall n :: n in es + ss <==> n in es || n in ss;
    assert (forall i :: 0 <= i < |cs| ==> cs[i] !in es + ss) <==> (forall n :: n in es + ss ==> n !in cs);
    assert (forall i :: 0 <= i < |es| ==> es[i] !in ss) <==> (forall n :: n in es ==> n !in ss);
  }

  lemma DistinctTwo(xs: seq<string>, ys: seq<string>)
    ensures AllDistinct(xs + ys) <==> AllDistinct(xs) && AllDistinct(ys) && forall n :: n in xs ==> n !in ys
  {
    var both := xs + ys;
    if AllDistinct(both) {
      forall i, j | 0 <= i < j < |xs| ensures xs[i] != xs[j] {
        assert both[i] != both[j];
      }
      forall i, j | 0 <= i < j < |ys| ensures ys[i] != ys[j] {
        assert both[|xs| + i] != both[|xs| + j];
      }
      forall n | n in xs ensures n !in ys {
        var i :| 0 <= i < |xs| && xs[i] == n;
        forall j | 0 <= j < |ys| ensures ys[j] != n {
          assert both[i] != both[|xs| + j];
        }
      }
    }
    if AllDistinct(xs) && AllDistinct(ys) && forall n :: n in xs ==> n !in ys {
      forall i, j | 0 <= i < j < |both| ensures both[i] != both[j] {
        if i < |xs| <= j {
          assert xs[i] in xs && ys[j - |xs|] in ys;
        }
      }
    }
  }

  method ValidateServer(parse: ParseId, cfg: RootConfig) returns (ok: bool)
    ensures ok <==> ServerOk(parse, cfg)
  {
    var seen: set<string> := {};
    for k := 0 to |cfg.groups|
      invariant forall n :: n in seen <==> exists i :: 0 <= i < k && cfg.groups[i].name == n
      invariant forall i, j :: 0 <= i < j < k ==> cfg.groups[i].name != cfg.groups[j].name
      invariant forall i :: 0 <= i < k ==> cfg.groups[i].token != ""
    {
      var g := cfg.groups[k];
      if g.name in seen || g.token == "" {
        return false;
      }
      seen := seen + {g.name};
    }
    var rows := Overrides(cfg);
    var seenIds: set<nat> := {};
    for k := 0 to |rows|
      invariant forall id :: id in seenIds <==> exists i :: 0 <= i < k && parse(rows[i].nodeId) == Some(id)
      invariant forall i :: 0 <= i < k ==> parse(rows[i].nodeId).Some?
      invariant forall i, j :: 0 <= i < j < k ==> parse(rows[i].nodeId) != parse(rows[j].nodeId)
    {
      var id := parse(rows[k].nodeId);
      if id.None? || id.value in seenIds {
        return false;
      }
      seenIds := seenIds + {id.value};
    }
    return true;
  }

  /** `RootConfig::validate`: which role, then that role's checks, then the log level. */
  method Validate(parse: ParseId, cfg: RootConfig) returns (ok: bool)
    ensures ok <==> Acceptable(parse, cfg)
  {
    if HasServerFields(cfg) == HasClientFields(cfg) {
      return false;
    }
    if HasServerFields(cfg) {
      ok := ValidateServer(parse, cfg);
    } else {
      ok := ValidateClient(cfg);
    }
    if ok && !KnownLevel(cfg.logLevel) {
      return false;
    }
  }

  // ---------------------------------------------------------------------
  // What acceptance guarantees
  // ---------------------------------------------------------------------

  /** Nothing stops two groups from having the same token. */
  lemma SharedTokenIsAccepted(parse: ParseId, a: string, b: string, token: string)
    requires a != b && token != ""
    ensures Acceptable(parse, RootConfig("info", [GroupEntry(a, token), GroupEntry(b, token)], None, None, None, [], [], []))
  {
    var cfg := RootConfig("info", [GroupEntry(a, token), GroupEntry(b, token)], None, None, None, [], [], []);
    assert HasServerFields(cfg) && !HasClientFields(cfg);
  }

  /** The protocols that an accepted client registers with its router: control, then each published service. */
  method RegisterHandlers(cfg: RootConfig) returns (alpns: seq<string>)
    requires ClientOk(cfg)
    ensures |alpns| == 1 + |cfg.expose| + |cfg.statics| && alpns[0] == ALPN_CONTROL
    ensures forall i :: 0 <= i < |cfg.expose| ==> Alpn(alpns[1 + i]) == AlpnForService(cfg.expose[i].name)
    ensures forall i :: 0 <= i < |cfg.statics| ==>
      Alpn(alpns[1 + |cfg.expose| + i]) == AlpnForService(cfg.statics[i].name)
    ensures AllDistinct(alpns)
  {
    alpns := [ALPN_CONTROL];
    for k := 0 to |cfg.expose|
      invariant |alpns| == 1 + k && alpns[0] == ALPN_CONTROL
      invariant forall i :: 0 <= i < k ==> Alpn(alpns[1 + i]) == AlpnForService(cfg.expose[i].name)
    {
      alpns := alpns + [AlpnForService(cfg.expose[k].name).bytes];
    }
    for k := 0 to |cfg.statics|
      invariant |alpns| == 1 + |cfg.expose| + k && alpns[0] == ALPN_CONTROL
      invariant forall i :: 0 <= i < |cfg.expose| ==> Alpn(alpns[1 + i]) == AlpnForService(cfg.expose[i].name)
      invariant forall i :: 0 <= i < k ==> Alpn(alpns[1 + |cfg.expose| + i]) == AlpnForService(cfg.statics[i].name)
    {
      alpns := alpns + [AlpnForService(cfg.statics[k].name).bytes];
    }
    PublishedAlpnsDistinct(cfg, alpns);
  }

  /** The name behind entry `i` of the router, for `i` past the control protocol. */
  function Published(cfg: RootConfig, i: nat): string
    requires i < |cfg.expose| + |cfg.statics|
  {
    if i < |cfg.expose| then cfg.expose[i].name else cfg.statics[i - |cfg.expose|].name
  }

  lemma PublishedAlpnsDistinct(cfg: RootConfig, alpns: seq<string>)
    requires ClientOk(cfg) && |alpns| == 1 + |cfg.expose| + |cfg.statics| && alpns[0] == ALPN_CONTROL
    requires forall i :: 0 <= i < |cfg.expose| ==> Alpn(alpns[1 + i]) == AlpnForService(cfg.expose[i].name)
    requires forall i :: 0 <= i < |cfg.statics| ==>
      Alpn(alpns[1 + |cfg.expose| + i]) == AlpnForService(cfg.statics[i].name)
    ensures AllDistinct(alpns)
  {
    var all := ExposeNames(cfg) + StaticNames(cfg) + ConsumeNames(cfg);
    forall i | 0 <= i < |cfg.expose| + |cfg.statics|
      ensures all[i] == Published(cfg, i) && AlpnForService(Published(cfg, i)) == Alpn(alpns[1 + i])
    {
      if i >= |cfg.expose| {
        assert Alpn(alpns[1 + |cfg.expose| + (i - |cfg.expose|)]) == AlpnForService(cfg.statics[i - |cfg.expose|].name);
      }
    }
    forall i, j | 0 <= i < j < |alpns| ensures alpns[i] != alpns[j] {
      assert AlpnForService(Published(cfg, j - 1)) == Alpn(alpns[1 + (j - 1)]);
      if i == 0 {
        NotControl(Published(cfg, j - 1));
      } else {
        assert AlpnForService(Published(cfg, i - 1)) == Alpn(alpns[1 + (i - 1)]);
        assert all[i - 1] != all[j - 1];
        AlpnsAreDistinct(Published(cfg, i - 1), Published(cfg, j - 1));
      }
    }
  }

  lemma NotControl(name: string)
    requires AlpnForService(name).Alpn?
    ensures AlpnForService(name).bytes != ALPN_CONTROL
  {
    assert (ALPN_PREFIX + name)[|ALPN_PREFIX|..] == name;
    assert ALPN_CONTROL[|ALPN_PREFIX|..] == "control";
  }
}
