/** Origin settings on the heap: shared pointers, in-place merging, and why nothing bleeds from one rule
    into another. */
module Origins {
  import opened Text
  import opened GatewayApi
  import opened OriginSettings
  import opened Policies

  class OriginRequest {
    var connectTimeout: Option<int>
    var tlsTimeout: Option<int>
    var tcpKeepAlive: Option<int>
    var noHappyEyeballs: Option<bool>
    var keepAliveConnections: Option<int>
    var keepAliveTimeout: Option<int>
    var httpHostHeader: Option<string>
    var originServerName: Option<string>
    var noTlsVerify: Option<bool>
    var disableChunkedEncoding: Option<bool>
    var proxyType: Option<string>
    var http2Origin: Option<bool>
    var matchSniToHost: Option<bool>
    var access: Option<Access>

    constructor (o: Origin)
      ensures Value() == o
    {
      connectTimeout, tlsTimeout, tcpKeepAlive := o.connectTimeout, o.tlsTimeout, o.tcpKeepAlive;
      noHappyEyeballs, keepAliveConnections := o.noHappyEyeballs, o.keepAliveConnections;
      keepAliveTimeout := o.keepAliveTimeout;
      httpHostHeader, originServerName, noTlsVerify := o.httpHostHeader, o.originServerName, o.noTlsVerify;
      disableChunkedEncoding, proxyType, http2Origin := o.disableChunkedEncoding, o.proxyType, o.http2Origin;
      matchSniToHost, access := o.matchSniToHost, o.access;
    }

    function Value(): Origin
      reads this
    {
      Origin(connectTimeout, tlsTimeout, tcpKeepAlive, noHappyEyeballs, keepAliveConnections, keepAliveTimeout,
             httpHostHeader, originServerName, noTlsVerify, disableChunkedEncoding, proxyType, http2Origin,
             matchSniToHost, access)
    }
  }

  /** A nil pointer sets nothing. */
  function ValueOf(o: OriginRequest?): Origin
    reads o
  {
    if o == null then UNSET else o.Value()
  }

  method MergeTimeouts(base: OriginRequest, over: OriginRequest)
    modifies base
    ensures var o, p := old(base.Value()), old(over.Value());
            base.Value() == o.(
              connectTimeout := First(o.connectTimeout, p.connectTimeout),
              tlsTimeout := First(o.tlsTimeout, p.tlsTimeout),
              tcpKeepAlive := First(o.tcpKeepAlive, p.tcpKeepAlive))
  {
    if base.connectTimeout.None? { base.connectTimeout := over.connectTimeout; }
    if base.tlsTimeout.None? { base.tlsTimeout := over.tlsTimeout; }
    if base.tcpKeepAlive.None? { base.tcpKeepAlive := over.tcpKeepAlive; }
  }

  method MergeConnections(base: OriginRequest, over: OriginRequest)
    modifies base
    ensures var o, p := old(base.Value()), old(over.Value());
            base.Value() == o.(
              noHappyEyeballs := First(o.noHappyEyeballs, p.noHappyEyeballs),
              keepAliveConnections := First(o.keepAliveConnections, p.keepAliveConnections),
              keepAliveTimeout := First(o.keepAliveTimeout, p.keepAliveTimeout))
  {
    if base.noHappyEyeballs.None? { base.noHappyEyeballs := over.noHappyEyeballs; }
    if base.keepAliveConnections.None? { base.keepAliveConnections := over.keepAliveConnections; }
    if base.keepAliveTimeout.None? { base.keepAliveTimeout := over.keepAliveTimeout; }
  }

  method MergeIdentity(base: OriginRequest, over: OriginRequest)
    modifies base
    ensures var o, p := old(base.Value()), old(over.Value());
            base.Value() == o.(
              httpHostHeader := First(o.httpHostHeader, p.httpHostHeader),
              originServerName := First(o.originServerName, p.originServerName),
              noTlsVerify := First(o.noTlsVerify, p.noTlsVerify),
              matchSniToHost := First(o.matchSniToHost, p.matchSniToHost))
  {
    if base.httpHostHeader.None? { base.httpHostHeader := over.httpHostHeader; }
    if base.originServerName.None? { base.originServerName := over.originServerName; }
    if base.noTlsVerify.None? { base.noTlsVerify := over.noTlsVerify; }
    if base.matchSniToHost.None? { base.matchSniToHost := over.matchSniToHost; }
  }

  method MergeProtocol(base: OriginRequest, over: OriginRequest)
    modifies base
    ensures var o, p := old(base.Value()), old(over.Value());
            base.Value() == o.(
              disableChunkedEncoding := First(o.disableChunkedEncoding, p.disableChunkedEncoding),
              proxyType := First(o.proxyType, p.proxyType),
              http2Origin := First(o.http2Origin, p.http2Origin),
              access := First(o.access, p.access))
  {
    if base.disableChunkedEncoding.None? { base.disableChunkedEncoding := over.disableChunkedEncoding; }
    if base.proxyType.None? { base.proxyType := over.proxyType; }
    if base.http2Origin.None? { base.http2Origin := over.http2Origin; }
    if base.access.None? { base.access := over.access; }
  }

  /** A field set before keeps its value, an unset one takes the override's. */
  twostate predicate KeepsAndFills(base: OriginRequest, over: OriginRequest)
    reads base
  {
    && base.connectTimeout ==
       (if old(base.connectTimeout).Some? then old(base.connectTimeout) else old(over.connectTimeout))
    && base.tlsTimeout ==
       (if old(base.tlsTimeout).Some? then old(base.tlsTimeout) else old(over.tlsTimeout))
    && base.tcpKeepAlive ==
       (if old(base.tcpKeepAlive).Some? then old(base.tcpKeepAlive) else old(over.tcpKeepAlive))
    && base.noHappyEyeballs ==
       (if old(base.noHappyEyeballs).Some? then old(base.noHappyEyeballs) else old(over.noHappyEyeballs))
    && base.keepAliveConnections ==
       (if old(base.keepAliveConnections).Some? then old(base.keepAliveConnections) else old(over.keepAliveConnections))
    && base.keepAliveTimeout ==
       (if old(base.keepAliveTimeout).Some? then old(base.keepAliveTimeout) else old(over.keepAliveTimeout))
    && base.httpHostHeader ==
       (if old(base.httpHostHeader).Some? then old(base.httpHostHeader) else old(over.httpHostHeader))
    && base.originServerName ==
       (if old(base.originServerName).Some? then old(base.originServerName) else old(over.originServerName))
    && base.noTlsVerify ==
       (if old(base.noTlsVerify).Some? then old(base.noTlsVerify) else old(over.noTlsVerify))
    && base.disableChunkedEncoding ==
       (if old(base.disableChunkedEncoding).Some? then old(base.disableChunkedEncoding)
        else old(over.disableChunkedEncoding))
    && base.proxyType ==
       (if old(base.proxyType).Some? then old(base.proxyType) else old(over.proxyType))
    && base.http2Origin ==
       (if old(base.http2Origin).Some? then old(base.http2Origin) else old(over.http2Origin))
    && base.matchSniToHost ==
       (if old(base.matchSniToHost).Some? then old(base.matchSniToHost) else old(over.matchSniToHost))
    && base.access == (if old(base.access).Some? then old(base.access) else old(over.access))
  }

  method FillUnset(base: OriginRequest, over: OriginRequest)
    modifies base
    ensures base.Value() == Layer(old(base.Value()), old(over.Value()))
    ensures KeepsAndFills(base, over)
  {
    MergeTimeouts(base, over);
    MergeConnections(base, over);
    MergeIdentity(base, over);
    MergeProtocol(base, over);
  }

  /** Fills the unset fields of `base` from `over`, in place. Without a base the override itself comes
      back: the result may be an alias of either argument. */
  method MergeOriginRequest(base: OriginRequest?, over: OriginRequest?) returns (r: OriginRequest?)
    modifies if base != null && over != null then {base} else {}
    ensures r == if over == null then base else if base == null then over else base
    ensures ValueOf(r) == Layer(old(ValueOf(base)), old(ValueOf(over)))
    ensures over != base ==> ValueOf(over) == old(ValueOf(over))
    ensures base != null && over != null ==> KeepsAndFills(base, over)
  {
    hide KeepsAndFills, Layer;
    if over == null {
      LayerMonoid(ValueOf(base), UNSET, UNSET);
      return base;
    }
    if base == null {
      LayerMonoid(ValueOf(over), UNSET, UNSET);
      return over;
    }
    FillUnset(base, over);
    r := base;
  }

  method CloneOriginRequest(o: OriginRequest?) returns (c: OriginRequest?)
    ensures c == null <==> o == null
    ensures c != null ==> fresh(c)
    ensures ValueOf(c) == ValueOf(o)
  {
    if o == null {
      return null;
    }
    c := new OriginRequest(o.Value());
  }

  // ----- Policies -----

  datatype OriginSpec = OriginSpec(
    proxyType: Option<string>, disableChunkedEncoding: Option<bool>, noHappyEyeballs: Option<bool>,
    http2Origin: Option<bool>, matchSniToHost: Option<bool>, keepAliveConnections: Option<int>,
    keepAliveTimeout: Option<int>, tlsTimeout: Option<int>, tcpKeepAlive: Option<int>)

  /** The settings an origin policy can express. */
  function FromSpec(s: OriginSpec): Origin {
    UNSET.(
      proxyType := s.proxyType, disableChunkedEncoding := s.disableChunkedEncoding,
      noHappyEyeballs := s.noHappyEyeballs, http2Origin := s.http2Origin, matchSniToHost := s.matchSniToHost,
      keepAliveConnections := s.keepAliveConnections, keepAliveTimeout := s.keepAliveTimeout,
      tlsTimeout := s.tlsTimeout, tcpKeepAlive := s.tcpKeepAlive)
  }

  type OriginPolicies = seq<Policy<OriginSpec>>

  function PolicyOrigin(ps: OriginPolicies, kind: string, name: string): Option<Origin> {
    var w := Winner(ps, kind, name);
    if w.Some? then Some(FromSpec(w.value.spec)) else None
  }

  /** Route-level settings win, Gateway-level ones fill the rest; None when no policy applies. */
  function Effective(ps: OriginPolicies, gwName: string, kind: string, name: string): Option<Origin> {
    var route, gw := PolicyOrigin(ps, kind, name), PolicyOrigin(ps, "Gateway", gwName);
    if route.None? then gw else if gw.None? then route else Some(Layer(route.value, gw.value))
  }

  method EffectiveOriginRequest(ps: OriginPolicies, gwName: string, kind: string, name: string)
    returns (r: OriginRequest?)
    ensures r == null <==> Effective(ps, gwName, kind, name).None?
    ensures r != null ==> fresh(r) && Some(r.Value()) == Effective(ps, gwName, kind, name)
  {
    hide Layer, Winner, FromSpec, KeepsAndFills;
    var gwCfg: OriginRequest?, routeCfg: OriginRequest? := null, null;
    var w := PolicyForTarget(ps, "Gateway", gwName);
    if w.Some? {
      gwCfg := new OriginRequest(FromSpec(w.value.spec));
    }
    w := PolicyForTarget(ps, kind, name);
    if w.Some? {
      routeCfg := new OriginRequest(FromSpec(w.value.spec));
    }
    ghost var g, q := ValueOf(gwCfg), ValueOf(routeCfg);
    LayerMonoid(g, UNSET, UNSET);
    LayerMonoid(q, UNSET, UNSET);
    r := MergeOriginRequest(routeCfg, gwCfg);
  }

  type AccessPolicies = seq<Policy<Access>>

  /** A Gateway-level access policy governs every rule; otherwise the route's own does. */
  function AccessFor(ps: AccessPolicies, gwName: string, kind: string, name: string): Option<Access> {
    var gw, route := Winner(ps, "Gateway", gwName), Winner(ps, kind, name);
    if gw.Some? then Some(gw.value.spec) else if route.Some? then Some(route.value.spec) else None
  }

  /** The access settings if only policies of the route's own Namespace counted for the route. */
  function AccessMeant(ps: AccessPolicies, gwName: string, kind: string, routeNs: string,
                       name: string): Option<Access> {
    var gw, route := Winner(ps, "Gateway", gwName), Winner(Of(ps, routeNs), kind, name);
    if gw.Some? then Some(gw.value.spec) else if route.Some? then Some(route.value.spec) else None
  }

  /** A route-level access policy also governs a route of the same kind and name in another Namespace: the applied
      settings are the meant ones exactly if the route lies in the policies' Namespace, the Gateway has a policy of
      its own, or nothing targets that kind and name. */
  lemma AccessIsOwnIff(ps: AccessPolicies, gwNs: string, gwName: string, kind: string, routeNs: string, name: string)
    requires AllIn(ps, gwNs)
    ensures AccessFor(ps, gwName, kind, name) == AccessMeant(ps, gwName, kind, routeNs, name) <==>
            routeNs == gwNs || Winner(ps, "Gateway", gwName).Some? || Winner(ps, kind, name).None?
  {
    hide Of;
    OfOne(ps, gwNs, routeNs);
  }

  /** The same for origin settings. */
  function EffectiveMeant(ps: OriginPolicies, gwName: string, kind: string, routeNs: string,
                          name: string): Option<Origin> {
    var route, gw := PolicyOrigin(Of(ps, routeNs), kind, name), PolicyOrigin(ps, "Gateway", gwName);
    if route.None? then gw else if gw.None? then route else Some(Layer(route.value, gw.value))
  }

  lemma EffectiveIsOwnIff(ps: OriginPolicies, gwNs: string, gwName: string, kind: string, routeNs: string, name: string)
    requires AllIn(ps, gwNs)
    ensures var route, gw := PolicyOrigin(ps, kind, name), PolicyOrigin(ps, "Gateway", gwName);
            Effective(ps, gwName, kind, name) == EffectiveMeant(ps, gwName, kind, routeNs, name) <==>
            routeNs == gwNs || route.None? || (gw.Some? && Layer(route.value, gw.value) == gw.value)
  {
    hide Of, FromSpec, Layer;
    OfOne(ps, gwNs, routeNs);
  }

  // ----- Rules sharing no settings -----

  /** A rule's identity and its settings object. */
  datatype Slot = Slot(kind: string, ns: string, name: string, index: nat, hostname: string, origin: OriginRequest?)

  /** No two rules share a settings object. */
  ghost predicate Separate(a: array<Slot>)
    reads a
  {
    forall i, j :: 0 <= i < j < a.Length && a[i].origin != null ==> a[i].origin != a[j].origin
  }

  ghost function Objects(a: array<Slot>): set<object>
    reads a
  {
    set i | 0 <= i < a.Length && a[i].origin != null :: a[i].origin
  }

  /** The settings of every rule, by value. */
  ghost function Values(a: array<Slot>): (vs: seq<Origin>)
    reads a, Objects(a)
    ensures |vs| == a.Length
    ensures forall i :: 0 <= i < a.Length ==> vs[i] == ValueOf(a[i].origin)
  {
    seq(a.Length, i requires 0 <= i < a.Length reads a, Objects(a) => ValueOf(a[i].origin))
  }

  /** The rules without their settings objects. */
  ghost function Headers(a: array<Slot>): (hs: seq<Slot>)
    reads a
    ensures |hs| == a.Length
    ensures forall i :: 0 <= i < a.Length ==> hs[i] == a[i].(origin := null)
  {
    seq(a.Length, i requires 0 <= i < a.Length reads a => a[i].(origin := null))
  }

  /** Merges `cfg` into rule i, giving it a settings object first if it has none. */
  method MergeInto(a: array<Slot>, i: nat, cfg: OriginRequest)
    requires i < a.Length && Separate(a) && cfg !in Objects(a)
    modifies a, a[i].origin
    ensures Separate(a) && Headers(a) == old(Headers(a))
    ensures Values(a) == old(Values(a))[i := Layer(old(Values(a))[i], old(cfg.Value()))]
    ensures cfg.Value() == old(cfg.Value())
    ensures fresh(Objects(a) - old(Objects(a)))
    ensures forall k :: 0 <= k < a.Length && k != i ==> a[k] == old(a[k])
    ensures a[i].origin != null && (old(a[i].origin) != null ==> a[i].origin == old(a[i].origin))
  {
    hide Layer, Headers, KeepsAndFills;
    ghost var before := Values(a);
    var base := a[i].origin;
    if base == null {
      base := new OriginRequest(UNSET);
    }
    var merged := MergeOriginRequest(base, cfg);
    a[i] := a[i].(origin := merged);
    forall k | 0 <= k < a.Length && k != i ensures ValueOf(a[k].origin) == before[k] {
    }
    assert Values(a) == before[i := Layer(before[i], cfg.Value())];
  }

  /** Sets the access settings of rule i, whatever they were. */
  method SetAccess(a: array<Slot>, i: nat, access: Access)
    requires i < a.Length && Separate(a)
    modifies a, a[i].origin
    ensures Separate(a) && Headers(a) == old(Headers(a))
    ensures Values(a) == old(Values(a))[i := old(Values(a))[i].(access := Some(access))]
    ensures fresh(Objects(a) - old(Objects(a)))
  {
    ghost var before := Values(a);
    if a[i].origin == null {
      var o := new OriginRequest(UNSET);
      a[i] := a[i].(origin := o);
    }
    a[i].origin.access := Some(access);
    forall k | 0 <= k < a.Length && k != i ensures ValueOf(a[k].origin) == before[k] {
    }
    assert Values(a) == before[i := before[i].(access := Some(access))];
  }

  function WithAccess(o: Origin, access: Option<Access>): Origin {
    if access.None? then o else o.(access := access)
  }

  method ApplyAccessPolicies(ps: AccessPolicies, gwName: string, a: array<Slot>)
    requires Separate(a)
    modifies a, Objects(a)
    ensures Separate(a) && Headers(a) == old(Headers(a))
    ensures forall i :: 0 <= i < a.Length ==>
              Values(a)[i] == WithAccess(old(Values(a))[i], AccessFor(ps, gwName, a[i].kind, a[i].name))
    ensures fresh(Objects(a) - old(Objects(a)))
  {
    hide Winner, Headers, Values, AccessFor, WithAccess;
    if ps == [] {
      NoPolicies(ps, gwName);
      return;
    }
    ghost var hs, vs := Headers(a), Values(a);
    var gw := PolicyForTarget(ps, "Gateway", gwName);
    for i := 0 to a.Length
      invariant Separate(a) && Headers(a) == hs
      invariant forall k :: 0 <= k < i ==>
                Values(a)[k] == WithAccess(vs[k], AccessFor(ps, gwName, hs[k].kind, hs[k].name))
      invariant forall k :: i <= k < a.Length ==> Values(a)[k] == vs[k]
      invariant fresh(Objects(a) - old(Objects(a)))
    {
      assert hs[i] == a[i].(origin := null);
      AccessRule(ps, gwName, gw, a, i);
    }
    forall i | 0 <= i < a.Length ensures a[i].kind == hs[i].kind && a[i].name == hs[i].name {
      assert hs[i] == a[i].(origin := null);
    }
  }

  /** One rule's access settings: the Gateway's policy if there is one, else the route's. */
  method AccessRule(ps: AccessPolicies, gwName: string, gw: Option<Policy<Access>>, a: array<Slot>, i: nat)
    requires i < a.Length && Separate(a) && gw == Winner(ps, "Gateway", gwName)
    modifies a, a[i].origin
    ensures Separate(a) && Headers(a) == old(Headers(a)) && fresh(Objects(a) - old(Objects(a)))
    ensures Values(a) == old(Values(a))[i := WithAccess(old(Values(a))[i],
                                                        AccessFor(ps, gwName, old(a[i].kind), old(a[i].name)))]
  {
    hide Winner, Headers, Values, Separate;
    var cfg := gw;
    if cfg.None? {
      cfg := PolicyForTarget(ps, a[i].kind, a[i].name);
    }
    if cfg.Some? {
      SetAccess(a, i, cfg.value.spec);
    }
  }

  lemma NoPolicies(ps: AccessPolicies, gwName: string)
    requires ps == []
    ensures forall o, kind, name :: WithAccess(o, AccessFor(ps, gwName, kind, name)) == o
  {
  }

  /** The pointer stands for these settings, nil for none. */
  predicate HasValue(o: OriginRequest?, e: Option<Origin>)
    reads o
  {
    if o == null then e.None? else Some(o.Value()) == e
  }

  /** The cache of effective settings: private objects, one per route kind and name, each holding that value. */
  ghost predicate CacheHolds(cache: map<string, OriginRequest?>, ps: OriginPolicies, gwName: string)
    reads set k <- cache :: cache[k]
  {
    forall kind, name :: '/' !in kind && TargetKey(kind, name) in cache ==>
      HasValue(cache[TargetKey(kind, name)], Effective(ps, gwName, kind, name))
  }

  ghost function Cached(cache: map<string, OriginRequest?>): set<object> {
    set k | k in cache && cache[k] != null :: cache[k]
  }

  function Layered(o: Origin, e: Option<Origin>): Origin {
    if e.None? then o else Layer(o, e.value)
  }

  method ApplyOriginPolicies(ps: OriginPolicies, gwName: string, a: array<Slot>)
    requires Separate(a) && forall i :: 0 <= i < a.Length ==> '/' !in a[i].kind
    modifies a, Objects(a)
    ensures Separate(a) && Headers(a) == old(Headers(a))
    ensures forall i :: 0 <= i < a.Length ==>
              Values(a)[i] == Layered(old(Values(a))[i], Effective(ps, gwName, a[i].kind, a[i].name))
    ensures fresh(Objects(a) - old(Objects(a)))
  {
    hide Effective, TargetKey, Layer;
    var cache: map<string, OriginRequest?> := map[];
    ghost var hs, vs := Headers(a), Values(a);
    for i := 0 to a.Length
      invariant Separate(a) && Headers(a) == hs
      invariant forall k :: 0 <= k < i ==> Values(a)[k] == Layered(vs[k], Effective(ps, gwName, hs[k].kind, hs[k].name))
      invariant forall k :: i <= k < a.Length ==> Values(a)[k] == vs[k]
      invariant fresh(Objects(a) - old(Objects(a))) && fresh(Cached(cache))
      invariant Cached(cache) !! Objects(a)
      invariant CacheHolds(cache, ps, gwName)
    {
      assert hs[i] == a[i].(origin := null);
      var kind, name := a[i].kind, a[i].name;
      var cfg;
      cfg, cache := CachedSettings(cache, ps, gwName, kind, name);
      LayerRule(a, i, cfg, cache, ps, gwName);
    }
    forall i | 0 <= i < a.Length ensures a[i].kind == hs[i].kind && a[i].name == hs[i].name {
      assert hs[i] == a[i].(origin := null);
    }
  }

  /** Layers a cached object under rule i without giving the rule the object itself. */
  method LayerRule(a: array<Slot>, i: nat, cfg: OriginRequest?, ghost cache: map<string, OriginRequest?>,
                   ghost ps: OriginPolicies, ghost gwName: string)
    requires i < a.Length && Separate(a) && Cached(cache) !! Objects(a) && CacheHolds(cache, ps, gwName)
    requires cfg != null ==> cfg in Cached(cache)
    modifies a, a[i].origin
    ensures Separate(a) && Headers(a) == old(Headers(a)) && fresh(Objects(a) - old(Objects(a)))
    ensures Values(a) == old(Values(a))[i := if cfg == null then old(Values(a))[i]
                                        else Layer(old(Values(a))[i], old(cfg.Value()))]
    ensures Cached(cache) !! Objects(a) && CacheHolds(cache, ps, gwName)
  {
    hide Effective, TargetKey, Layer;
    if cfg != null {
      MergeInto(a, i, cfg);
    }
  }

  /** Looks the settings of a route kind and name up, computing them on the first use. */
  method CachedSettings(cache: map<string, OriginRequest?>, ps: OriginPolicies, gwName: string, kind: string,
                        name: string)
    returns (cfg: OriginRequest?, cache': map<string, OriginRequest?>)
    requires CacheHolds(cache, ps, gwName) && '/' !in kind
    ensures CacheHolds(cache', ps, gwName)
    ensures HasValue(cfg, Effective(ps, gwName, kind, name))
    ensures fresh(Cached(cache') - Cached(cache)) && (cfg != null ==> cfg in Cached(cache'))
  {
    hide Effective, TargetKey;
    var key := TargetKey(kind, name);
    if key in cache {
      return cache[key], cache;
    }
    cfg := EffectiveOriginRequest(ps, gwName, kind, name);
    CacheAdded(cache, ps, gwName, kind, name, cfg);
    cache' := cache[key := cfg];
    assert cache'[key] == cfg;
  }

  lemma CacheAdded(cache: map<string, OriginRequest?>, ps: OriginPolicies, gwName: string, kind: string,
                   name: string, cfg: OriginRequest?)
    requires CacheHolds(cache, ps, gwName) && '/' !in kind
    requires HasValue(cfg, Effective(ps, gwName, kind, name))
    ensures CacheHolds(cache[TargetKey(kind, name) := cfg], ps, gwName)
  {
    hide Effective, TargetKey;
    forall k, n | '/' !in k && TargetKey(k, n) == TargetKey(kind, name) ensures k == kind && n == name {
      TargetKeyInjective(k, n, kind, name);
    }
  }
}
