/** The configuration one Gateway pushes, rules and settings together, and the pipelines that compute it on the
    heap. */
module Push {
  import opened Text
  import opened Seqs
  import opened GatewayApi
  import opened OriginSettings
  import opened Policies
  import opened Origins
  import opened OriginRules
  import opened BackendTls
  import opened Precedence
  import B = Backends
  import I = Ingress

  /** The policies a pass reads: access and origin policies of the Gateway's Namespace, BackendTLSPolicies by theirs. */
  datatype PolicySet = PolicySet(gwName: string, access: AccessPolicies, origins: OriginPolicies,
                                 tls: map<string, seq<TlsPolicy>>)

  // ----- Final settings -----

  function Final(built: Origin, access: Option<Access>, policy: Option<Origin>): Origin {
    Layered(WithAccess(built, access), policy)
  }

  /** An HTTP or gRPC rule: access policies, then origin policies. */
  function FinalL7(s: Source, resolve: I.Resolve, p: PolicySet): Origin {
    Final(StartOf(s, resolve), AccessFor(p.access, p.gwName, s.route.kind, s.route.name),
          Effective(p.origins, p.gwName, s.route.kind, s.route.name))
  }

  /** A TLS rule on a hostname: BackendTLSPolicy override, then origin policies. */
  function FinalTls(s: Source, host: string, tls: seq<Route>, resolve: I.Resolve, p: PolicySet): Origin {
    Layered(TlsOverride(Claims(tls), p.tls, SlotFor(s, host), StartOf(s, resolve)),
            Effective(p.origins, p.gwName, s.route.kind, s.route.name))
  }

  function FinalTcp(s: Source, resolve: I.Resolve, p: PolicySet): Origin {
    Layered(StartOf(s, resolve), Effective(p.origins, p.gwName, s.route.kind, s.route.name))
  }

  function L7Rules(rs: Routes, resolve: I.Resolve): seq<Rule<B.Service>> {
    I.Built(rs.http, resolve) + I.Built(rs.grpc, resolve)
  }

  function L7Sources(rs: Routes, resolve: I.Resolve): (s: seq<Source>)
    ensures |s| == |L7Rules(rs, resolve)|
  {
    Sources(rs.http, resolve) + Sources(rs.grpc, resolve)
  }

  /** Routes are listed by kind. */
  ghost predicate ByKind(rs: Routes) {
    && (forall r <- rs.http :: r.kind == HTTP_ROUTE) && (forall r <- rs.grpc :: r.kind == GRPC_ROUTE)
    && (forall r <- rs.tls :: r.kind == TLS_ROUTE) && (forall r <- rs.tcp :: r.kind == TCP_ROUTE)
  }

  lemma L7SourceAt(rs: Routes, resolve: I.Resolve, i: nat)
    requires ByKind(rs) && i < |L7Rules(rs, resolve)|
    ensures var s, r := L7Sources(rs, resolve)[i], L7Rules(rs, resolve)[i];
            && (s.route.kind == HTTP_ROUTE || s.route.kind == GRPC_ROUTE) && s.k < |s.route.rules|
            && I.BuiltFor(r, s.route, s.k, I.ServiceOf(s.route, s.route.rules[s.k], resolve))
                && HeaderOf(r) == SlotFor(s, r.hostname)
  {
    hide I.Built, Sources, I.ServiceOf;
    var n := |I.Built(rs.http, resolve)|;
    if i < n {
      SourceAt(rs.http, resolve, i);
    } else {
      SourceAt(rs.grpc, resolve, i - n);
    }
  }

  /** A policy for HTTPRoute "web" of the Gateway's Namespace also governs a "web" of another Namespace attached to
      the same Gateway. */
  lemma OtherNamespaceGetsPolicy(spec: Access, resolve: I.Resolve)
    ensures var policy := Policy(1, "team-a", "p", [TargetRef(GATEWAY_GROUP, HTTP_ROUTE, "web")], spec);
            var s := Source(Route(HTTP_ROUTE, "team-b", "web", 0, [], [], []), 0);
            && FinalL7(s, resolve, PolicySet("gw", [policy], [], map[])).access == Some(spec)
            && AccessMeant([policy], "gw", HTTP_ROUTE, "team-b", "web") == None
  {
    hide StartOf, AccessFor, AccessMeant, Effective;
    var policy := Policy(1, "team-a", "p", [TargetRef(GATEWAY_GROUP, HTTP_ROUTE, "web")], spec);
    WebPolicy(policy);
    NoOriginPolicies("gw", HTTP_ROUTE, "web");
  }

  lemma WebPolicy(policy: Policy<Access>)
    requires policy.ns == "team-a" && policy.refs == [TargetRef(GATEWAY_GROUP, HTTP_ROUTE, "web")]
    ensures AccessFor([policy], "gw", HTTP_ROUTE, "web") == Some(policy.spec)
    ensures AccessMeant([policy], "gw", HTTP_ROUTE, "team-b", "web") == None
  {
    hide Of, Winner;
    WinnerOfOne(policy, "Gateway", "gw");
    WinnerOfOne(policy, HTTP_ROUTE, "web");
    assert policy.refs[0] in policy.refs;
    OfOne([policy], "team-a", "team-b");
    NoWinner(HTTP_ROUTE, "web");
  }

  lemma NoWinner(kind: string, name: string)
    ensures Winner<Access>([], kind, name) == None
  {
  }

  lemma NoOriginPolicies(gwName: string, kind: string, name: string)
    ensures Effective([], gwName, kind, name) == None
  {
  }

  // ----- External backends that ask for verification -----

  /** The rule's first backendRef is an XBackend, and the resolver answered with this ServerOnly one. */
  predicate ServerOnlyFrom(s: Source, resolve: I.Resolve, xb: B.XBackend) {
    && s.Refs() != [] && s.Target().IsXBackend()
    && B.TranslateXBackend(xb, s.route.kind).Served?
        && resolve(s.Target()) == Some(B.TranslateXBackend(xb, s.route.kind))
    && xb.tls.Some? && xb.tls.value.mode == B.ServerOnly
  }

  /** The origin is verified, under the backend's own name. */
  predicate Protected(xb: B.XBackend, o: Origin) {
    && o.noTlsVerify == None && o.matchSniToHost == Some(false)
    && xb.tls.Some? && xb.tls.value.validation.Some?
    && var h := xb.tls.value.validation.value.hostname;
       o.originServerName == NonEmpty(h)
  }

  /** For every cluster, memoised or asked afresh: a granted reference to a ServerOnly XBackend that can be served
      is answered so. */
  lemma ClusterAnswers(c: B.Cluster, experimental: bool, s: Source)
    requires s.Refs() != [] && s.Target().IsXBackend() && B.DirectXBackend(s.Target(), c, experimental).Served?
    requires var xb := c.xbackends[s.Target().ObjectKey()]; xb.tls.Some? && xb.tls.value.mode == B.ServerOnly
    ensures ServerOnlyFrom(s, B.DirectResolver(c, experimental), c.xbackends[s.Target().ObjectKey()])
  {
  }

  lemma MemoisedAnswers(c: B.Cluster, targets: seq<B.Target>, experimental: bool, svc: Option<B.SvcBackends>,
                        xbs: Option<B.XbBackends>, s: Source)
    requires B.Collected(c, targets, experimental, svc, xbs)
    requires s.Refs() != [] && s.Target() in targets
    requires s.Target().IsXBackend() && B.DirectXBackend(s.Target(), c, experimental).Served?
    requires var xb := c.xbackends[s.Target().ObjectKey()]; xb.tls.Some? && xb.tls.value.mode == B.ServerOnly
    ensures ServerOnlyFrom(s, B.Resolver(xbs, svc, experimental), c.xbackends[s.Target().ObjectKey()])
  {
  }

  /** Whatever the resolver claimed starts from its answer: never from the unverified default of native TLS. */
  lemma StartProtected(s: Source, resolve: I.Resolve, xb: B.XBackend)
    requires ServerOnlyFrom(s, resolve, xb)
    ensures Protected(xb, Layer(UNSET, OrElse(BackendSettings(s, resolve), UNSET)))
    ensures StartOf(s, resolve) == Layer(RuleSettings(s), OrElse(BackendSettings(s, resolve), UNSET))
    ensures Protected(xb, StartOf(s, resolve))
  {
  }

  /** External TLS survives every policy on HTTPRoutes and GRPCRoutes. */
  lemma ExternalTlsSurvives(s: Source, resolve: I.Resolve, xb: B.XBackend, p: PolicySet)
    requires ServerOnlyFrom(s, resolve, xb)
    ensures Protected(xb, FinalL7(s, resolve, p))
  {
    hide StartOf, Winner, ServerOnlyFrom;
    StartProtected(s, resolve, xb);
  }

  /** And on TLSRoutes, whatever other TLSRoutes claim the hostname and whatever BackendTLSPolicies say. */
  lemma ExternalTlsRouteSurvives(tls: seq<Route>, s: Source, host: string, resolve: I.Resolve, xb: B.XBackend,
                                 p: PolicySet)
    requires s.route in tls && s.k < |s.route.rules| && ServerOnlyFrom(s, resolve, xb)
    ensures Protected(xb, FinalTls(s, host, tls, resolve, p))
  {
    hide StartOf, Winner, TlsOverride, Claims, ClaimsUpTo, TlsConfig;
    StartProtected(s, resolve, xb);
    ClaimsUpToMember(s.route, |s.route.rules|, s.k);
    ClaimsMember(tls, s.route, ClaimFor(s.route, s.k));
    ExternalRuleUntouched(Claims(tls), p.tls, ClaimFor(s.route, s.k), SlotFor(s, host), StartOf(s, resolve));
  }

  /** Field by field, the first value set among rule, backend, route policy and Gateway policy; access comes from the
      access policy, the Gateway's before the route's. */
  lemma LayeringOrder(rule: Origin, backend: Origin, access: Option<Access>, origins: OriginPolicies, gwName: string,
                      kind: string, name: string)
    requires rule.access.None? && backend.access.None?
    ensures var route, gw := OrElse(PolicyOrigin(origins, kind, name), UNSET),
            OrElse(PolicyOrigin(origins, "Gateway", gwName), UNSET);
            Final(Layer(rule, backend), access, Effective(origins, gwName, kind, name)) ==
            Layer(rule, Layer(backend, Layer(route, gw))).(access := access)
  {
  }

  /** The value is the first one set, from left to right. */
  predicate FirstSet<T(==)>(v: Option<T>, built: Option<T>, route: Option<T>, gw: Option<T>) {
    && (built.Some? ==> v == built)
    && (built.None? && route.Some? ==> v == route)
    && (built.None? && route.None? ==> v == gw)
  }

  /** The spec of the policy that wins on a target; without one nothing is set. */
  function SpecOf(origins: OriginPolicies, kind: string, name: string): OriginSpec {
    var w := Winner(origins, kind, name);
    if w.Some? then w.value.spec else OriginSpec(None, None, None, None, None, None, None, None, None)
  }

  /** Said field by field, without layering: what an origin policy can set is the rule's own value, else the route
      policy's, else the Gateway policy's; what it cannot set stays as built. */
  predicate PolicyFields(v: Origin, built: Origin, route: OriginSpec, gw: OriginSpec) {
    && FirstSet(v.proxyType, built.proxyType, route.proxyType, gw.proxyType)
    && FirstSet(v.disableChunkedEncoding, built.disableChunkedEncoding, route.disableChunkedEncoding,
                gw.disableChunkedEncoding)
    && FirstSet(v.noHappyEyeballs, built.noHappyEyeballs, route.noHappyEyeballs, gw.noHappyEyeballs)
    && FirstSet(v.http2Origin, built.http2Origin, route.http2Origin, gw.http2Origin)
    && FirstSet(v.matchSniToHost, built.matchSniToHost, route.matchSniToHost, gw.matchSniToHost)
    && FirstSet(v.keepAliveConnections, built.keepAliveConnections, route.keepAliveConnections, gw.keepAliveConnections)
    && FirstSet(v.keepAliveTimeout, built.keepAliveTimeout, route.keepAliveTimeout, gw.keepAliveTimeout)
    && FirstSet(v.tlsTimeout, built.tlsTimeout, route.tlsTimeout, gw.tlsTimeout)
    && FirstSet(v.tcpKeepAlive, built.tcpKeepAlive, route.tcpKeepAlive, gw.tcpKeepAlive)
    && v.connectTimeout == built.connectTimeout && v.httpHostHeader == built.httpHostHeader
    && v.originServerName == built.originServerName && v.noTlsVerify == built.noTlsVerify
  }

  lemma EffectiveFields(origins: OriginPolicies, gwName: string, kind: string, name: string, built: Origin)
    ensures PolicyFields(Layered(built, Effective(origins, gwName, kind, name)), built, SpecOf(origins, kind, name),
                         SpecOf(origins, "Gateway", gwName))
    ensures Layered(built, Effective(origins, gwName, kind, name)).access == built.access
  {
    hide Winner;
  }

  /** HTTP and gRPC rules: fields as above; access from the policy winning on the Gateway, else from the one winning on
      the route, else as built. */
  lemma FieldsOfL7(s: Source, resolve: I.Resolve, p: PolicySet)
    ensures var v, built, kind, name := FinalL7(s, resolve, p), StartOf(s, resolve), s.route.kind, s.route.name;
            && PolicyFields(v, built, SpecOf(p.origins, kind, name), SpecOf(p.origins, "Gateway", p.gwName))
            && var gw, route := Winner(p.access, "Gateway", p.gwName), Winner(p.access, kind, name);
               && (gw.Some? ==> v.access == Some(gw.value.spec))
               && (gw.None? && route.Some? ==> v.access == Some(route.value.spec))
               && (gw.None? && route.None? ==> v.access == built.access)
  {
    hide Winner, StartOf, Layered, Effective, SpecOf;
    var built := WithAccess(StartOf(s, resolve), AccessFor(p.access, p.gwName, s.route.kind, s.route.name));
    EffectiveFields(p.origins, p.gwName, s.route.kind, s.route.name, built);
  }

  /** TLS rules after their override, and TCP rules; access policies do not apply to them. */
  lemma FieldsOfL4(s: Source, host: string, tls: seq<Route>, resolve: I.Resolve, p: PolicySet)
    ensures var built := TlsOverride(Claims(tls), p.tls, SlotFor(s, host), StartOf(s, resolve));
            && PolicyFields(FinalTls(s, host, tls, resolve, p), built, SpecOf(p.origins, s.route.kind, s.route.name),
                            SpecOf(p.origins, "Gateway", p.gwName))
            && FinalTls(s, host, tls, resolve, p).access == built.access
    ensures PolicyFields(FinalTcp(s, resolve, p), StartOf(s, resolve), SpecOf(p.origins, s.route.kind, s.route.name),
                         SpecOf(p.origins, "Gateway", p.gwName))
            && FinalTcp(s, resolve, p).access == StartOf(s, resolve).access
  {
    hide Winner, StartOf, Layered, Effective, SpecOf, TlsOverride, PolicyFields;
    var built := TlsOverride(Claims(tls), p.tls, SlotFor(s, host), StartOf(s, resolve));
    EffectiveFields(p.origins, p.gwName, s.route.kind, s.route.name, built);
    EffectiveFields(p.origins, p.gwName, s.route.kind, s.route.name, StartOf(s, resolve));
  }

  // ----- The pipelines -----

  lemma StartedArray(a: array<Slot>, slots: seq<Slot>, rules: seq<Rule<B.Service>>, sources: seq<Source>,
                     resolve: I.Resolve)
    requires Started(slots, rules, sources, resolve) && a[..] == slots
    ensures Separate(a) && a.Length == |rules| == |sources|
    ensures forall i :: 0 <= i < a.Length ==>
            Headers(a)[i] == HeaderOf(rules[i]) && Values(a)[i] == StartOf(sources[i], resolve)
  {
  }

  /** The rules of routes of one kind, with what they start with. */
  method StartRules(routes: seq<Route>, resolve: I.Resolve) returns (a: array<Slot>)
    ensures fresh(a) && fresh(Objects(a)) && Separate(a) && a.Length == |I.Built(routes, resolve)|
    ensures forall i :: 0 <= i < a.Length ==> Headers(a)[i] == HeaderOf(I.Built(routes, resolve)[i])
    ensures forall i :: 0 <= i < a.Length ==> Values(a)[i] == StartOf(Sources(routes, resolve)[i], resolve)
  {
    hide Started, StartOf, I.Built, Sources, Headers, Values;
    var slots := BuildSlots(routes, resolve);
    a := new Slot[|slots|](i requires 0 <= i < |slots| => slots[i]);
    assert a[..] == slots;
    StartedArray(a, slots, I.Built(routes, resolve), Sources(routes, resolve), resolve);
  }

  /** The rules of HTTPRoutes followed by those of GRPCRoutes, with what they start with. */
  method StartL7(rs: Routes, resolve: I.Resolve) returns (a: array<Slot>)
    ensures fresh(a) && fresh(Objects(a)) && Separate(a) && a.Length == |L7Rules(rs, resolve)|
    ensures forall i :: 0 <= i < a.Length ==> Headers(a)[i] == HeaderOf(L7Rules(rs, resolve)[i])
    ensures forall i :: 0 <= i < a.Length ==> Values(a)[i] == StartOf(L7Sources(rs, resolve)[i], resolve)
  {
    hide Started, StartOf, I.Built, Sources, Headers, Values;
    var slots := BuildSlots(rs.http, resolve);
    var more := BuildSlots(rs.grpc, resolve);
    StartedMore(slots, I.Built(rs.http, resolve), Sources(rs.http, resolve),
                more, I.Built(rs.grpc, resolve), Sources(rs.grpc, resolve), resolve);
    slots := slots + more;
    a := new Slot[|slots|](i requires 0 <= i < |slots| => slots[i]);
    assert a[..] == slots;
    StartedArray(a, slots, L7Rules(rs, resolve), L7Sources(rs, resolve), resolve);
  }

  /** Both policy passes over built rules. */
  method LayerPolicies(access: AccessPolicies, origins: OriginPolicies, gwName: string, a: array<Slot>)
    requires Separate(a) && forall i :: 0 <= i < a.Length ==> '/' !in a[i].kind
    modifies a, Objects(a)
    ensures Separate(a) && Headers(a) == old(Headers(a)) && fresh(Objects(a) - old(Objects(a)))
    ensures forall i :: 0 <= i < a.Length ==> var s := Headers(a)[i];
              Values(a)[i] == Final(old(Values(a))[i], AccessFor(access, gwName, s.kind, s.name),
                                    Effective(origins, gwName, s.kind, s.name))
  {
    hide Effective, AccessFor, WithAccess, Layered;
    ghost var hs := Headers(a);
    ApplyAccessPolicies(access, gwName, a);
    forall i | 0 <= i < a.Length ensures '/' !in a[i].kind {
      assert hs[i] == a[i].(origin := null);
    }
    ApplyOriginPolicies(origins, gwName, a);
    forall i | 0 <= i < a.Length ensures hs[i] == a[i].(origin := null) {}
  }

  /** The HTTP and gRPC pipeline: build, access policies, origin policies. */
  method LayeredRules(rs: Routes, resolve: I.Resolve, p: PolicySet) returns (a: array<Slot>)
    requires ByKind(rs)
    ensures fresh(a) && fresh(Objects(a)) && Separate(a) && a.Length == |L7Rules(rs, resolve)|
    ensures forall i :: 0 <= i < a.Length ==> Headers(a)[i] == HeaderOf(L7Rules(rs, resolve)[i])
    ensures forall i :: 0 <= i < a.Length ==> Values(a)[i] == FinalL7(L7Sources(rs, resolve)[i], resolve, p)
    ensures forall i, xb :: 0 <= i < a.Length && ServerOnlyFrom(L7Sources(rs, resolve)[i], resolve, xb) ==>
            Protected(xb, Values(a)[i])
  {
    hide I.Built, L7Rules, L7Sources, StartOf, Effective, AccessFor, Final, ServerOnlyFrom, Protected, Headers,
        Values, ByKind, I.ServiceOf;
    a := StartL7(rs, resolve);
    ghost var rules, sources := L7Rules(rs, resolve), L7Sources(rs, resolve);
    forall i | 0 <= i < a.Length
      ensures HeaderOf(rules[i]) == SlotFor(sources[i], rules[i].hostname) && '/' !in a[i].kind {
      L7SourceAt(rs, resolve, i);
      assert Headers(a)[i] == a[i].(origin := null);
    }
    LayerPolicies(p.access, p.origins, p.gwName, a);
    forall i, xb | 0 <= i < a.Length && ServerOnlyFrom(sources[i], resolve, xb) ensures Protected(xb, Values(a)[i]) {
      ExternalTlsSurvives(sources[i], resolve, xb, p);
    }
  }

  lemma SourceFacts(routes: seq<Route>, resolve: I.Resolve, i: nat)
    requires i < |I.Built(routes, resolve)|
    ensures var s, r := Sources(routes, resolve)[i], I.Built(routes, resolve)[i];
            s.route in routes && s.k < |s.route.rules| && HeaderOf(r) == SlotFor(s, r.hostname)
  {
    hide I.Built, Sources, I.ServiceOf;
    SourceAt(routes, resolve, i);
  }

  /** The TLS pipeline: build, BackendTLSPolicy overrides, origin policies; given up when policies cannot be listed. */
  method TlsRules(tls: seq<Route>, resolve: I.Resolve, p: PolicySet, listFails: B.Key -> bool)
    returns (ok: bool, a: array<Slot>)
    requires forall r <- tls :: r.kind == TLS_ROUTE
    ensures fresh(a) && fresh(Objects(a)) && Separate(a) && a.Length == |I.Built(tls, resolve)|
    ensures forall i :: 0 <= i < a.Length ==> Headers(a)[i] == HeaderOf(I.Built(tls, resolve)[i])
    ensures ok ==> forall i :: 0 <= i < a.Length ==>
              Values(a)[i] == FinalTls(Sources(tls, resolve)[i], I.Built(tls, resolve)[i].hostname, tls, resolve, p)
    ensures ok ==> forall i, xb :: 0 <= i < a.Length && ServerOnlyFrom(Sources(tls, resolve)[i], resolve, xb) ==>
            Protected(xb, Values(a)[i])
    ensures ok || exists k :: listFails(k)
  {
    hide I.Built, Sources, StartOf, Effective, Layered, TlsOverride, Claims, ServerOnlyFrom, Protected, Headers, Values;
    a := StartRules(tls, resolve);
    ghost var rules, sources := I.Built(tls, resolve), Sources(tls, resolve);
    ghost var hs := Headers(a);
    forall i | 0 <= i < a.Length ensures hs[i] == SlotFor(sources[i], rules[i].hostname) && sources[i].route in tls {
      SourceFacts(tls, resolve, i);
    }
    ok := ApplyBackendTlsPolicies(p.tls, tls, a, listFails);
    if !ok {
      return;
    }
    HeaderFields(a);
    ApplyOriginPolicies(p.origins, p.gwName, a);
    HeaderFields(a);
    forall i, xb | 0 <= i < a.Length && ServerOnlyFrom(sources[i], resolve, xb) ensures Protected(xb, Values(a)[i]) {
      SourceFacts(tls, resolve, i);
      ExternalTlsRouteSurvives(tls, sources[i], rules[i].hostname, resolve, xb, p);
    }
  }

  lemma HeaderFields(a: array<Slot>)
    ensures forall i :: 0 <= i < a.Length ==> a[i].kind == Headers(a)[i].kind && a[i].name == Headers(a)[i].name
  {
  }

  /** The TCP pipeline: build, origin policies. */
  method TcpRules(tcp: seq<Route>, resolve: I.Resolve, p: PolicySet) returns (a: array<Slot>)
    requires forall r <- tcp :: r.kind == TCP_ROUTE
    ensures fresh(a) && fresh(Objects(a)) && Separate(a) && a.Length == |I.Built(tcp, resolve)|
    ensures forall i :: 0 <= i < a.Length ==> Headers(a)[i] == HeaderOf(I.Built(tcp, resolve)[i])
    ensures forall i :: 0 <= i < a.Length ==> Values(a)[i] == FinalTcp(Sources(tcp, resolve)[i], resolve, p)
  {
    hide I.Built, Sources, StartOf, Effective, Layered, Headers, Values;
    a := StartRules(tcp, resolve);
    ghost var hs := Headers(a);
    forall i | 0 <= i < a.Length
      ensures hs[i] == SlotFor(Sources(tcp, resolve)[i], I.Built(tcp, resolve)[i].hostname) && hs[i].kind == TCP_ROUTE {
      SourceFacts(tcp, resolve, i);
    }
    HeaderFields(a);
    ApplyOriginPolicies(p.origins, p.gwName, a);
    HeaderFields(a);
  }

  // ----- The pushed list -----

  /** What a tunnel rule forwards to, and how. */
  datatype Pushed = Pushed(service: B.Service, origin: Origin)

  function WithOrigin(r: Rule<B.Service>, o: Origin): Rule<Pushed> {
    Rule(r.hostname, r.path, Pushed(r.service, o), r.routeKind, r.routeNs, r.routeName, r.created, r.ruleIndex,
         r.specificity, r.unsupported)
  }

  function Erase(): Rule<Pushed> -> Rule<B.Service> {
    (r: Rule<Pushed>) =>
      Rule(r.hostname, r.path, r.service.service, r.routeKind, r.routeNs, r.routeName, r.created, r.ruleIndex,
           r.specificity, r.unsupported)
  }

  function Dressed(rs: seq<Rule<B.Service>>, os: seq<Origin>): (ps: seq<Rule<Pushed>>)
    requires |rs| == |os|
    ensures |ps| == |rs| && forall i :: 0 <= i < |ps| ==> ps[i] == WithOrigin(rs[i], os[i])
  {
    seq(|rs|, i requires 0 <= i < |rs| => WithOrigin(rs[i], os[i]))
  }

  function L7Settings(rs: Routes, resolve: I.Resolve, p: PolicySet): seq<Origin> {
    Map(L7Sources(rs, resolve), (s: Source) => FinalL7(s, resolve, p))
  }

  function TlsSettings(tls: seq<Route>, resolve: I.Resolve, p: PolicySet): (os: seq<Origin>)
    ensures |os| == |I.Built(tls, resolve)|
  {
    var rules, sources := I.Built(tls, resolve), Sources(tls, resolve);
    seq(|rules|, i requires 0 <= i < |rules| => FinalTls(sources[i], rules[i].hostname, tls, resolve, p))
  }

  function TcpSettings(tcp: seq<Route>, resolve: I.Resolve, p: PolicySet): seq<Origin> {
    Map(Sources(tcp, resolve), (s: Source) => FinalTcp(s, resolve, p))
  }

  /** The pushed rules with their settings: sorted HTTP and gRPC band, TLS, TCP, catch-all. */
  function PushedList(rs: Routes, resolve: I.Resolve, p: PolicySet): seq<Rule<Pushed>> {
    StableSort(Dressed(L7Rules(rs, resolve), L7Settings(rs, resolve, p)))
    + Dressed(I.Built(rs.tls, resolve), TlsSettings(rs.tls, resolve, p))
    + Dressed(I.Built(rs.tcp, resolve), TcpSettings(rs.tcp, resolve, p))
    + [WithOrigin(I.CATCH_ALL, UNSET)]
  }

  /** A rule as the tunnel gets it: what it matches, where it forwards to and how. */
  datatype IngressRule = IngressRule(hostname: string, path: string, service: B.Service, origin: Origin)

  function ToIngress(): Rule<Pushed> -> IngressRule {
    (r: Rule<Pushed>) => IngressRule(r.hostname, r.path, r.service.service, r.service.origin)
  }

  method ToIngressRules(rules: seq<Rule<Pushed>>) returns (out: seq<IngressRule>)
    ensures out == Map(rules, ToIngress())
  {
    out := [];
    for i := 0 to |rules|
      invariant out == Map(rules[..i], ToIngress())
    {
      out := out + [IngressRule(rules[i].hostname, rules[i].path, rules[i].service.service, rules[i].service.origin)];
    }
    assert rules[..|rules|] == rules;
  }

  lemma {:induction false} InsertErased(t: seq<Rule<Pushed>>, x: Rule<Pushed>)
    ensures Map(Insert(t, x), Erase()) == Insert(Map(t, Erase()), Erase()(x))
  {
    if t != [] {
      var n := |t| - 1;
      assert Map(t, Erase())[..n] == Map(t[..n], Erase());
      if MorePrecedent(x, t[n]) {
        InsertErased(t[..n], x);
      }
    }
  }

  /** Settings play no part in the order. */
  lemma {:induction false} SortErased(s: seq<Rule<Pushed>>)
    ensures Map(StableSort(s), Erase()) == StableSort(Map(s, Erase()))
  {
    hide MorePrecedent;
    if s != [] {
      var n := |s| - 1;
      SortErased(s[..n]);
      InsertErased(StableSort(s[..n]), s[n]);
      assert Map(s, Erase())[..n] == Map(s[..n], Erase());
    }
  }

  lemma DressedErased(rs: seq<Rule<B.Service>>, os: seq<Origin>)
    requires |rs| == |os|
    ensures Map(Dressed(rs, os), Erase()) == rs
  {
  }

  /** The pushed list without its settings is the rule list: what is proved about first match there holds here. */
  lemma PushedIsIngress(rs: Routes, resolve: I.Resolve, p: PolicySet)
    ensures Map(PushedList(rs, resolve, p), Erase()) == I.IngressList(rs.http, rs.grpc, rs.tls, rs.tcp, resolve)
  {
    hide I.Built, StableSort, Sources, FinalL7, FinalTls, FinalTcp;
    var l7 := Dressed(L7Rules(rs, resolve), L7Settings(rs, resolve, p));
    SortErased(l7);
    DressedErased(L7Rules(rs, resolve), L7Settings(rs, resolve, p));
    DressedErased(I.Built(rs.tls, resolve), TlsSettings(rs.tls, resolve, p));
    DressedErased(I.Built(rs.tcp, resolve), TcpSettings(rs.tcp, resolve, p));
    var a, b, c := StableSort(l7), Dressed(I.Built(rs.tls, resolve), TlsSettings(rs.tls, resolve, p)),
        Dressed(I.Built(rs.tcp, resolve), TcpSettings(rs.tcp, resolve, p));
    MapConcat(a, b);
    MapConcat(a + b, c);
    MapConcat(a + b + c, [WithOrigin(I.CATCH_ALL, UNSET)]);
  }

  lemma MapConcat(a: seq<Rule<Pushed>>, b: seq<Rule<Pushed>>)
    ensures Map(a + b, Erase()) == Map(a, Erase()) + Map(b, Erase())
  {
  }

  /** Reads the settings off the heap into the rules. */
  method Dress(rules: seq<Rule<B.Service>>, a: array<Slot>) returns (dressed: seq<Rule<Pushed>>)
    requires |rules| == a.Length
    ensures dressed == Dressed(rules, Values(a))
  {
    dressed := [];
    for i := 0 to |rules|
      invariant |dressed| == i && forall k :: 0 <= k < i ==> dressed[k] == WithOrigin(rules[k], Values(a)[k])
    {
      dressed := dressed + [WithOrigin(rules[i], ValueOf(a[i].origin))];
    }
  }

  /** The configuration part of an apply: build, layer, sort, override, concatenate. */
  method AssembleConfig(rs: Routes, resolve: I.Resolve, p: PolicySet, listFails: B.Key -> bool)
    returns (ok: bool, list: seq<Rule<Pushed>>)
    requires ByKind(rs)
    ensures ok ==> list == PushedList(rs, resolve, p)
    ensures ok || exists k :: listFails(k)
  {
    hide I.Built, StableSort, Sources, FinalL7, FinalTls, FinalTcp, Headers, Values, ServerOnlyFrom, Protected;
    var http := I.BuildIngressRules(rs.http, resolve);
    var grpc := I.BuildIngressRules(rs.grpc, resolve);
    var l7 := LayeredRules(rs, resolve, p);
    var band := Dress(http + grpc, l7);
    assert Values(l7) == L7Settings(rs, resolve, p);
    var a := new Rule<Pushed>[|band|](i requires 0 <= i < |band| => band[i]);
    assert a[..] == band;
    SortByPrecedence(a);
    list := a[..];
    var tls := I.BuildIngressRules(rs.tls, resolve);
    var tlsSlots;
    ok, tlsSlots := TlsRules(rs.tls, resolve, p, listFails);
    if !ok {
      return;
    }
    assert Values(tlsSlots) == TlsSettings(rs.tls, resolve, p);
    var tlsRules := Dress(tls, tlsSlots);
    var tcp := I.BuildIngressRules(rs.tcp, resolve);
    var tcpSlots := TcpRules(rs.tcp, resolve, p);
    assert Values(tcpSlots) == TcpSettings(rs.tcp, resolve, p);
    var tcpRules := Dress(tcp, tcpSlots);
    list := list + tlsRules + tcpRules + [WithOrigin(I.CATCH_ALL, UNSET)];
  }
}
