/** What one Gateway pushes and reports as a function of the cluster, and which Gateways a Service change
    wakes up. */
module Watch {
  import opened Text
  import opened GatewayApi
  import opened Precedence
  import opened Ingress
  import OriginSettings
  import OriginRules
  import P = Push
  import A = Attachment
  import B = Backends

  // ----- References of a route -----

  function RefsUpTo(route: Route, n: nat): seq<ObjectRef>
    requires n <= |route.rules|
  {
    if n == 0 then [] else RefsUpTo(route, n - 1) + route.rules[n - 1].refs
  }

  /** Every backendRef of every rule, in order. */
  function RefsOf(route: Route): seq<ObjectRef> {
    RefsUpTo(route, |route.rules|)
  }

  lemma {:induction false} RuleRefsIncluded(route: Route, n: nat, k: nat, r: ObjectRef)
    requires k < n <= |route.rules| && r in route.rules[k].refs
    ensures r in RefsUpTo(route, n)
  {
    if k < n - 1 {
      RuleRefsIncluded(route, n - 1, k, r);
    }
  }

  function TargetsOfRefs(route: Route, refs: seq<ObjectRef>): seq<B.Target> {
    seq(|refs|, i requires 0 <= i < |refs| => B.TargetOf(route.ns, route.kind, refs[i]))
  }

  function TargetsOf(route: Route): seq<B.Target> {
    TargetsOfRefs(route, RefsOf(route))
  }

  /** All targets of all attached routes: what the collection phase is given. */
  function AllTargets(routes: seq<Route>): seq<B.Target> {
    if routes == [] then [] else AllTargets(routes[..|routes| - 1]) + TargetsOf(routes[|routes| - 1])
  }

  lemma {:induction false} AllTargetsMember(routes: seq<Route>, t: B.Target)
    ensures t in AllTargets(routes) <==> exists r <- routes :: t in TargetsOf(r)
  {
    hide TargetsOf;
    if routes != [] {
      AllTargetsMember(routes[..|routes| - 1], t);
      assert routes == routes[..|routes| - 1] + [routes[|routes| - 1]];
    }
  }

  lemma RefTarget(route: Route, k: nat, i: nat)
    requires k < |route.rules| && i < |route.rules[k].refs|
    ensures B.TargetOf(route.ns, route.kind, route.rules[k].refs[i]) in TargetsOf(route)
  {
    var r := route.rules[k].refs[i];
    RuleRefsIncluded(route, |route.rules|, k, r);
    var refs := RefsOf(route);
    var j :| 0 <= j < |refs| && refs[j] == r;
    assert TargetsOf(route)[j] == B.TargetOf(route.ns, route.kind, r);
  }

  // ----- Rules depend on the resolver only through the routes' own targets -----

  ghost predicate AgreeOn(f: Resolve, g: Resolve, route: Route) {
    forall t <- TargetsOf(route) :: f(t) == g(t)
  }

  lemma {:induction false} RulesAgree(route: Route, n: nat, f: Resolve, g: Resolve)
    requires n <= |route.rules| && route.ns != "" && AgreeOn(f, g, route)
    ensures RulesUpTo(route, n, f) == RulesUpTo(route, n, g)
  {
    hide FanOut, TargetsOf, MatchesOf, HostsOf;
    if n > 0 {
      RulesAgree(route, n - 1, f, g);
      var rule := route.rules[n - 1];
      if rule.refs != [] {
        RefTarget(route, n - 1, 0);
      }
      assert ServiceOf(route, rule, f) == ServiceOf(route, rule, g);
    }
  }

  ghost predicate HaveNamespace(routes: seq<Route>) {
    forall r <- routes :: r.ns != ""
  }

  lemma {:induction false} BuiltAgree(routes: seq<Route>, f: Resolve, g: Resolve)
    requires HaveNamespace(routes) && forall r <- routes :: AgreeOn(f, g, r)
    ensures Built(routes, f) == Built(routes, g)
  {
    hide RulesUpTo, AgreeOn;
    if routes != [] {
      var front, r := routes[..|routes| - 1], routes[|routes| - 1];
      assert routes == front + [r] && r in routes;
      assert HaveNamespace(front);
      BuiltAgree(front, f, g);
      RulesAgree(r, |r.rules|, f, g);
    }
  }

  // ----- One Gateway's output -----

  function MemoisedReasons(xb: Option<B.XbBackends>, svc: Option<B.SvcBackends>,
                           experimental: bool): B.Target -> B.Reason {
    (t: B.Target) => B.ResolveTargetReason(t, xb, svc, experimental)
  }

  function IngressOf(rs: Routes, resolve: Resolve): seq<Rule<B.Service>> {
    IngressList(rs.http, rs.grpc, rs.tls, rs.tcp, resolve)
  }

  /** The ResolvedRefs reason of a route. */
  function StatusOf(route: Route, reason: B.Target -> B.Reason): B.Reason {
    B.Worst(B.Reasons(route.ns, route.kind, RefsOf(route), reason))
  }

  /** Memoised resolution refines direct resolution for everything pushed and reported: the same rules with the same
      settings in the same order, the same reason for every route. */
  lemma MemoisedListIsDirect(c: B.Cluster, experimental: bool, svc: Option<B.SvcBackends>, xb: Option<B.XbBackends>,
                             rs: Routes, p: P.PolicySet)
    requires B.Collected(c, AllTargets(rs.Every()), experimental, svc, xb) && HaveNamespace(rs.Every())
    ensures P.PushedList(rs, B.Resolver(xb, svc, experimental), p) ==
            P.PushedList(rs, B.DirectResolver(c, experimental), p)
    ensures IngressOf(rs, B.Resolver(xb, svc, experimental)) == IngressOf(rs, B.DirectResolver(c, experimental))
    ensures forall r <- rs.Every() ::
            StatusOf(r, MemoisedReasons(xb, svc, experimental)) == StatusOf(r, B.DirectReasons(c, experimental))
  {
    hide B.Collected, TargetsOf, IngressList, AllTargets, P.PushedList;
    var f, g := B.Resolver(xb, svc, experimental), B.DirectResolver(c, experimental);
    forall r, t | r in rs.Every() && t in TargetsOf(r)
      ensures f(t) == g(t) && MemoisedReasons(xb, svc, experimental)(t) == B.DirectReasons(c, experimental)(t)
    {
      AllTargetsMember(rs.Every(), t);
      B.MemoisedIsDirect(c, AllTargets(rs.Every()), experimental, svc, xb, t);
    }
    ListAgrees(rs, f, g, p);
    forall r | r in rs.Every()
      ensures StatusOf(r, MemoisedReasons(xb, svc, experimental)) == StatusOf(r, B.DirectReasons(c, experimental)) {
      StatusAgrees(r, MemoisedReasons(xb, svc, experimental), B.DirectReasons(c, experimental));
    }
  }

  /** Settings, too, depend on the resolver only through the routes' own targets. */
  lemma StartAgrees(route: Route, k: nat, f: Resolve, g: Resolve)
    requires k < |route.rules| && route.ns != "" && AgreeOn(f, g, route)
    ensures RulesOf(route, k, f) == RulesOf(route, k, g)
    ensures OriginRules.StartOf(OriginRules.Source(route, k), f) == OriginRules.StartOf(OriginRules.Source(route, k), g)
  {
    hide FanOut, TargetsOf, MatchesOf, HostsOf, OriginSettings.Layer, OriginRules.RuleSettings;
    if route.rules[k].refs != [] {
      RefTarget(route, k, 0);
    }
    assert ServiceOf(route, route.rules[k], f) == ServiceOf(route, route.rules[k], g);
  }

  lemma {:induction false} SourcesUpToAgree(route: Route, n: nat, f: Resolve, g: Resolve)
    requires n <= |route.rules| && route.ns != "" && AgreeOn(f, g, route)
    ensures OriginRules.SourcesUpTo(route, n, f) == OriginRules.SourcesUpTo(route, n, g)
  {
    hide RulesOf, RulesUpTo, AgreeOn, OriginRules.StartOf;
    if n > 0 {
      SourcesUpToAgree(route, n - 1, f, g);
      StartAgrees(route, n - 1, f, g);
    }
  }

  lemma {:induction false} SourcesAgree(routes: seq<Route>, f: Resolve, g: Resolve)
    requires HaveNamespace(routes) && forall r <- routes :: AgreeOn(f, g, r)
    ensures OriginRules.Sources(routes, f) == OriginRules.Sources(routes, g)
    ensures forall s <- OriginRules.Sources(routes, f) :: OriginRules.StartOf(s, f) == OriginRules.StartOf(s, g)
  {
    hide AgreeOn, OriginRules.SourcesUpTo, OriginRules.StartOf, Built;
    if routes != [] {
      var front, r := routes[..|routes| - 1], routes[|routes| - 1];
      assert routes == front + [r] && r in routes;
      SourcesAgree(front, f, g);
      SourcesUpToAgree(r, |r.rules|, f, g);
      var more := OriginRules.SourcesUpTo(r, |r.rules|, f);
      forall s | s in more ensures OriginRules.StartOf(s, f) == OriginRules.StartOf(s, g) {
        var i :| 0 <= i < |more| && more[i] == s;
        OriginRules.SourceUpToAt(r, |r.rules|, f, i);
        StartAgrees(r, s.k, f, g);
        assert s == OriginRules.Source(r, s.k);
      }
    }
  }

  lemma ListAgrees(rs: Routes, f: Resolve, g: Resolve, p: P.PolicySet)
    requires HaveNamespace(rs.Every()) && forall r <- rs.Every() :: AgreeOn(f, g, r)
    ensures IngressOf(rs, f) == IngressOf(rs, g)
    ensures P.PushedList(rs, f, p) == P.PushedList(rs, g, p)
  {
    hide AgreeOn, Built, StableSort, OriginRules.Sources, OriginRules.StartOf, P.PushedList;
    PartsAgree(rs);
    BuiltAgree(rs.http, f, g);
    BuiltAgree(rs.grpc, f, g);
    BuiltAgree(rs.tls, f, g);
    BuiltAgree(rs.tcp, f, g);
    SourcesAgree(rs.http, f, g);
    SourcesAgree(rs.grpc, f, g);
    SourcesAgree(rs.tls, f, g);
    SourcesAgree(rs.tcp, f, g);
    SettingsAgree(rs, f, g, p);
    SameParts(rs, f, g, p);
  }

  ghost predicate SameStarts(routes: seq<Route>, f: Resolve, g: Resolve) {
    && Built(routes, f) == Built(routes, g) && OriginRules.Sources(routes, f) == OriginRules.Sources(routes, g)
    && forall s <- OriginRules.Sources(routes, f) :: OriginRules.StartOf(s, f) == OriginRules.StartOf(s, g)
  }

  lemma SettingsAgree(rs: Routes, f: Resolve, g: Resolve, p: P.PolicySet)
    requires SameStarts(rs.http, f, g) && SameStarts(rs.grpc, f, g) && SameStarts(rs.tls, f, g)
             && SameStarts(rs.tcp, f, g)
    ensures P.L7Settings(rs, f, p) == P.L7Settings(rs, g, p)
    ensures P.TlsSettings(rs.tls, f, p) == P.TlsSettings(rs.tls, g, p)
    ensures P.TcpSettings(rs.tcp, f, p) == P.TcpSettings(rs.tcp, g, p)
  {
    hide Built, OriginRules.Sources, OriginRules.StartOf, P.Final;
  }

  lemma SameParts(rs: Routes, f: Resolve, g: Resolve, p: P.PolicySet)
    requires P.L7Rules(rs, f) == P.L7Rules(rs, g) && P.L7Settings(rs, f, p) == P.L7Settings(rs, g, p)
    requires Built(rs.tls, f) == Built(rs.tls, g) && P.TlsSettings(rs.tls, f, p) == P.TlsSettings(rs.tls, g, p)
    requires Built(rs.tcp, f) == Built(rs.tcp, g) && P.TcpSettings(rs.tcp, f, p) == P.TcpSettings(rs.tcp, g, p)
    ensures P.PushedList(rs, f, p) == P.PushedList(rs, g, p)
  {
    hide Built, StableSort, P.L7Rules, P.L7Settings, P.TlsSettings, P.TcpSettings;
  }

  lemma PartsAgree(rs: Routes)
    ensures forall r :: r in rs.Every() <==> r in rs.http || r in rs.grpc || r in rs.tls || r in rs.tcp
  {
  }

  lemma StatusAgrees(route: Route, f: B.Target -> B.Reason, g: B.Target -> B.Reason)
    requires forall t <- TargetsOf(route) :: f(t) == g(t)
    ensures StatusOf(route, f) == StatusOf(route, g)
  {
    hide B.Worst, RefsOf;
    var refs := RefsOf(route);
    forall i | 0 <= i < |refs|
      ensures f(B.TargetOf(route.ns, route.kind, refs[i])) == g(B.TargetOf(route.ns, route.kind, refs[i])) {
      assert TargetsOf(route)[i] in TargetsOf(route);
    }
    assert B.Reasons(route.ns, route.kind, refs, f) == B.Reasons(route.ns, route.kind, refs, g);
  }

  // ----- Attached routes -----

  function RequestFor(gw: A.Gateway, route: Route, labels: string -> Option<map<string, string>>): A.Request {
    A.Request(gw, route.parentRefs, route.ns, route.kind, if route.kind == TCP_ROUTE then [] else route.hostnames,
              labels(route.ns))
  }

  /** The routes attached to a Gateway, each with its effective hostnames; None when a Namespace that
      has to be read cannot be. */
  function AttachedRoutes(gw: A.Gateway, routes: seq<Route>,
                          labels: string -> Option<map<string, string>>): Option<seq<Route>> {
    if routes == [] then Some([])
    else
      var before, r := AttachedRoutes(gw, routes[..|routes| - 1], labels), routes[|routes| - 1];
      if before.None? then None
      else
        var at := A.Attach(RequestFor(gw, r, labels));
        if at.None? then None
        else if !at.value.attaches then before
        else Some(before.value + [if r.kind == TCP_ROUTE then r else r.(hostnames := at.value.hostnames)])
  }

  method CollectRoutes(gw: A.Gateway, routes: seq<Route>, labels: string -> Option<map<string, string>>)
    returns (attached: Option<seq<Route>>)
    ensures attached == AttachedRoutes(gw, routes, labels)
  {
    hide A.Attach, RequestFor;
    var out := [];
    for i := 0 to |routes|
      invariant AttachedRoutes(gw, routes[..i], labels) == Some(out)
    {
      var route := routes[i];
      assert routes[..i + 1][..i] == routes[..i];
      var at := A.RouteAttachmentHostnames(RequestFor(gw, route, labels));
      if at.None? {
        FailureStays(gw, routes, labels, i + 1);
        return None;
      }
      if !at.value.attaches {
        continue;
      }
      out := out + [if route.kind == TCP_ROUTE then route else route.(hostnames := at.value.hostnames)];
    }
    assert routes[..|routes|] == routes;
    attached := Some(out);
  }

  lemma {:induction false} FailureStays(gw: A.Gateway, routes: seq<Route>,
                                        labels: string -> Option<map<string, string>>, n: nat)
    requires n <= |routes| && AttachedRoutes(gw, routes[..n], labels).None?
    ensures AttachedRoutes(gw, routes, labels).None?
    decreases |routes|
  {
    hide A.Attach, RequestFor;
    if n < |routes| {
      assert routes[..|routes| - 1][..n] == routes[..n];
      FailureStays(gw, routes[..|routes| - 1], labels, n);
    } else {
      assert routes[..n] == routes;
    }
  }

  /** An attached route is a listed one, up to its hostnames, and names the Gateway as a parent. */
  lemma {:induction false} AttachedOrigin(gw: A.Gateway, routes: seq<Route>,
                                          labels: string -> Option<map<string, string>>, r: Route)
    requires AttachedRoutes(gw, routes, labels).Some? && r in AttachedRoutes(gw, routes, labels).value
    ensures exists s <- routes :: r == s.(hostnames := r.hostnames) && NamesGateway(s, gw)
  {
    hide A.Attach;
    if routes != [] {
      var front, s := routes[..|routes| - 1], routes[|routes| - 1];
      assert routes == front + [s] && s in routes;
      if r in AttachedRoutes(gw, front, labels).value {
        AttachedOrigin(gw, front, labels, r);
      } else {
        AttachImpliesNames(gw, s, labels);
      }
    }
  }

  predicate NamesGateway(route: Route, gw: A.Gateway) {
    exists ref <- route.parentRefs :: A.ReferencesGateway(ref, gw, route.ns)
  }

  lemma AttachImpliesNames(gw: A.Gateway, s: Route, labels: string -> Option<map<string, string>>)
    requires A.Attach(RequestFor(gw, s, labels)).Some? && A.Attach(RequestFor(gw, s, labels)).value.attaches
    ensures NamesGateway(s, gw)
  {
    hide A.AttachFrom;
    var q := RequestFor(gw, s, labels);
    A.AttachedNamesGateway(q, q.gw.listeners, []);
  }

  // ----- Watch mapping -----

  /** A Gateway to reconcile. */
  datatype GatewayKey = GatewayKey(ns: string, name: string)

  predicate IsGatewayRef(ref: ParentRef) {
    OrElse(ref.group, GATEWAY_GROUP) == GATEWAY_GROUP && OrElse(ref.kind, "Gateway") == "Gateway"
  }

  method RouteToGateways(route: Route) returns (requests: seq<GatewayKey>)
    ensures forall k :: k in requests <==>
              exists ref <- route.parentRefs :: IsGatewayRef(ref) && k == GatewayKey(OrElse(ref.ns, route.ns), ref.name)
  {
    requests := [];
    for i := 0 to |route.parentRefs|
      invariant forall k :: k in requests <==>
                  exists j :: 0 <= j < i && IsGatewayRef(route.parentRefs[j]) &&
                    k == GatewayKey(OrElse(route.parentRefs[j].ns, route.ns), route.parentRefs[j].name)
    {
      var ref := route.parentRefs[i];
      if !IsGatewayRef(ref) {
        continue;
      }
      requests := requests + [GatewayKey(OrElse(ref.ns, route.ns), ref.name)];
    }
  }

  /** The route references this Service in some rule, as any of its backends. */
  predicate References(route: Route, key: B.Key) {
    exists t <- TargetsOf(route) :: t.IsService() && t.ObjectKey() == key
  }

  /** A Gateway that the route names as a parent. */
  predicate HasParent(route: Route, k: GatewayKey) {
    exists ref <- route.parentRefs :: IsGatewayRef(ref) && k == GatewayKey(OrElse(ref.ns, route.ns), ref.name)
  }

  /** Wakes up every parent of every route that references the Service, once each. A list that cannot be
      read is skipped. */
  method ServiceToGateways(key: B.Key, lists: seq<Option<seq<Route>>>) returns (requests: seq<GatewayKey>)
    ensures forall i, j :: 0 <= i < j < |requests| ==> requests[i] != requests[j]
    ensures forall k :: k in requests <==>
              exists l, r :: 0 <= l < |lists| && lists[l].Some? && r in lists[l].value &&
                References(r, key) && HasParent(r, k)
  {
    hide References, HasParent;
    requests := [];
    var seen: set<GatewayKey> := {};
    for l := 0 to |lists|
      invariant forall k :: k in seen <==>
                  exists m, r :: 0 <= m < l && lists[m].Some? && r in lists[m].value &&
                    References(r, key) && HasParent(r, k)
      invariant forall k :: k in seen <==> k in requests
      invariant forall i, j :: 0 <= i < j < |requests| ==> requests[i] != requests[j]
    {
      if lists[l].None? {
        continue;
      }
      ghost var before := seen;
      seen, requests := AddRoutes(key, lists[l].value, seen, requests);
      forall k ensures k in seen <==>
                  exists m, r :: 0 <= m < l + 1 && lists[m].Some? && r in lists[m].value &&
                    References(r, key) && HasParent(r, k)
      {
        assert k in seen <==> k in before || exists r <- lists[l].value :: References(r, key) && HasParent(r, k);
      }
    }
  }

  /** The routes of one kind. */
  method AddRoutes(key: B.Key, routes: seq<Route>, seen0: set<GatewayKey>, requests0: seq<GatewayKey>)
    returns (seen: set<GatewayKey>, requests: seq<GatewayKey>)
    requires forall k :: k in seen0 <==> k in requests0
    requires forall i, j :: 0 <= i < j < |requests0| ==> requests0[i] != requests0[j]
    ensures forall k :: k in seen <==> k in requests
    ensures forall i, j :: 0 <= i < j < |requests| ==> requests[i] != requests[j]
    ensures forall k :: k in seen <==> k in seen0 || exists r <- routes :: References(r, key) && HasParent(r, k)
  {
    hide References;
    seen, requests := seen0, requests0;
    for i := 0 to |routes|
      invariant forall k :: k in seen <==> k in requests
      invariant forall i, j :: 0 <= i < j < |requests| ==> requests[i] != requests[j]
      invariant forall k :: k in seen <==>
                k in seen0 || exists j :: 0 <= j < i && References(routes[j], key) && HasParent(routes[j], k)
    {
      if References(routes[i], key) {
        var parents := RouteToGateways(routes[i]);
        ghost var before := seen;
        for p := 0 to |parents|
          invariant forall k :: k in seen <==> k in requests
          invariant forall i, j :: 0 <= i < j < |requests| ==> requests[i] != requests[j]
          invariant forall k :: k in seen <==> k in before || k in parents[..p]
        {
          if parents[p] !in seen {
            seen, requests := seen + {parents[p]}, requests + [parents[p]];
          }
        }
        assert parents[..|parents|] == parents;
        forall k ensures k in parents <==> HasParent(routes[i], k) {}
      }
    }
  }

  // ----- Completeness -----

  /** Two snapshots that differ in nothing but one Service. */
  ghost predicate DifferOnlyIn(c: B.Cluster, d: B.Cluster, key: B.Key) {
    && c.grants == d.grants && c.xbackends == d.xbackends
    && forall k :: k != key ==>
        (k in c.services <==> k in d.services) && (k in c.services ==> c.services[k] == d.services[k])
  }

  lemma UnaffectedTarget(c: B.Cluster, d: B.Cluster, key: B.Key, experimental: bool, t: B.Target)
    requires DifferOnlyIn(c, d, key) && !(t.IsService() && t.ObjectKey() == key)
    ensures B.DirectResolver(c, experimental)(t) == B.DirectResolver(d, experimental)(t)
    ensures B.DirectReasons(c, experimental)(t) == B.DirectReasons(d, experimental)(t)
  {
  }

  /** What a Gateway pushes, settings included, and reports. */
  ghost predicate SameOutput(rs: Routes, c: B.Cluster, d: B.Cluster, experimental: bool, p: P.PolicySet) {
    && P.PushedList(rs, B.DirectResolver(c, experimental), p) == P.PushedList(rs, B.DirectResolver(d, experimental), p)
    && forall r <- rs.Every() ::
        StatusOf(r, B.DirectReasons(c, experimental)) == StatusOf(r, B.DirectReasons(d, experimental))
  }

  lemma UnaffectedRoutes(rs: Routes, c: B.Cluster, d: B.Cluster, key: B.Key, experimental: bool, p: P.PolicySet)
    requires DifferOnlyIn(c, d, key) && HaveNamespace(rs.Every())
    requires forall r <- rs.Every() :: !References(r, key)
    ensures SameOutput(rs, c, d, experimental, p)
  {
    hide DifferOnlyIn, B.DirectResolver, B.DirectReasons, TargetsOf, IngressOf, StatusOf, P.PushedList;
    forall r, t | r in rs.Every() && t in TargetsOf(r)
      ensures B.DirectResolver(c, experimental)(t) == B.DirectResolver(d, experimental)(t)
      ensures B.DirectReasons(c, experimental)(t) == B.DirectReasons(d, experimental)(t)
    {
      UnaffectedTarget(c, d, key, experimental, t);
    }
    ListAgrees(rs, B.DirectResolver(c, experimental), B.DirectResolver(d, experimental), p);
    forall r | r in rs.Every()
      ensures StatusOf(r, B.DirectReasons(c, experimental)) == StatusOf(r, B.DirectReasons(d, experimental)) {
      StatusAgrees(r, B.DirectReasons(c, experimental), B.DirectReasons(d, experimental));
    }
  }

  /** The routes of all kinds as listed, and those attached to one Gateway. */
  ghost predicate AttachedFrom(gw: A.Gateway, listed: Routes, labels: string -> Option<map<string, string>>,
                               rs: Routes) {
    && AttachedRoutes(gw, listed.http, labels) == Some(rs.http)
    && AttachedRoutes(gw, listed.grpc, labels) == Some(rs.grpc)
    && AttachedRoutes(gw, listed.tls, labels) == Some(rs.tls)
    && AttachedRoutes(gw, listed.tcp, labels) == Some(rs.tcp)
  }

  lemma AttachedNamespaces(gw: A.Gateway, listed: Routes, labels: string -> Option<map<string, string>>, rs: Routes,
                           r: Route)
    requires AttachedFrom(gw, listed, labels, rs) && r in rs.Every()
    ensures exists s <- listed.Every() :: r == s.(hostnames := r.hostnames) && NamesGateway(s, gw)
  {
    hide AttachedRoutes, NamesGateway;
    PartsAgree(rs);
    PartsAgree(listed);
    if r in rs.http {
      AttachedOrigin(gw, listed.http, labels, r);
    } else if r in rs.grpc {
      AttachedOrigin(gw, listed.grpc, labels, r);
    } else if r in rs.tls {
      AttachedOrigin(gw, listed.tls, labels, r);
    } else {
      AttachedOrigin(gw, listed.tcp, labels, r);
    }
  }

  /** The Service watch is complete: when a change to one Service alone changes what some Gateway pushes
      or reports, settings included, that Gateway is a parent of a listed route that references the
      Service, and so among
      the requests ServiceToGateways returns. */
  lemma WatchIsComplete(gw: A.Gateway, listed: Routes, labels: string -> Option<map<string, string>>, rs: Routes,
                        c: B.Cluster, d: B.Cluster, key: B.Key, experimental: bool, p: P.PolicySet)
    requires AttachedFrom(gw, listed, labels, rs) && HaveNamespace(listed.Every()) && DifferOnlyIn(c, d, key)
    requires !SameOutput(rs, c, d, experimental, p)
    ensures exists s <- listed.Every() :: References(s, key) && HasParent(s, GatewayKey(gw.ns, gw.name))
  {
    hide AttachedFrom, DifferOnlyIn, SameOutput;
    forall r | r in rs.Every() ensures r.ns != "" {
      AttachedNamespaces(gw, listed, labels, rs, r);
    }
    if forall r <- rs.Every() :: !References(r, key) {
      UnaffectedRoutes(rs, c, d, key, experimental, p);
    } else {
      var r :| r in rs.Every() && References(r, key);
      AttachedNamespaces(gw, listed, labels, rs, r);
      var s :| s in listed.Every() && r == s.(hostnames := r.hostnames) && NamesGateway(s, gw);
      SameReferences(s, r, key);
      ParentKey(s, gw);
    }
  }

  lemma ParentKey(s: Route, gw: A.Gateway)
    requires NamesGateway(s, gw)
    ensures HasParent(s, GatewayKey(gw.ns, gw.name))
  {
  }

  lemma SameReferences(s: Route, r: Route, key: B.Key)
    requires r == s.(hostnames := r.hostnames)
    ensures References(r, key) == References(s, key)
  {
    SameRefs(s, r, |s.rules|);
  }

  lemma {:induction false} SameRefs(s: Route, r: Route, n: nat)
    requires r.rules == s.rules && n <= |s.rules|
    ensures RefsUpTo(r, n) == RefsUpTo(s, n)
  {
    if n > 0 {
      SameRefs(s, r, n - 1);
    }
  }
}
