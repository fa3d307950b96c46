/** From a request at the Gateway to the route rule that answers it: attachment, compilation, sorting and
    first match taken together. */
module Serving {
  import opened Text
  import opened GatewayApi
  import opened Precedence
  import opened Ingress
  import opened Grpc
  import opened Compilation
  import opened Watch
  import A = Attachment
  import B = Backends

  /** A hostname as API validation admits it: not empty, lower case, no trailing dot. */
  predicate Proper(h: string) {
    h != "" && A.NormalizeHost(h) == h
  }

  ghost predicate ProperListeners(listeners: seq<A.Listener>) {
    forall l <- listeners :: l.hostname.Some? ==> Proper(l.hostname.value)
  }

  ghost predicate AllProper(hs: seq<string>) {
    forall h <- hs :: Proper(h)
  }

  lemma {:induction false} CommonProper(hostnames: seq<string>, listener: string)
    requires AllProper(hostnames) && Proper(listener)
    ensures AllProper(A.Common(hostnames, listener))
  {
    hide A.NormalizeHost, A.IntersectHostname;
    if hostnames != [] {
      var front, h := hostnames[..|hostnames| - 1], hostnames[|hostnames| - 1];
      assert hostnames == front + [h] && h in hostnames;
      CommonProper(front, listener);
      A.ResultNormal(h, listener);
    }
  }

  lemma {:induction false} AttachProper(q: A.Request, listeners: seq<A.Listener>, eff: seq<string>)
    requires AllProper(q.hostnames) && ProperListeners(listeners) && AllProper(eff)
    requires A.AttachFrom(q, listeners, eff).Some?
    ensures AllProper(A.AttachFrom(q, listeners, eff).value.hostnames)
  {
    hide A.NormalizeHost, A.Selected, A.Allowed, A.Common, A.AddNew;
    if listeners != [] {
      var l, rest := listeners[0], listeners[1..];
      assert l in listeners && ProperListeners(rest);
      if l.hostname.Some? {
        CommonProper(q.hostnames, l.hostname.value);
      }
      var common := A.CommonHostnames(q.hostnames, l.hostname);
      if A.Selected(q, l) && A.Allowed(q, l) == Some(true) && common.Some? {
        if common.value != [] {
          A.AddNewMember(eff, common.value);
          AttachProper(q, rest, A.AddNew(eff, common.value));
        }
      } else {
        AttachProper(q, rest, eff);
      }
    }
  }

  /** The hosts of an attached route's rules are the hosts its effective hostnames denote. */
  lemma EffectiveHosts(route: Route, host: string)
    requires route.kind != TCP_ROUTE && AllProper(route.hostnames)
    ensures RouteHosts(route, host) <==> route.hostnames == [] || A.InSome(host, route.hostnames)
  {
    hide A.NormalizeHost, A.InHost;
    if route.hostnames == [] {
      assert "" in HostsOf(route) && HostServes("", host);
    } else {
      forall h | h in route.hostnames ensures HostServes(h, host) <==> A.InHost(host, A.NormalizeHost(h)) {
        assert Proper(h);
      }
    }
  }

  lemma ProperIsStable(gw: A.Gateway, q: A.Request)
    requires q.gw == gw && AllProper(q.hostnames) && ProperListeners(gw.listeners)
    ensures A.StableNames(q)
  {
  }

  /** The route with its effective hostnames. */
  function AsAttached(gw: A.Gateway, s: Route, labels: string -> Option<map<string, string>>): Route
    requires A.Attach(RequestFor(gw, s, labels)).Some?
  {
    s.(hostnames := A.Attach(RequestFor(gw, s, labels)).value.hostnames)
  }

  /** A route rule as attached and compiled serves a receivable request exactly when some listener the route may
      use and the route itself serve the host and one of the rule's matches names the path. */
  lemma AttachedRuleServes(rx: (string, string) -> bool, gw: A.Gateway, s: Route,
                           labels: string -> Option<map<string, string>>,
                           k: nat, resolve: Resolve, host: string, path: string)
    requires s.kind != TCP_ROUTE && k < |s.rules| && Receivable(s.kind, path)
    requires AllProper(s.hostnames) && ProperListeners(gw.listeners) && A.Attach(RequestFor(gw, s, labels)).Some?
    ensures && A.Attach(RequestFor(gw, s, labels)).value.attaches
            && SomeServes(rx, RulesOf(AsAttached(gw, s, labels), k, resolve), host, path) <==>
            && A.Served(RequestFor(gw, s, labels), gw.listeners, host) && RulePaths(rx, s.kind, s.rules[k], path)
  {
    hide A.NormalizeHost, A.Served, A.AttachFrom, SomeServes, RulesOf, RulePaths, RouteHosts, IsCall;
    var q := RequestFor(gw, s, labels);
    ProperIsStable(gw, q);
    A.AttachmentIsUnion(q, host);
    AttachProper(q, gw.listeners, []);
    EffectiveHosts(AsAttached(gw, s, labels), host);
    RouteCompilation(rx, AsAttached(gw, s, labels), k, resolve, host, path);
  }

  /** The rules of an attached route rule serve a receivable request exactly when it is asked for, method, headers
      and query parameters included. */
  ghost predicate AttachedServesAsked(rx: (string, string) -> bool, gw: A.Gateway, s: Route,
                                      labels: string -> Option<map<string, string>>, k: nat, resolve: Resolve)
    requires k < |s.rules| && A.Attach(RequestFor(gw, s, labels)).Some?
  {
    forall host, path, meets: Fulfilment | Admissible(meets) && Receivable(s.kind, path) ::
      && A.Attach(RequestFor(gw, s, labels)).value.attaches
      && SomeServes(rx, RulesOf(AsAttached(gw, s, labels), k, resolve), host, path) <==>
      && A.Served(RequestFor(gw, s, labels), gw.listeners, host) && RuleAsks(rx, s.kind, s.rules[k], path, meets)
  }

  /** That holds exactly when every path of the rule is also asked for without further conditions, or no listener
      serves the route at all. */
  lemma AttachedRuleIsExactIff(rx: (string, string) -> bool, gw: A.Gateway, s: Route,
                               labels: string -> Option<map<string, string>>, k: nat, resolve: Resolve)
    requires s.kind != TCP_ROUTE && k < |s.rules|
    requires AllProper(s.hostnames) && ProperListeners(gw.listeners) && A.Attach(RequestFor(gw, s, labels)).Some?
    ensures AttachedServesAsked(rx, gw, s, labels, k, resolve) <==>
            || Unconditional(rx, s.kind, s.rules[k])
            || forall host :: !A.Served(RequestFor(gw, s, labels), gw.listeners, host)
  {
    hide A.Served, A.Attach, SomeServes, RulesOf, RulePaths, RuleAsks, IsCall, RequestFor, AllProper, ProperListeners;
    var q, rule := RequestFor(gw, s, labels), s.rules[k];
    forall host, path | Receivable(s.kind, path)
      ensures A.Attach(q).value.attaches
              && SomeServes(rx, RulesOf(AsAttached(gw, s, labels), k, resolve), host, path) <==>
              A.Served(q, gw.listeners, host) && RulePaths(rx, s.kind, rule, path)
    {
      AttachedRuleServes(rx, gw, s, labels, k, resolve, host, path);
    }
    forall path, meets: Fulfilment
      ensures RuleAsks(rx, s.kind, rule, path, meets) ==> RulePaths(rx, s.kind, rule, path)
      ensures Unconditional(rx, s.kind, rule) && Admissible(meets) && RulePaths(rx, s.kind, rule, path) ==>
                RuleAsks(rx, s.kind, rule, path, meets)
    {
      AsksPaths(rx, s.kind, rule, path, meets);
    }
    if host :| AttachedServesAsked(rx, gw, s, labels, k, resolve) && A.Served(q, gw.listeners, host) {
      forall path | RulePaths(rx, s.kind, rule, path) ensures RuleAsks(rx, s.kind, rule, path, Bare()) {
        PathsReceivable(rx, s.kind, rule, path);
        assert Admissible(Bare());
        assert SomeServes(rx, RulesOf(AsAttached(gw, s, labels), k, resolve), host, path);
      }
    }
  }

  // ----- All routes of a cluster -----

  /** Routes with hostnames, as API validation admits them. */
  ghost predicate Admitted(listed: seq<Route>) {
    forall s <- listed :: s.kind != TCP_ROUTE && AllProper(s.hostnames)
  }

  lemma {:induction false} AttachedList(gw: A.Gateway, listed: seq<Route>,
                                        labels: string -> Option<map<string, string>>, r: Route)
    requires AttachedRoutes(gw, listed, labels).Some? && forall s <- listed :: s.kind != TCP_ROUTE
    ensures forall s <- listed :: A.Attach(RequestFor(gw, s, labels)).Some?
    ensures r in AttachedRoutes(gw, listed, labels).value <==>
            exists s <- listed :: A.Attach(RequestFor(gw, s, labels)).value.attaches && r == AsAttached(gw, s, labels)
  {
    hide A.Attach, RequestFor;
    if listed != [] {
      var front, s := listed[..|listed| - 1], listed[|listed| - 1];
      assert listed == front + [s] && s in listed;
      AttachedList(gw, front, labels, r);
    }
  }

  ghost predicate FromRule(r: Route, k: nat, resolve: Resolve, x: Rule<B.Service>) {
    k < |r.rules| && x in RulesOf(r, k, resolve)
  }

  lemma {:induction false} BuiltMember(routes: seq<Route>, resolve: Resolve, x: Rule<B.Service>)
    ensures x in Built(routes, resolve) <==> exists r, k: nat :: r in routes && FromRule(r, k, resolve, x)
  {
    hide RulesUpTo, RulesOf;
    if routes != [] {
      var front, r := routes[..|routes| - 1], routes[|routes| - 1];
      assert routes == front + [r] && r in routes;
      BuiltMember(front, resolve, x);
      RulesUpToMember(r, |r.rules|, resolve, x);
      if k: nat :| k < |r.rules| && x in RulesOf(r, k, resolve) {
        assert FromRule(r, k, resolve, x);
      }
    }
  }

  /** What decides who asks for what: the patterns' meaning, the Gateway, the Namespaces' labels. */
  datatype Setting = Setting(rx: (string, string) -> bool, gw: A.Gateway, labels: string -> Option<map<string, string>>)

  /** Rule k of the listed route `s` names the host and path on this Gateway. */
  ghost predicate Names(w: Setting, listed: seq<Route>, s: Route, k: nat, host: string, path: string) {
    && s in listed && k < |s.rules|
    && A.Served(RequestFor(w.gw, s, w.labels), w.gw.listeners, host)
    && RulePaths(w.rx, s.kind, s.rules[k], path)
  }

  /** Rule k of the listed route `s` asks for the request, conditions included. */
  ghost predicate Asks(w: Setting, listed: seq<Route>, s: Route, k: nat, host: string, path: string,
                       meets: Fulfilment) {
    && s in listed && k < |s.rules|
    && A.Served(RequestFor(w.gw, s, w.labels), w.gw.listeners, host)
    && RuleAsks(w.rx, s.kind, s.rules[k], path, meets)
  }

  /** Nothing the route rule demands is lost in the built rule: it is an HTTPRoute's and not flagged, or its paths are
      asked for without further conditions. */
  ghost predicate Enforced(w: Setting, x: Rule<B.Service>, s: Route, k: nat) {
    && k < |s.rules|
    && ((s.kind == HTTP_ROUTE && !x.unsupported) || Unconditional(w.rx, s.kind, s.rules[k]))
  }

  /** The rule was built for a route rule that names the host and path, and that asks for the request if it is
      enforced in full. */
  ghost predicate AskedFor(w: Setting, listed: seq<Route>, resolve: Resolve, x: Rule<B.Service>, host: string,
                           path: string, meets: Fulfilment) {
    exists s, k: nat ::
      && Names(w, listed, s, k, host, path) && BuiltFor(x, s, k, ServiceOf(s, s.rules[k], resolve))
      && (Enforced(w, x, s, k) ==> Asks(w, listed, s, k, host, path, meets))
  }

  /** Completeness: a request some route rule asks for is served by a rule built from it. */
  lemma AskedIsBuilt(w: Setting, listed: seq<Route>, attached: seq<Route>, resolve: Resolve, s: Route, k: nat,
                     host: string, path: string, meets: Fulfilment)
    requires AttachedRoutes(w.gw, listed, w.labels) == Some(attached) && Admitted(listed)
             && ProperListeners(w.gw.listeners)
    requires Asks(w, listed, s, k, host, path, meets)
    ensures exists x <- Built(attached, resolve) :: RuleServes(w.rx, x, host, path)
  {
    hide A.Attach, A.Served, RequestFor, RulePaths, RuleAsks, RuleServes, RulesOf, AttachedRoutes, IsCall;
    AttachedList(w.gw, listed, w.labels, s);
    AsksPaths(w.rx, s.kind, s.rules[k], path, meets);
    AttachedRuleServes(w.rx, w.gw, s, w.labels, k, resolve, host, path);
    var r := AsAttached(w.gw, s, w.labels);
    AttachedList(w.gw, listed, w.labels, r);
    var x :| x in RulesOf(r, k, resolve) && RuleServes(w.rx, x, host, path);
    assert FromRule(r, k, resolve, x);
    BuiltMember(attached, resolve, x);
  }

  /** Soundness: a built rule that serves a receivable request comes from a route rule that names its host and path,
      carries its identity and forwards to its backend; where the rule enforces all of them the request also meets
      the conditions of one of its matches. */
  lemma BuiltIsAsked(w: Setting, listed: seq<Route>, attached: seq<Route>, resolve: Resolve, x: Rule<B.Service>,
                     host: string, path: string, meets: Fulfilment)
    requires AttachedRoutes(w.gw, listed, w.labels) == Some(attached) && Admitted(listed)
             && ProperListeners(w.gw.listeners)
    requires x in Built(attached, resolve) && RuleServes(w.rx, x, host, path)
    requires Receivable(x.routeKind, path) && Admissible(meets)
    ensures AskedFor(w, listed, resolve, x, host, path, meets)
  {
    hide A.Attach, A.Served, RequestFor, RulePaths, RuleAsks, RuleServes, RulesOf, AttachedRoutes, Built, B.ServiceOf,
        IsCall, Unconditional;
    BuiltMember(attached, resolve, x);
    var r, k: nat :| r in attached && FromRule(r, k, resolve, x);
    AttachedList(w.gw, listed, w.labels, r);
    var s :| s in listed && A.Attach(RequestFor(w.gw, s, w.labels)).value.attaches
        && r == AsAttached(w.gw, s, w.labels);
    RulesOfIdentity(r, k, resolve);
    AttachedRuleServes(w.rx, w.gw, s, w.labels, k, resolve, host, path);
    assert SomeServes(w.rx, RulesOf(r, k, resolve), host, path);
    if s.kind == HTTP_ROUTE && !x.unsupported {
      UnflaggedIsAsked(w.rx, r, k, resolve, x, host, path, meets);
    }
    AsksPaths(w.rx, s.kind, s.rules[k], path, meets);
    assert Names(w, listed, s, k, host, path) && BuiltFor(x, s, k, ServiceOf(s, s.rules[k], resolve));
  }

  /** The HTTP, gRPC and TLS routes of the cluster as listed, and those attached to the Gateway. */
  ghost predicate Configured(w: Setting, listed: Routes, rs: Routes) {
    && AttachedFrom(w.gw, listed, w.labels, rs) && ProperListeners(w.gw.listeners)
    && Admitted(listed.http) && Admitted(listed.grpc) && Admitted(listed.tls)
  }

  /** End to end: every request gets an answer. If some HTTPRoute or GRPCRoute rule asks for it, the answer comes
      from the HTTP and gRPC band and no rule serving the request takes precedence over it; an answer from that
      band or the TLS band is justified by a listed route of that kind as above, and forwarded to its own backend. */
  lemma RequestReachesRoute(w: Setting, listed: Routes, rs: Routes, resolve: Resolve, host: string, path: string,
                            meets: Fulfilment)
    requires Configured(w, listed, rs) && Admissible(meets)
    ensures var l7 := Built(rs.http, resolve) + Built(rs.grpc, resolve);
            var x := FirstMatch(IngressOf(rs, resolve), r => RuleServes(w.rx, r, host, path));
            && x.Some? && RuleServes(w.rx, x.value, host, path)
            && ((exists s, k: nat ::
                  Asks(w, listed.http, s, k, host, path, meets) || Asks(w, listed.grpc, s, k, host, path, meets)) ==>
                 x.value in l7 && forall r <- l7 :: RuleServes(w.rx, r, host, path) ==> !MorePrecedent(r, x.value))
            && (x.value in Built(rs.http, resolve) && Receivable(x.value.routeKind, path) ==>
                 AskedFor(w, listed.http, resolve, x.value, host, path, meets))
            && (x.value in Built(rs.grpc, resolve) && Receivable(x.value.routeKind, path) ==>
                 AskedFor(w, listed.grpc, resolve, x.value, host, path, meets))
            && (x.value in Built(rs.tls, resolve) && Receivable(x.value.routeKind, path) ==>
                 AskedFor(w, listed.tls, resolve, x.value, host, path, meets))
  {
    hide MorePrecedent, Built, RuleServes, IngressList, Asks, AskedFor, AttachedRoutes, Admitted, ProperListeners,
        Receivable;
    EveryRequestAnswered(w.rx, rs.http, rs.grpc, rs.tls, rs.tcp, resolve, host, path);
    var x := FirstMatch(IngressOf(rs, resolve), r => RuleServes(w.rx, r, host, path));
    if s, k: nat :| Asks(w, listed.http, s, k, host, path, meets) {
      AskedIsBuilt(w, listed.http, rs.http, resolve, s, k, host, path, meets);
    }
    if s, k: nat :| Asks(w, listed.grpc, s, k, host, path, meets) {
      AskedIsBuilt(w, listed.grpc, rs.grpc, resolve, s, k, host, path, meets);
    }
    if Receivable(x.value.routeKind, path) {
      if x.value in Built(rs.http, resolve) {
        BuiltIsAsked(w, listed.http, rs.http, resolve, x.value, host, path, meets);
      }
      if x.value in Built(rs.grpc, resolve) {
        BuiltIsAsked(w, listed.grpc, rs.grpc, resolve, x.value, host, path, meets);
      }
      if x.value in Built(rs.tls, resolve) {
        BuiltIsAsked(w, listed.tls, rs.tls, resolve, x.value, host, path, meets);
      }
    }
  }
}
