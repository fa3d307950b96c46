/** Which routes status reports as served without all of their conditions. */
module Unsupported {
  import opened Text
  import opened GatewayApi
  import opened Precedence
  import opened Ingress
  import opened Grpc
  import opened Compilation
  import opened Serving
  import opened Policies
  import opened Shadowing
  import A = Attachment
  import B = Backends

  ghost predicate Reported<S>(rules: seq<Rule<S>>, key: string) {
    exists r <- rules :: r.unsupported && key == TargetKey(r.routeKind, r.routeName)
  }

  /** The kind and name of every route with a flagged rule. */
  method CollectUnsupportedMatchRoutes<S>(rules: seq<Rule<S>>) returns (out: set<string>)
    ensures forall key :: key in out <==> Reported(rules, key)
  {
    hide TargetKey;
    out := {};
    for i := 0 to |rules|
      invariant forall key :: key in out <==> Reported(rules[..i], key)
    {
      assert rules[..i + 1] == rules[..i] + [rules[i]];
      if rules[i].unsupported {
        out := out + {TargetKey(rules[i].routeKind, rules[i].routeName)};
      }
    }
    assert rules[..|rules|] == rules;
  }

  /** Some rule of the HTTPRoute has a match with a method, header or query parameter. */
  ghost predicate RouteHasConditions(r: Route) {
    exists k :: 0 <= k < |r.rules| && HasConditions(HTTP_ROUTE, r.rules[k])
  }

  lemma FlaggedBuilt(routes: seq<Route>, resolve: Resolve, kind: string, name: string)
    requires forall r <- routes :: r.kind == kind
    ensures (exists x <- Built(routes, resolve) :: x.unsupported && x.routeName == name) <==>
            kind == HTTP_ROUTE && exists r <- routes :: r.name == name && RouteHasConditions(r)
    ensures forall x <- Built(routes, resolve) :: x.routeKind == kind
  {
    hide RulesOf, Built, HasConditions, ServiceOf;
    forall x | x in Built(routes, resolve)
      ensures x.routeKind == kind
      ensures x.unsupported && x.routeName == name ==>
                kind == HTTP_ROUTE && exists r <- routes :: r.name == name && RouteHasConditions(r)
    {
      BuiltMember(routes, resolve, x);
      var r, k: nat :| r in routes && FromRule(r, k, resolve, x);
      RulesOfIdentity(r, k, resolve);
      FlaggedIff(r, k, resolve);
    }
    if r :| kind == HTTP_ROUTE && r in routes && r.name == name && RouteHasConditions(r) {
      var k :| 0 <= k < |r.rules| && HasConditions(HTTP_ROUTE, r.rules[k]);
      FlaggedIff(r, k, resolve);
      var x :| x in RulesOf(r, k, resolve) && x.unsupported;
      RulesOfIdentity(r, k, resolve);
      assert FromRule(r, k, resolve, x);
      BuiltMember(routes, resolve, x);
    }
  }

  lemma BandElements(http: seq<Route>, grpc: seq<Route>, resolve: Resolve, x: Rule<B.Service>)
    ensures x in Band(http, grpc, resolve) <==> x in Built(http, resolve) + Built(grpc, resolve)
  {
    hide StableSort, Built;
    var built := Built(http, resolve) + Built(grpc, resolve);
    SortFacts(built);
    assert x in StableSort(built) <==> x in multiset(StableSort(built));
    assert x in built <==> x in multiset(built);
  }

  /** After the sort, an HTTPRoute is reported exactly when some attached HTTPRoute of its name, in whichever
      Namespace, has a match with a method, header or query parameter; a GRPCRoute never is. */
  lemma ReportedIff(http: seq<Route>, grpc: seq<Route>, resolve: Resolve, name: string)
    requires (forall r <- http :: r.kind == HTTP_ROUTE) && forall r <- grpc :: r.kind == GRPC_ROUTE
    ensures Reported(Band(http, grpc, resolve), TargetKey(HTTP_ROUTE, name)) <==>
            exists r <- http :: r.name == name && RouteHasConditions(r)
    ensures !Reported(Band(http, grpc, resolve), TargetKey(GRPC_ROUTE, name))
  {
    hide Band, Built, TargetKey, RouteHasConditions;
    var band := Band(http, grpc, resolve);
    FlaggedBuilt(http, resolve, HTTP_ROUTE, name);
    FlaggedBuilt(grpc, resolve, GRPC_ROUTE, name);
    forall x ensures x in band <==> x in Built(http, resolve) || x in Built(grpc, resolve) {
      BandElements(http, grpc, resolve, x);
    }
    forall x | x in band && x.unsupported
      ensures x.routeKind == HTTP_ROUTE
      ensures TargetKey(HTTP_ROUTE, name) == TargetKey(x.routeKind, x.routeName) ==> x.routeName == name
      ensures TargetKey(GRPC_ROUTE, name) != TargetKey(x.routeKind, x.routeName)
    {
      NeverFlagged(grpc, resolve, x);
      SameKey(HTTP_ROUTE, name, x.routeName);
      OtherKey(GRPC_ROUTE, name, HTTP_ROUTE, x.routeName);
    }
  }

  lemma NeverFlagged(grpc: seq<Route>, resolve: Resolve, x: Rule<B.Service>)
    requires forall r <- grpc :: r.kind == GRPC_ROUTE
    ensures x in Built(grpc, resolve) ==> !x.unsupported
  {
    hide Built;
    FlaggedBuilt(grpc, resolve, GRPC_ROUTE, x.routeName);
  }

  lemma SameKey(kind: string, a: string, b: string)
    requires kind == HTTP_ROUTE
    ensures TargetKey(kind, a) == TargetKey(kind, b) ==> a == b
  {
    hide TargetKey;
    if TargetKey(kind, a) == TargetKey(kind, b) {
      TargetKeyInjective(kind, a, kind, b);
    }
  }

  lemma OtherKey(k1: string, n1: string, k2: string, n2: string)
    requires k1 == GRPC_ROUTE && k2 == HTTP_ROUTE
    ensures TargetKey(k1, n1) != TargetKey(k2, n2)
  {
    hide TargetKey;
    if TargetKey(k1, n1) == TargetKey(k2, n2) {
      TargetKeyInjective(k1, n1, k2, n2);
    }
  }

  /** The report on an attached HTTPRoute is about the route itself exactly unless it has no such match and one of
      its name in another Namespace does. */
  lemma ReportIsOwnIff(http: seq<Route>, grpc: seq<Route>, resolve: Resolve, route: Route)
    requires (forall r <- http :: r.kind == HTTP_ROUTE) && forall r <- grpc :: r.kind == GRPC_ROUTE
    requires route in http && forall r <- http :: r.name == route.name && r.ns == route.ns ==> r == route
    ensures (Reported(Band(http, grpc, resolve), TargetKey(HTTP_ROUTE, route.name)) <==> RouteHasConditions(route)) <==>
            RouteHasConditions(route)
            || forall r <- http :: r.name == route.name && r.ns != route.ns ==> !RouteHasConditions(r)
  {
    hide Band, TargetKey, RouteHasConditions;
    ReportedIff(http, grpc, resolve, route.name);
  }

  /** No false comfort: the rules of an HTTPRoute whose name is not reported serve exactly what they ask for, with all
      conditions. */
  lemma UnreportedIsExact(rx: (string, string) -> bool, http: seq<Route>, grpc: seq<Route>, resolve: Resolve,
                          route: Route, k: nat)
    requires (forall r <- http :: r.kind == HTTP_ROUTE) && forall r <- grpc :: r.kind == GRPC_ROUTE
    requires route in http && k < |route.rules|
    requires !Reported(Band(http, grpc, resolve), TargetKey(HTTP_ROUTE, route.name))
    ensures ServesAsked(rx, route, k, resolve)
  {
    hide Band, TargetKey, HasConditions, ServesAsked, Unconditional, RulePaths, RuleAsks;
    ReportedIff(http, grpc, resolve, route.name);
    assert !HasConditions(HTTP_ROUTE, route.rules[k]);
    AsksPaths(rx, HTTP_ROUTE, route.rules[k], "", Bare());
    RouteIsExactIff(rx, route, k, resolve);
  }
}
