/** How the conditions Cloudflare does not enforce still rank HTTPRoute matches, from the match to its place in the
    pushed list. */
module Ranking {
  import opened Text
  import opened GatewayApi
  import opened Precedence
  import opened Ingress
  import opened Grpc
  import opened Compilation
  import opened Serving
  import opened Shadowing
  import opened Unsupported
  import B = Backends

  /** Match m of rule k of an attached HTTPRoute, on one of its hostnames. */
  datatype Place = Place(route: Route, k: nat, m: HttpMatch, host: string) {
    ghost predicate In(http: seq<Route>) {
      && route in http && route.kind == HTTP_ROUTE && k < |route.rules| && m in route.rules[k].http
      && host in HostsOf(route)
    }

    function Compiled(resolve: Resolve): Rule<B.Service>
      requires k < |route.rules|
    {
      RuleFor(route, k, ServiceOf(route, route.rules[k], resolve), host)(BuiltHttp()(m))
    }
  }

  /** With hostname and path the same, the order is decided by the match itself: a method before none, then more
      headers, then more query parameters; after that by the route's age, Namespace and name, and the rule's index. */
  lemma SamePathOrder(a: Place, b: Place, resolve: Resolve)
    requires a.k < |a.route.rules| && b.k < |b.route.rules| && a.host == b.host && a.m.path == b.m.path
    ensures var x, y, r, s := a.m.also, b.m.also, a.route, b.route;
            MorePrecedent(a.Compiled(resolve), b.Compiled(resolve)) <==>
            if x.verb.Some? != y.verb.Some? then x.verb.Some?
            else if |x.headers| != |y.headers| then |x.headers| > |y.headers|
            else if |x.query| != |y.query| then |x.query| > |y.query|
            else if r.created != s.created then r.created < s.created
            else if Namespace(r.ns) != Namespace(s.ns) then Less(Namespace(r.ns), Namespace(s.ns))
            else if r.name != s.name then Less(r.name, s.name)
            else a.k < b.k
  {
    hide ServiceOf, Less;
    SamePathKeys(a.m, b.m);
  }

  lemma SamePathKeys(m: HttpMatch, n: HttpMatch)
    requires m.path == n.path
    ensures var b, c := BuiltHttp()(m), BuiltHttp()(n);
            b.kind == c.kind && b.litLen == c.litLen
            && b.methodMatch == m.also.verb.Some? && b.headerCount == |m.also.headers| && b.queryCount == |m.also.query|
            && c.methodMatch == n.also.verb.Some? && c.headerCount == |n.also.headers| && c.queryCount == |n.also.query|
  {
  }

  /** Every match of an attached HTTPRoute has its rule in the sorted band. */
  lemma PlaceInBand(http: seq<Route>, grpc: seq<Route>, resolve: Resolve, a: Place) returns (i: nat)
    requires a.In(http)
    ensures i < |Band(http, grpc, resolve)| && Band(http, grpc, resolve)[i] == a.Compiled(resolve)
  {
    hide ServiceOf, Band, BuiltHttp, Built;
    var r, rule := a.route, a.route.rules[a.k];
    var ms := MatchesOf(r, rule);
    var j :| 0 <= j < |rule.http| && rule.http[j] == a.m;
    assert ms[j] == BuiltHttp()(a.m);
    FanOutHas(r, a.k, ServiceOf(r, rule, resolve), HostsOf(r), ms, a.host, j);
    assert FromRule(r, a.k, resolve, a.Compiled(resolve));
    BuiltMember(http, resolve, a.Compiled(resolve));
    BandElements(http, grpc, resolve, a.Compiled(resolve));
    i :| 0 <= i < |Band(http, grpc, resolve)| && Band(http, grpc, resolve)[i] == a.Compiled(resolve);
  }

  /** The match demands more: a method where the other has none, else more headers, else more query parameters. */
  predicate DemandsMore(x: Conditions, y: Conditions) {
    || (x.verb.Some? && y.verb.None?)
    || (x.verb.Some? == y.verb.Some? && |x.headers| > |y.headers|)
    || (x.verb.Some? == y.verb.Some? && |x.headers| == |y.headers| && |x.query| > |y.query|)
  }

  /** In the sorted band, of two HTTPRoute matches with the same hostname and path the one that demands more comes
      first: both are there, and wherever they are, in that order. */
  lemma RicherMatchFirst(http: seq<Route>, grpc: seq<Route>, resolve: Resolve, a: Place, b: Place)
    requires a.In(http) && b.In(http) && a.host == b.host && a.m.path == b.m.path && DemandsMore(a.m.also, b.m.also)
    ensures var band := Band(http, grpc, resolve);
            && a.Compiled(resolve) in band && b.Compiled(resolve) in band
            && forall i, j | 0 <= i < |band| && 0 <= j < |band|
                 && band[i] == a.Compiled(resolve) && band[j] == b.Compiled(resolve) :: i < j
  {
    hide ServiceOf, Band, BuiltHttp, Less, MorePrecedent, RuleFor;
    var i0 := PlaceInBand(http, grpc, resolve, a);
    var j0 := PlaceInBand(http, grpc, resolve, b);
    SamePathOrder(a, b, resolve);
    var band := Band(http, grpc, resolve);
    forall i, j | 0 <= i < |band| && 0 <= j < |band| && band[i] == a.Compiled(resolve) && band[j] == b.Compiled(resolve)
      ensures i < j
    {
      BandOrder(http, grpc, resolve, i, j);
    }
  }
}
