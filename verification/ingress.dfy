/** From routes to the tunnel's rule list, and why "first match wins" is "most specific wins". */
module Ingress {
  import opened Text
  import opened Seqs
  import opened GatewayApi
  import opened Regexp
  import opened Precedence
  import A = Attachment
  import B = Backends
  import opened OriginSettings

  // ----- Matches -----

  datatype BuiltMatch = BuiltMatch(
    path: string, kind: PathKind, litLen: nat, methodMatch: bool, headerCount: nat, queryCount: nat, unsupported: bool)

  const MATCH_ALL := BuiltMatch("", PathNone, 0, false, 0, 0, false)

  /** Fills in pattern and path specificity. */
  function ApplyPathMatch(bm: BuiltMatch, p: Option<PathMatch>): BuiltMatch {
    if p.None? then bm.(kind := PathNone)
    else
      var value := OrElse(p.value.value, "/");
      match OrElse(p.value.kind, MatchType.Prefix)
      case Exact => bm.(path := "^" + QuoteMeta(value) + "$", kind := PathExact, litLen := |value|)
      case Prefix =>
        if value == "/" then bm.(kind := PathNone)
        else
          var prefix := TrimRight(value, '/');
          bm.(path := "^" + QuoteMeta(prefix) + SEGMENT_TAIL, kind := PathPrefix, litLen := |prefix|)
      case RegularExpression => bm.(path := value, kind := PathRegex, litLen := |value|)
      case Unknown => bm
  }

  function BuiltHttp(): HttpMatch -> BuiltMatch {
    (m: HttpMatch) =>
      ApplyPathMatch(
        BuiltMatch("", PathNone, 0, m.also.verb.Some?, |m.also.headers|, |m.also.query|, m.also != NO_CONDITIONS),
        m.path)
  }

  method ExtractMatches(matches: seq<HttpMatch>) returns (out: seq<BuiltMatch>)
    ensures out == HttpMatches(matches)
  {
    if matches == [] {
      return [MATCH_ALL];
    }
    out := [];
    for i := 0 to |matches|
      invariant out == Map(matches[..i], BuiltHttp())
    {
      var m := matches[i];
      var bm := BuiltMatch("", PathNone, 0, m.also.verb.Some?, |m.also.headers|, |m.also.query|, false);
      bm := bm.(unsupported := bm.methodMatch || bm.headerCount > 0 || bm.queryCount > 0);
      out := out + [ApplyPathMatch(bm, m.path)];
    }
    assert matches[..|matches|] == matches;
  }

  function HttpMatches(matches: seq<HttpMatch>): seq<BuiltMatch> {
    if matches == [] then [MATCH_ALL] else Map(matches, BuiltHttp())
  }

  /** Only dots are escaped in gRPC names. */
  function EscapeDots(s: string): string {
    if s == "" then "" else (if s[0] == '.' then "\\." else [s[0]]) + EscapeDots(s[1..])
  }

  /** The pattern of a gRPC method match, "" when there is nothing to match. */
  function GrpcMethodPath(m: Option<GrpcMethod>): string {
    if m.None? then ""
    else
      var svc, meth := OrElse(m.value.service, ""), OrElse(m.value.methodName, "");
      var kind := OrElse(m.value.kind, Exact);
      if svc == "" && meth == "" then ""
      else if kind != Exact && kind != RegularExpression then ""
      else
        var s, t := if kind == Exact then EscapeDots(svc) else svc, if kind == Exact then EscapeDots(meth) else meth;
        if svc != "" && meth != "" then "^/" + s + "/" + t + "$"
        else if svc != "" then "^/" + s + "/"
        else "^.*/" + t + "$"
  }

  /** The headers of the match play no part. */
  function BuiltGrpc(): GrpcMatch -> BuiltMatch {
    (m: GrpcMatch) =>
      var path := GrpcMethodPath(m.call);
      if path == "" then MATCH_ALL else BuiltMatch(path, PathRegex, |path|, true, 0, 0, false)
  }

  function GrpcMatches(matches: seq<GrpcMatch>): seq<BuiltMatch> {
    if matches == [] then [MATCH_ALL] else Map(matches, BuiltGrpc())
  }

  method ExtractGrpcMatches(matches: seq<GrpcMatch>) returns (out: seq<BuiltMatch>)
    ensures out == GrpcMatches(matches)
  {
    hide GrpcMethodPath;
    if matches == [] {
      return [MATCH_ALL];
    }
    out := [];
    for i := 0 to |matches|
      invariant out == Map(matches[..i], BuiltGrpc())
    {
      var bm := MATCH_ALL;
      var path := GrpcMethodPath(matches[i].call);
      if path != "" {
        bm := bm.(path := path, kind := PathRegex, litLen := |path|, methodMatch := true);
      }
      out := out + [bm];
    }
    assert matches[..|matches|] == matches;
  }

  // ----- Rules -----

  function HostnameSpecificity(h: string): (bool, nat) {
    if h == "" then (false, 0) else if h[0] == '*' then (false, |h| - 1) else (true, |h|)
  }

  function Namespace(ns: string): string {
    if ns == "" then "default" else ns
  }

  /** One rule of the fan-out. */
  function RuleFor(route: Route, ri: nat, service: B.Service, host: string): BuiltMatch -> Rule<B.Service> {
    (m: BuiltMatch) =>
      var (exact, length) := HostnameSpecificity(host);
      Rule(host, m.path, service, route.kind, Namespace(route.ns), route.name, route.created, ri,
           Specificity(exact, length, m.kind, m.litLen, m.methodMatch, m.headerCount, m.queryCount), m.unsupported)
  }

  function FanOut(route: Route, ri: nat, service: B.Service, hosts: seq<string>,
                  ms: seq<BuiltMatch>): seq<Rule<B.Service>> {
    if hosts == [] then []
    else FanOut(route, ri, service, hosts[..|hosts| - 1], ms) + Map(ms, RuleFor(route, ri, service, hosts[|hosts| - 1]))
  }

  /** TCPRoutes have no hostnames; any other route without hostnames serves all hosts. */
  function HostsOf(route: Route): seq<string> {
    if route.kind == TCP_ROUTE || route.hostnames == [] then [""] else route.hostnames
  }

  function MatchesOf(route: Route, rule: RouteRule): seq<BuiltMatch> {
    if route.kind == HTTP_ROUTE then HttpMatches(rule.http)
    else if route.kind == GRPC_ROUTE then GrpcMatches(rule.grpc)
    else [MATCH_ALL]
  }

  type Resolve = B.Target -> Option<B.Translated>

  function ServiceOf(route: Route, rule: RouteRule, resolve: Resolve): B.Service {
    B.ServiceOf(Namespace(route.ns), route.kind, rule.refs, resolve).0
  }

  function RulesUpTo(route: Route, n: nat, resolve: Resolve): seq<Rule<B.Service>>
    requires n <= |route.rules|
  {
    if n == 0 then []
    else
      var rule := route.rules[n - 1];
      RulesUpTo(route, n - 1, resolve) + FanOut(route, n - 1, ServiceOf(route, rule, resolve), HostsOf(route),
                                                MatchesOf(route, rule))
  }

  function Built(routes: seq<Route>, resolve: Resolve): seq<Rule<B.Service>> {
    if routes == [] then []
    else var r := routes[|routes| - 1]; Built(routes[..|routes| - 1], resolve) + RulesUpTo(r, |r.rules|, resolve)
  }

  method FanOutRules(route: Route, ri: nat, service: B.Service, hostnames: seq<string>, ms: seq<BuiltMatch>)
    returns (rules: seq<Rule<B.Service>>)
    ensures rules == FanOut(route, ri, service, if hostnames == [] then [""] else hostnames, ms)
  {
    rules := [];
    var hosts := if hostnames == [] then [""] else hostnames;
    for h := 0 to |hosts|
      invariant rules == FanOut(route, ri, service, hosts[..h], ms)
    {
      ghost var before := rules;
      for k := 0 to |ms|
        invariant rules == before + Map(ms[..k], RuleFor(route, ri, service, hosts[h]))
      {
        rules := rules + [RuleFor(route, ri, service, hosts[h])(ms[k])];
        assert Map(ms[..k + 1], RuleFor(route, ri, service, hosts[h])) ==
               Map(ms[..k], RuleFor(route, ri, service, hosts[h])) + [RuleFor(route, ri, service, hosts[h])(ms[k])];
      }
      assert ms[..|ms|] == ms;
      assert hosts[..h + 1][..h] == hosts[..h];
    }
    assert hosts[..|hosts|] == hosts;
  }

  /** The rules of one route. */
  method BuildRoute(route: Route, resolve: Resolve) returns (rules: seq<Rule<B.Service>>)
    ensures rules == RulesUpTo(route, |route.rules|, resolve)
  {
    hide FanOut, ServiceOf, HttpMatches, GrpcMatches;
    rules := [];
    for ri := 0 to |route.rules|
      invariant rules == RulesUpTo(route, ri, resolve)
    {
      var rule := route.rules[ri];
      var matches;
      if route.kind == HTTP_ROUTE {
        matches := ExtractMatches(rule.http);
      } else if route.kind == GRPC_ROUTE {
        matches := ExtractGrpcMatches(rule.grpc);
      } else {
        matches := [MATCH_ALL];
      }
      var fan := FanOutRules(route, ri, ServiceOf(route, rule, resolve),
                             if route.kind == TCP_ROUTE then [] else route.hostnames, matches);
      rules := rules + fan;
    }
  }

  /** The four builders: they differ in scheme, default port, matches and hostnames, all decided by the
      route kind. */
  method BuildIngressRules(routes: seq<Route>, resolve: Resolve) returns (rules: seq<Rule<B.Service>>)
    ensures rules == Built(routes, resolve)
  {
    hide RulesUpTo;
    rules := [];
    for i := 0 to |routes|
      invariant rules == Built(routes[..i], resolve)
    {
      var more := BuildRoute(routes[i], resolve);
      rules := rules + more;
      assert routes[..i + 1][..i] == routes[..i];
    }
    assert routes[..|routes|] == routes;
  }

  const CATCH_ALL: Rule<B.Service> :=
    Rule("", "", B.HttpStatus(404), "", "", "", 0, 0, Specificity(false, 0, PathNone, 0, false, 0, 0), false)

  /** The list pushed to the tunnel: one sorted HTTP and gRPC band, then TLS, then TCP, then the catch-all. */
  function IngressList(http: seq<Route>, grpc: seq<Route>, tls: seq<Route>, tcp: seq<Route>,
                       resolve: Resolve): seq<Rule<B.Service>> {
    StableSort(Built(http, resolve) + Built(grpc, resolve)) + Built(tls, resolve) + Built(tcp, resolve) + [CATCH_ALL]
  }

  method AssembleIngress(http: seq<Route>, grpc: seq<Route>, tls: seq<Route>, tcp: seq<Route>, resolve: Resolve)
    returns (ingress: seq<Rule<B.Service>>)
    ensures ingress == IngressList(http, grpc, tls, tcp, resolve)
  {
    hide Built, StableSort;
    var l7 := BuildIngressRules(http, resolve);
    var grpcRules := BuildIngressRules(grpc, resolve);
    l7 := l7 + grpcRules;
    var a := new Rule<B.Service>[|l7|](i requires 0 <= i < |l7| => l7[i]);
    assert a[..] == l7;
    SortByPrecedence(a);
    var tlsRules := BuildIngressRules(tls, resolve);
    var tcpRules := BuildIngressRules(tcp, resolve);
    ingress := a[..] + tlsRules + tcpRules + [CATCH_ALL];
  }

  // ----- What a rule matches -----

  /** Patterns outside the modelled fragment are left to `rx`. */
  ghost predicate PathServes(rx: (string, string) -> bool, pattern: string, path: string) {
    if pattern == "" then true
    else if Compile(pattern).Some? then Found(Compile(pattern).value, path)
    else rx(pattern, path)
  }

  predicate HostServes(hostname: string, host: string) {
    hostname == "" || A.InHost(host, hostname)
  }

  ghost predicate RuleServes(rx: (string, string) -> bool, r: Rule<B.Service>, host: string, path: string) {
    HostServes(r.hostname, host) && PathServes(rx, r.path, path)
  }

  /** A literal path match: every path, one path, or a path and everything below it. */
  datatype PathSet = All | Only(v: string) | Below(p: string)

  predicate InPathSet(s: PathSet, path: string) {
    match s
    case All => true
    case Only(v) => path == v
    case Below(p) => UnderPrefix(p, path)
  }

  function PatternOf(s: PathSet): string {
    match s
    case All => ""
    case Only(v) => "^" + QuoteMeta(v) + "$"
    case Below(p) => "^" + QuoteMeta(p) + SEGMENT_TAIL
  }

  function KindOf(s: PathSet): PathKind {
    match s case All => PathNone case Only(_) => PathExact case Below(_) => PathPrefix
  }

  function LengthOf(s: PathSet): nat {
    match s case All => 0 case Only(v) => |v| case Below(p) => |p|
  }

  /** The pattern pushed to Cloudflare matches exactly the paths the route asked for. */
  lemma PatternDenotes(rx: (string, string) -> bool, s: PathSet, path: string)
    ensures PathServes(rx, PatternOf(s), path) <==> InPathSet(s, path)
  {
    hide Compile, QuoteMeta, UnderPrefix, Found;
    match s
    case All =>
    case Only(v) => ExactPattern(v, path);
    case Below(p) => PrefixPattern(p, path);
  }

  /** The paths a literal HTTPRoute match stands for. */
  function PathSetOf(p: Option<PathMatch>): PathSet {
    if p.None? then All
    else
      var value := OrElse(p.value.value, "/");
      match OrElse(p.value.kind, MatchType.Prefix)
      case Exact => Only(value)
      case Prefix => if value == "/" then All else Below(TrimRight(value, '/'))
      case RegularExpression => All
      case Unknown => All
  }

  predicate IsRegex(p: Option<PathMatch>) {
    p.Some? && OrElse(p.value.kind, MatchType.Prefix) == RegularExpression
  }

  /** Path compilation is correct: for every match that is not a regular expression, the emitted rule
      serves exactly the requested paths. */
  lemma PathCompilation(rx: (string, string) -> bool, m: HttpMatch, path: string)
    requires !IsRegex(m.path)
    ensures var b := BuiltHttp()(m);
            && (PathServes(rx, b.path, path) <==> InPathSet(PathSetOf(m.path), path))
            && b.path == PatternOf(PathSetOf(m.path)) && b.kind == KindOf(PathSetOf(m.path))
                && b.litLen == LengthOf(PathSetOf(m.path))
  {
    hide PathServes, QuoteMeta, TrimRight, InPathSet;
    PatternDenotes(rx, PathSetOf(m.path), path);
  }

  // ----- No shadowing -----

  /** A rule whose specificity is that of its hostname and of a literal path set. */
  ghost predicate LiteralRule(r: Rule<B.Service>, s: PathSet) {
    && (r.specificity.hostnameExact, r.specificity.hostnameLen) == HostnameSpecificity(r.hostname)
    && r.path == PatternOf(s) && r.specificity.pathKind == KindOf(s) && r.specificity.prefixLen == LengthOf(s)
  }

  /** Empty, concrete, or a wildcard in front of a name. */
  predicate ValidHostname(h: string) {
    h == "" || h[0] != '*' || (A.IsWildcard(h) && |h| > 2)
  }

  ghost predicate HostSubset(a: string, b: string) {
    forall x :: HostServes(a, x) ==> HostServes(b, x)
  }

  ghost predicate PathSubset(a: PathSet, b: PathSet) {
    forall x :: InPathSet(a, x) ==> InPathSet(b, x)
  }

  lemma AllHostsNotWithin(b: string)
    requires b != ""
    ensures !HostSubset("", b)
  {
    var x := if A.IsWildcard(b) then "" else b + "x";
    assert HostServes("", x) && !HostServes(b, x);
  }

  lemma WildcardNotWithinExact(a: string, b: string)
    requires A.IsWildcard(a) && b != "" && !A.IsWildcard(b)
    ensures !HostSubset(a, b)
  {
    var t := A.Tail(a);
    var u := "x" + t;
    assert u[1..] == t && |u| == |t| + 1;
    assert HostServes(a, t) && HostServes(a, u);
    assert !HostServes(b, t) || !HostServes(b, u);
  }

  lemma WildcardWithinWildcard(a: string, b: string)
    requires A.IsWildcard(a) && A.IsWildcard(b) && HostSubset(a, b)
    ensures a == b || |a| > |b|
  {
    var u := A.Tail(a);
    assert HostServes(a, u) && HostServes(b, u);
    if |a| <= |b| {
      assert a == "*" + u && b == "*" + A.Tail(b);
    }
  }

  lemma ExactWithin(a: string, b: string)
    requires a != "" && !A.IsWildcard(a) && HostSubset(a, b)
    ensures HostServes(b, a)
  {
  }

  /** A smaller host set is an equal hostname or a more specific one. */
  lemma HostSubsetOrder(a: string, b: string)
    requires ValidHostname(a) && ValidHostname(b) && HostSubset(a, b) && a != b
    ensures var (ae, al) := HostnameSpecificity(a);
            var (be, bl) := HostnameSpecificity(b);
            (ae && !be) || (ae == be && al > bl)
  {
    hide HostSubset;
    if b != "" {
      AllHostsNotWithin(b);
      if A.IsWildcard(a) {
        if A.IsWildcard(b) {
          WildcardWithinWildcard(a, b);
        } else {
          WildcardNotWithinExact(a, b);
        }
      } else if a != "" {
        ExactWithin(a, b);
      }
    }
  }

  lemma AllNotWithinOnly(v: string)
    ensures !PathSubset(All, Only(v))
  {
    assert InPathSet(All, v + "x") && !InPathSet(Only(v), v + "x");
  }

  lemma BelowNotWithinOnly(p: string, v: string)
    ensures !PathSubset(Below(p), Only(v))
  {
    assert |p + "/"| == |p| + 1;
    assert InPathSet(Below(p), p) && InPathSet(Below(p), p + "/");
    assert !InPathSet(Only(v), p) || !InPathSet(Only(v), p + "/");
  }

  lemma AllNotWithinBelow(q: string)
    ensures !PathSubset(All, Below(q))
  {
    assert (q + "x")[|q|] == 'x' && (q + "/")[|q|] == '/';
    assert InPathSet(All, q + "x") && !InPathSet(Below(q), q + "x");
  }

  lemma BelowWithinBelow(p: string, q: string)
    requires PathSubset(Below(p), Below(q))
    ensures p == q || |p| > |q|
  {
    assert InPathSet(Below(p), p) && InPathSet(Below(q), p);
  }

  lemma OnlyWithinOnly(u: string, v: string)
    requires PathSubset(Only(u), Only(v))
    ensures u == v
  {
    assert InPathSet(Only(u), u) && InPathSet(Only(v), u);
  }

  /** A smaller literal path set is an equal one or ranks higher. */
  lemma PathSubsetOrder(a: PathSet, b: PathSet)
    requires PathSubset(a, b) && a != b
    ensures KindOf(a).Rank() > KindOf(b).Rank() || (KindOf(a) == KindOf(b) && LengthOf(a) > LengthOf(b))
  {
    hide PathSubset;
    match (a, b)
    case (All, Only(v)) => AllNotWithinOnly(v);
    case (All, Below(q)) => AllNotWithinBelow(q);
    case (Below(p), Only(v)) => BelowNotWithinOnly(p, v);
    case (Below(p), Below(q)) => BelowWithinBelow(p, q);
    case (Only(u), Only(v)) => OnlyWithinOnly(u, v);
    case _ =>
  }

  /** Some request distinguishes the two rules: `b` serves it, `a` does not. */
  ghost predicate StrictlyNarrower(rx: (string, string) -> bool, a: Rule<B.Service>, b: Rule<B.Service>) {
    && (forall host, path :: RuleServes(rx, a, host, path) ==> RuleServes(rx, b, host, path))
    && exists host, path :: RuleServes(rx, b, host, path) && !RuleServes(rx, a, host, path)
  }

  lemma PathInhabited(s: PathSet) returns (path: string)
    ensures InPathSet(s, path)
  {
    path := match s case All => "" case Only(v) => v case Below(p) => p;
  }

  /** A rule that serves strictly less than another takes precedence over it. */
  lemma NarrowerIsMorePrecedent(rx: (string, string) -> bool, a: Rule<B.Service>, sa: PathSet, b: Rule<B.Service>,
                                sb: PathSet)
    requires LiteralRule(a, sa) && LiteralRule(b, sb) && ValidHostname(a.hostname) && ValidHostname(b.hostname)
    requires StrictlyNarrower(rx, a, b)
    ensures MorePrecedent(a, b)
  {
    hide PathServes, InPathSet, PatternOf;
    forall path
      ensures (PathServes(rx, a.path, path) <==> InPathSet(sa, path))
              && (PathServes(rx, b.path, path) <==> InPathSet(sb, path))
    {
      PatternDenotes(rx, sa, path);
      PatternDenotes(rx, sb, path);
    }
    var p := PathInhabited(sa);
    var h := A.HostInhabited(a.hostname);
    forall x | HostServes(a.hostname, x) ensures HostServes(b.hostname, x) {
      assert RuleServes(rx, a, x, p);
    }
    forall x | InPathSet(sa, x) ensures InPathSet(sb, x) {
      assert RuleServes(rx, a, h, x);
    }
    if a.hostname != b.hostname {
      HostSubsetOrder(a.hostname, b.hostname);
    } else if sa != sb {
      PathSubsetOrder(sa, sb);
    }
  }

  // ----- The whole list -----

  /** Every request is answered, and by the best match of the HTTP and gRPC rules whenever one of them
      matches at all: the most precedent, and among ties the earliest built. */
  lemma FirstMatchIsTotal(http: seq<Route>, grpc: seq<Route>, tls: seq<Route>, tcp: seq<Route>, resolve: Resolve,
                          m: Rule<B.Service> -> bool)
    requires m(CATCH_ALL)
    ensures var l7 := Built(http, resolve) + Built(grpc, resolve);
            var rest := Built(tls, resolve) + Built(tcp, resolve);
            var w := FirstMatch(IngressList(http, grpc, tls, tcp, resolve), m);
            && w.Some?
            && w == (if BestMatch(l7, m).Some? then BestMatch(l7, m)
                     else if FirstMatch(rest, m).Some? then FirstMatch(rest, m) else Some(CATCH_ALL))
  {
    hide MorePrecedent, Built, StableSort, FirstMatch, BestMatch;
    var l7 := Built(http, resolve) + Built(grpc, resolve);
    var s, t, u := StableSort(l7), Built(tls, resolve), Built(tcp, resolve);
    FirstMatchIsBestMatch(l7, m);
    FirstMatchConcat(s, t + u, m);
    FirstMatchConcat(s + (t + u), [CATCH_ALL], m);
    assert s + t + u + [CATCH_ALL] == s + (t + u) + [CATCH_ALL];
    LastResort(m);
  }

  lemma LastResort(m: Rule<B.Service> -> bool)
    requires m(CATCH_ALL)
    ensures FirstMatch([CATCH_ALL], m) == Some(CATCH_ALL)
  {
  }

  /** In terms of requests: whatever the host and path, some rule answers, and the answer is the best
      match among the rules that serve the request. */
  lemma EveryRequestAnswered(rx: (string, string) -> bool, http: seq<Route>, grpc: seq<Route>, tls: seq<Route>,
                             tcp: seq<Route>,
                             resolve: Resolve, host: string, path: string)
    ensures var m := r => RuleServes(rx, r, host, path);
            var l7 := Built(http, resolve) + Built(grpc, resolve);
            var w := FirstMatch(IngressList(http, grpc, tls, tcp, resolve), m);
            && w.Some? && RuleServes(rx, w.value, host, path)
            && ((exists r <- l7 :: RuleServes(rx, r, host, path)) ==>
                 w.value in l7 && forall r <- l7 :: RuleServes(rx, r, host, path) ==> !MorePrecedent(r, w.value))
  {
    hide MorePrecedent, Built, RuleServes, IngressList;
    var m := r => RuleServes(rx, r, host, path);
    var l7 := Built(http, resolve) + Built(grpc, resolve);
    assert m(CATCH_ALL) by { CatchAllServes(rx, host, path); }
    FirstMatchIsTotal(http, grpc, tls, tcp, resolve, m);
    BestMatchMeaning(l7, m);
    FirstMatchIndex(Built(tls, resolve) + Built(tcp, resolve), m);
  }

  /** A request no rule of any route serves is answered with 404. */
  lemma UnmatchedIs404(rx: (string, string) -> bool, http: seq<Route>, grpc: seq<Route>, tls: seq<Route>,
                       tcp: seq<Route>, resolve: Resolve, host: string, path: string)
    requires forall r <- Built(http, resolve) + Built(grpc, resolve) + Built(tls, resolve) + Built(tcp, resolve) ::
               !RuleServes(rx, r, host, path)
    ensures var w := FirstMatch(IngressList(http, grpc, tls, tcp, resolve), r => RuleServes(rx, r, host, path));
            w.Some? && w.value.service == B.HttpStatus(404)
  {
    hide MorePrecedent, Built, RuleServes, IngressList, StableSort;
    var m := r => RuleServes(rx, r, host, path);
    assert m(CATCH_ALL) by { CatchAllServes(rx, host, path); }
    var l7, rest := Built(http, resolve) + Built(grpc, resolve), Built(tls, resolve) + Built(tcp, resolve);
    FirstMatchIsTotal(http, grpc, tls, tcp, resolve, m);
    BestMatchMeaning(l7, m);
    FirstMatchIndex(rest, m);
    assert forall r <- l7 :: !m(r);
    assert forall r <- rest :: !m(r);
  }

  lemma CatchAllServes(rx: (string, string) -> bool, host: string, path: string)
    ensures RuleServes(rx, CATCH_ALL, host, path)
  {
  }

  // ----- The rules of a route rule -----

  predicate RouteHosts(route: Route, host: string) {
    exists h <- HostsOf(route) :: HostServes(h, host)
  }

  lemma EmptyPatternServes(rx: (string, string) -> bool, path: string)
    ensures PathServes(rx, "", path)
  {
  }

  ghost predicate SomeServes(rx: (string, string) -> bool, rs: seq<Rule<B.Service>>, host: string, path: string) {
    exists r <- rs :: RuleServes(rx, r, host, path)
  }

  ghost predicate SomePath(rx: (string, string) -> bool, ms: seq<BuiltMatch>, path: string) {
    exists m <- ms :: PathServes(rx, m.path, path)
  }

  /** The rule carries the identity of the route rule it was built for: policies attach and ties break by it. */
  predicate BuiltFor(r: Rule<B.Service>, route: Route, k: nat, service: B.Service) {
    && r.service == service && r.ruleIndex == k && r.created == route.created
    && r.routeKind == route.kind && r.routeNs == Namespace(route.ns) && r.routeName == route.name
  }

  /** The fan-out serves the product of its hosts and its matches. */
  lemma {:induction false} FanOutServes(rx: (string, string) -> bool, route: Route, ri: nat, service: B.Service,
                                        hosts: seq<string>, ms: seq<BuiltMatch>,
                                        host: string, path: string)
    ensures SomeServes(rx, FanOut(route, ri, service, hosts, ms), host, path) <==>
            (exists h <- hosts :: HostServes(h, host)) && SomePath(rx, ms, path)
    ensures forall r <- FanOut(route, ri, service, hosts, ms) :: BuiltFor(r, route, ri, service)
  {
    hide PathServes, HostServes;
    if hosts != [] {
      var front, h := hosts[..|hosts| - 1], hosts[|hosts| - 1];
      assert hosts == front + [h] && h in hosts;
      FanOutServes(rx, route, ri, service, front, ms, host, path);
      OneHostServes(rx, route, ri, service, h, ms, host, path);
      var a, b := FanOut(route, ri, service, front, ms), Map(ms, RuleFor(route, ri, service, h));
      assert SomeServes(rx, a + b, host, path) <==> SomeServes(rx, a, host, path) || SomeServes(rx, b, host, path);
    }
  }

  lemma OneHostServes(rx: (string, string) -> bool, route: Route, ri: nat, service: B.Service, h: string,
                      ms: seq<BuiltMatch>, host: string, path: string)
    ensures SomeServes(rx, Map(ms, RuleFor(route, ri, service, h)), host, path) <==>
            HostServes(h, host) && SomePath(rx, ms, path)
    ensures forall r <- Map(ms, RuleFor(route, ri, service, h)) :: BuiltFor(r, route, ri, service)
  {
    hide PathServes, HostServes;
    var rs := Map(ms, RuleFor(route, ri, service, h));
    if r :| r in rs && RuleServes(rx, r, host, path) {
      var k :| 0 <= k < |rs| && rs[k] == r;
      assert ms[k] in ms;
    }
    if HostServes(h, host) && SomePath(rx, ms, path) {
      var m :| m in ms && PathServes(rx, m.path, path);
      var k :| 0 <= k < |ms| && ms[k] == m;
      assert rs[k] in rs && RuleServes(rx, rs[k], host, path);
    }
  }

  /** The rules built from one route rule. */
  function RulesOf(route: Route, k: nat, resolve: Resolve): seq<Rule<B.Service>>
    requires k < |route.rules|
  {
    FanOut(route, k, ServiceOf(route, route.rules[k], resolve), HostsOf(route), MatchesOf(route, route.rules[k]))
  }

  lemma RulesOfIdentity(route: Route, k: nat, resolve: Resolve)
    requires k < |route.rules|
    ensures forall r <- RulesOf(route, k, resolve) :: BuiltFor(r, route, k, ServiceOf(route, route.rules[k], resolve))
  {
    hide FanOut, ServiceOf, HostsOf, MatchesOf;
    var rule := route.rules[k];
    FanOutServes((p, q) => true, route, k, ServiceOf(route, rule, resolve), HostsOf(route), MatchesOf(route, rule), "",
                 "");
  }

  /** A route's rules are those of its route rules, and nothing else. */
  lemma {:induction false} RulesUpToMember(route: Route, n: nat, resolve: Resolve, r: Rule<B.Service>)
    requires n <= |route.rules|
    ensures r in RulesUpTo(route, n, resolve) <==> exists k :: 0 <= k < n && r in RulesOf(route, k, resolve)
  {
    hide FanOut, ServiceOf, HostsOf, MatchesOf;
    if n > 0 {
      RulesUpToMember(route, n - 1, resolve, r);
      assert RulesUpTo(route, n, resolve) == RulesUpTo(route, n - 1, resolve) + RulesOf(route, n - 1, resolve);
    }
  }
}
