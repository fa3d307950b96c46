/** Which rules can keep a narrower one from answering: never literal ones, and exactly when the others do. */
module Shadowing {
  import opened Text
  import opened Seqs
  import opened GatewayApi
  import opened Regexp
  import opened Precedence
  import opened Ingress
  import opened Grpc
  import A = Attachment
  import B = Backends

  // ----- The band as built -----

  ghost predicate OwnHostname(r: Rule<B.Service>) {
    (r.specificity.hostnameExact, r.specificity.hostnameLen) == HostnameSpecificity(r.hostname)
  }

  /** Its hostname is valid and its path a regular expression or a literal path set. */
  ghost predicate FromL7(r: Rule<B.Service>) {
    ValidHostname(r.hostname) && OwnHostname(r)
        && (r.specificity.pathKind == PathRegex || exists s :: LiteralRule(r, s))
  }

  ghost predicate L7Routes(routes: seq<Route>) {
    forall r <- routes :: (r.kind == HTTP_ROUTE || r.kind == GRPC_ROUTE) && forall h <- r.hostnames :: ValidHostname(h)
  }

  lemma RuleFromL7(route: Route, ri: nat, service: B.Service, host: string, rule: RouteRule, k: nat)
    requires (route.kind == HTTP_ROUTE || route.kind == GRPC_ROUTE) && ValidHostname(host)
             && k < |MatchesOf(route, rule)|
    ensures FromL7(RuleFor(route, ri, service, host)(MatchesOf(route, rule)[k]))
  {
    hide QuoteMeta, TrimRight, GrpcMethodPath;
    var r := RuleFor(route, ri, service, host)(MatchesOf(route, rule)[k]);
    if r.specificity.pathKind == PathRegex {
    } else if route.kind == HTTP_ROUTE && rule.http != [] {
      PathCompilation((p, s) => true, rule.http[k], "");
      assert LiteralRule(r, PathSetOf(rule.http[k].path));
    } else {
      assert LiteralRule(r, All);
    }
  }

  lemma {:induction false} FanOutFromL7(route: Route, ri: nat, service: B.Service, hosts: seq<string>, rule: RouteRule)
    requires (route.kind == HTTP_ROUTE || route.kind == GRPC_ROUTE) && forall h <- hosts :: ValidHostname(h)
    ensures forall r <- FanOut(route, ri, service, hosts, MatchesOf(route, rule)) :: FromL7(r)
  {
    hide MatchesOf, FromL7;
    if hosts != [] {
      var front, host := hosts[..|hosts| - 1], hosts[|hosts| - 1];
      assert hosts == front + [host] && host in hosts;
      FanOutFromL7(route, ri, service, front, rule);
      var last := Map(MatchesOf(route, rule), RuleFor(route, ri, service, host));
      forall k | 0 <= k < |last| ensures FromL7(last[k]) {
        RuleFromL7(route, ri, service, host, rule, k);
      }
    }
  }

  lemma {:induction false} RulesFromL7(route: Route, n: nat, resolve: Resolve)
    requires L7Routes([route]) && n <= |route.rules|
    ensures forall r <- RulesUpTo(route, n, resolve) :: FromL7(r)
  {
    hide MatchesOf, ServiceOf, FromL7, FanOut;
    if n > 0 {
      RulesFromL7(route, n - 1, resolve);
      var rule := route.rules[n - 1];
      assert route in [route];
      FanOutFromL7(route, n - 1, ServiceOf(route, rule, resolve), HostsOf(route), rule);
    }
  }

  lemma {:induction false} BuiltFromL7(routes: seq<Route>, resolve: Resolve)
    requires L7Routes(routes)
    ensures forall r <- Built(routes, resolve) :: FromL7(r)
  {
    hide RulesUpTo, FromL7, ValidHostname;
    if routes != [] {
      var front, r := routes[..|routes| - 1], routes[|routes| - 1];
      assert routes == front + [r] && r in routes;
      BuiltFromL7(front, resolve);
      RulesFromL7(r, |r.rules|, resolve);
    }
  }

  /** The sorted HTTP and gRPC band. */
  function Band(http: seq<Route>, grpc: seq<Route>, resolve: Resolve): seq<Rule<B.Service>> {
    StableSort(Built(http, resolve) + Built(grpc, resolve))
  }

  lemma BandMember(http: seq<Route>, grpc: seq<Route>, resolve: Resolve, i: nat)
    requires i < |Band(http, grpc, resolve)|
    ensures Band(http, grpc, resolve)[i] in Built(http, resolve) + Built(grpc, resolve)
  {
    hide StableSort, Built;
    var built := Built(http, resolve) + Built(grpc, resolve);
    SortFacts(built);
    assert StableSort(built)[i] in multiset(StableSort(built));
  }

  /** More precedent means earlier. */
  lemma BandOrder(http: seq<Route>, grpc: seq<Route>, resolve: Resolve, i: nat, j: nat)
    requires i < |Band(http, grpc, resolve)| && j < |Band(http, grpc, resolve)|
    requires MorePrecedent(Band(http, grpc, resolve)[i], Band(http, grpc, resolve)[j])
    ensures i < j
  {
    hide StableSort, Built, MorePrecedent;
    SortFacts(Built(http, resolve) + Built(grpc, resolve));
    Trichotomy(Band(http, grpc, resolve)[i], Band(http, grpc, resolve)[j]);
  }

  /** No shadowing: in the sorted band, a rule with an exact, prefix or no path match that serves strictly
      less than another such rule always comes first, of whichever route kind they are. */
  lemma NoShadowing(rx: (string, string) -> bool, http: seq<Route>, grpc: seq<Route>, resolve: Resolve, i: nat, j: nat)
    requires L7Routes(http) && L7Routes(grpc)
    requires var band := Band(http, grpc, resolve);
             && i < |band| && j < |band|
             && band[i].specificity.pathKind != PathRegex && band[j].specificity.pathKind != PathRegex
             && StrictlyNarrower(rx, band[i], band[j])
    ensures i < j
  {
    hide MorePrecedent, StrictlyNarrower, LiteralRule, Band, Built, ValidHostname;
    var band := Band(http, grpc, resolve);
    BuiltFromL7(http, resolve);
    BuiltFromL7(grpc, resolve);
    BandMember(http, grpc, resolve, i);
    BandMember(http, grpc, resolve, j);
    assert FromL7(band[i]) && FromL7(band[j]);
    var sa :| LiteralRule(band[i], sa);
    var sb :| LiteralRule(band[j], sb);
    NarrowerIsMorePrecedent(rx, band[i], sa, band[j], sb);
    BandOrder(http, grpc, resolve, i, j);
  }

  // ----- Rules ranked as regular expressions -----

  lemma NarrowerHostWins(a: Rule<B.Service>, b: Rule<B.Service>)
    requires OwnHostname(a) && OwnHostname(b) && ValidHostname(a.hostname) && ValidHostname(b.hostname)
    requires HostSubset(a.hostname, b.hostname) && a.hostname != b.hostname
    ensures MorePrecedent(a, b) && !MorePrecedent(b, a)
  {
    HostSubsetOrder(a.hostname, b.hostname);
  }

  /** A rule ranked as a regular expression, a gRPC rule or one written by a user, precedes a literal rule on a
      superset of its hosts exactly when its hostname is the narrower one or the literal rule has no path. */
  lemma RegexAgainstLiteral(g: Rule<B.Service>, h: Rule<B.Service>, s: PathSet)
    requires g.specificity.pathKind == PathRegex && OwnHostname(g) && LiteralRule(h, s)
    requires ValidHostname(g.hostname) && ValidHostname(h.hostname) && HostSubset(g.hostname, h.hostname)
    ensures MorePrecedent(g, h) <==> g.hostname != h.hostname || s == All
    ensures MorePrecedent(h, g) <==> g.hostname == h.hostname && s != All
  {
    if g.hostname != h.hostname {
      NarrowerHostWins(g, h);
    }
  }

  /** The same for positions in the sorted band: nothing but the two hostnames and the literal rule's path matters. */
  lemma RegexPosition(http: seq<Route>, grpc: seq<Route>, resolve: Resolve, i: nat, j: nat)
    requires L7Routes(http) && L7Routes(grpc)
    requires var band := Band(http, grpc, resolve);
             && i < |band| && j < |band|
             && band[i].specificity.pathKind == PathRegex && band[j].specificity.pathKind != PathRegex
             && HostSubset(band[i].hostname, band[j].hostname)
    ensures var band := Band(http, grpc, resolve);
            i < j <==> band[i].hostname != band[j].hostname || band[j].specificity.pathKind == PathNone
  {
    hide MorePrecedent, HostSubset, LiteralRule, Band, Built, ValidHostname, OwnHostname;
    var band := Band(http, grpc, resolve);
    BuiltFromL7(http, resolve);
    BuiltFromL7(grpc, resolve);
    BandMember(http, grpc, resolve, i);
    BandMember(http, grpc, resolve, j);
    assert FromL7(band[i]) && FromL7(band[j]);
    var s :| LiteralRule(band[j], s);
    RegexAgainstLiteral(band[i], band[j], s);
    LiteralKind(band[j], s);
    if MorePrecedent(band[i], band[j]) {
      BandOrder(http, grpc, resolve, i, j);
    } else {
      BandOrder(http, grpc, resolve, j, i);
    }
  }

  lemma LiteralKind(r: Rule<B.Service>, s: PathSet)
    requires LiteralRule(r, s)
    ensures r.specificity.pathKind == PathNone <==> s == All
  {
  }

  ghost predicate CallSubset(a: GrpcSet, b: GrpcSet) {
    forall path :: InGrpcSet(a, path) ==> InGrpcSet(b, path)
  }

  lemma NoServiceInMethod(w: string, m: string)
    requires '/' !in m
    ensures !("/" + w + "/" <= "/" + m)
  {
    assert ("/" + w + "/")[|w| + 1] == '/';
    assert forall k :: 0 < k < |m| + 1 ==> ("/" + m)[k] == m[k - 1];
  }

  lemma NoMethodAtSlash(m: string, path: string)
    requires m != "" && '/' !in m && path != "" && path[|path| - 1] == '/'
    ensures !HasSuffix(path, "/" + m)
  {
  }

  /** Among ordinary call sets one lies inside another only in the evident ways. */
  lemma CallSubsetShape(a: GrpcSet, b: GrpcSet)
    requires Ordinary(a) && Ordinary(b) && CallSubset(a, b) && a != b
    ensures b.AnyCall? || (a.OneCall? && (b == OfService(a.svc) || b == OfMethod(a.meth)))
  {
    var path := SomeCall(a);
    SomeCallIn(a);
    assert InGrpcSet(b, path);
    match a
    case AnyCall =>
    case OfService(v) => CallsOfService(v, b);
    case OfMethod(m) => CallsOfMethod(m, b);
    case OneCall(v, m) => CallsOfOne(v, m, b);
  }

  lemma CallsOfService(v: string, b: GrpcSet)
    requires OrdinaryName(v) && Ordinary(b) && InGrpcSet(b, "/" + v + "/")
    ensures b.AnyCall? || b == OfService(v)
  {
    var path := "/" + v + "/";
    assert path[1..|v| + 1] == v;
    if b.OfMethod? {
      NoMethodAtSlash(b.meth, path);
    }
    match b
    case AnyCall =>
    case OfService(w) => InServicePath(w, path, |v| + 1);
    case OfMethod(m) =>
    case OneCall(w, m) =>
  }

  lemma CallsOfMethod(m: string, b: GrpcSet)
    requires OrdinaryName(m) && Ordinary(b) && InGrpcSet(b, "/" + m)
    ensures b.AnyCall? || b == OfMethod(m)
  {
    var path := "/" + m;
    assert HasSuffix(path, "/" + m);
    assert forall k :: 0 < k < |path| ==> path[k] == m[k - 1];
    if b.OfService? || b.OneCall? {
      CallInService(b.svc, if b.OneCall? then b.meth else "");
      NoServiceInMethod(b.svc, m);
    }
    match b
    case AnyCall =>
    case OfService(w) =>
    case OfMethod(n) => InMethodPath(n, path, m);
    case OneCall(w, n) =>
  }

  lemma CallsOfOne(v: string, m: string, b: GrpcSet)
    requires OrdinaryName(v) && OrdinaryName(m) && Ordinary(b) && InGrpcSet(b, "/" + v + "/" + m)
    ensures b.AnyCall? || b == OfService(v) || b == OfMethod(m) || b == OneCall(v, m)
  {
    var path := "/" + v + "/" + m;
    assert path[1..|v| + 1] == v && path[|v| + 1] == '/';
    CallEnds(v, m);
    match b
    case AnyCall =>
    case OfService(w) => InServicePath(w, path, |v| + 1);
    case OfMethod(n) => InMethodPath(n, path, m);
    case OneCall(w, n) =>
      CallEnds(w, n);
      InMethodPath(n, path, m);
      CallInService(w, n);
      InServicePath(w, path, |v| + 1);
  }

  /** A GRPCRoute match with this call set, written out. */
  function MatchFor(s: GrpcSet): GrpcMatch {
    GrpcMatch(
      match s
      case AnyCall => None
      case OfService(v) => Some(GrpcMethod(Some(Exact), Some(v), None))
      case OfMethod(m) => Some(GrpcMethod(Some(Exact), None, Some(m)))
      case OneCall(v, m) => Some(GrpcMethod(Some(Exact), Some(v), Some(m))),
      [])
  }

  /** A rule built for an ordinary call set. */
  ghost predicate Calls(r: Rule<B.Service>, s: GrpcSet) {
    && OwnHostname(r) && Ordinary(s) && r.path == GrpcMethodPath(MatchFor(s).call)
    && r.specificity.pathKind == (if s == AnyCall then PathNone else PathRegex)
        && r.specificity.prefixLen == GrpcLength(s)
    && r.specificity.methodMatch == (s != AnyCall) && r.specificity.headerCount == r.specificity.queryCount == 0
  }

  /** Every GRPCRoute match with plain, API-valid names and no regular expression becomes such a rule. */
  lemma BuiltCalls(route: Route, ri: nat, service: B.Service, host: string, m: GrpcMatch)
    requires KnownGrpc(m.call) && Ordinary(GrpcSetOf(m.call))
    ensures Calls(RuleFor(route, ri, service, host)(BuiltGrpc()(m)), GrpcSetOf(m.call))
  {
  }

  lemma CallsDenotes(rx: (string, string) -> bool, r: Rule<B.Service>, s: GrpcSet, path: string)
    requires Calls(r, s)
    ensures PathServes(rx, r.path, path) <==> InGrpcSet(s, path)
  {
    hide PathServes, GrpcMethodPath;
    EmptyPatternServes(rx, path);
    NoMatchNoPath();
    GrpcCompilation(rx, MatchFor(s), path);
  }

  lemma NoMatchNoPath()
    ensures GrpcMethodPath(None) == ""
  {
  }

  /** The last four tie-breakers: older route, then namespace, name and rule index. */
  predicate BreaksTie(a: Rule<B.Service>, b: Rule<B.Service>) {
    if a.created != b.created then a.created < b.created
    else if a.routeNs != b.routeNs then Less(a.routeNs, b.routeNs)
    else if a.routeName != b.routeName then Less(a.routeName, b.routeName)
    else a.ruleIndex < b.ruleIndex
  }

  /** One call of a service whose escaped name is one byte long, against its method under any service: "/s/m" and
      ".*" before "/m" make patterns of the same length. */
  predicate OneByteService(a: GrpcSet, b: GrpcSet) {
    a.OneCall? && b.OfMethod? && |EscapeDots(a.svc)| == 1
  }

  lemma {:induction false} EscapedNotEmpty(s: string)
    ensures |EscapeDots(s)| >= |s|
  {
    if s != "" {
      EscapedNotEmpty(s[1..]);
    }
  }

  lemma CallParts(rx: (string, string) -> bool, a: Rule<B.Service>, sa: GrpcSet, b: Rule<B.Service>, sb: GrpcSet)
    requires Calls(a, sa) && Calls(b, sb) && StrictlyNarrower(rx, a, b)
    ensures HostSubset(a.hostname, b.hostname) && CallSubset(sa, sb) && (a.hostname != b.hostname || sa != sb)
  {
    hide PathServes, InGrpcSet, HostServes, Calls;
    forall path
      ensures PathServes(rx, a.path, path) <==> InGrpcSet(sa, path)
      ensures PathServes(rx, b.path, path) <==> InGrpcSet(sb, path)
    {
      CallsDenotes(rx, a, sa, path);
      CallsDenotes(rx, b, sb, path);
    }
    SomeCallIn(sa);
    var h := HostOf(a.hostname);
    forall x | HostServes(a.hostname, x) ensures HostServes(b.hostname, x) {
      assert RuleServes(rx, a, x, SomeCall(sa));
    }
    forall path | InGrpcSet(sa, path) ensures InGrpcSet(sb, path) {
      assert RuleServes(rx, a, h, path);
    }
  }

  lemma HostOf(hostname: string) returns (x: string)
    ensures HostServes(hostname, x)
  {
    x := A.HostInhabited(hostname);
  }

  /** gRPC against gRPC: a strictly narrower rule takes precedence exactly unless both have the same hostname and
      it is one call of a one-byte service against a method of any service; then the later tie-breakers decide. */
  lemma GrpcNarrowerIff(rx: (string, string) -> bool, a: Rule<B.Service>, sa: GrpcSet, b: Rule<B.Service>, sb: GrpcSet)
    requires Calls(a, sa) && Calls(b, sb) && ValidHostname(a.hostname) && ValidHostname(b.hostname)
    requires StrictlyNarrower(rx, a, b)
    ensures MorePrecedent(a, b) <==> a.hostname != b.hostname || !OneByteService(sa, sb) || BreaksTie(a, b)
    ensures MorePrecedent(b, a) <==> a.hostname == b.hostname && OneByteService(sa, sb) && BreaksTie(b, a)
  {
    hide StrictlyNarrower, HostSubset, CallSubset, GrpcMethodPath, EscapeDots, Less;
    CallParts(rx, a, sa, b, sb);
    if a.hostname != b.hostname {
      NarrowerHostWins(a, b);
    } else {
      CallSubsetShape(sa, sb);
      if sa.OneCall? {
        EscapedNotEmpty(sa.svc);
        EscapedNotEmpty(sa.meth);
      }
    }
  }

  /** A literal rule with strictly fewer requests than a gRPC rule always takes precedence. */
  lemma LiteralUnderGrpc(rx: (string, string) -> bool, a: Rule<B.Service>, s: PathSet, b: Rule<B.Service>, sb: GrpcSet)
    requires LiteralRule(a, s) && Calls(b, sb) && ValidHostname(a.hostname) && ValidHostname(b.hostname)
    requires StrictlyNarrower(rx, a, b)
    ensures MorePrecedent(a, b)
  {
    hide PathServes, GrpcMethodPath, PatternOf;
    if sb == AnyCall {
      NoMatchNoPath();
      EmptyPattern();
      NarrowerIsMorePrecedent(rx, a, s, b, All);
    } else {
      LiteralParts(rx, a, s, b, sb);
      if a.hostname != b.hostname {
        NarrowerHostWins(a, b);
      }
    }
  }

  lemma EmptyPattern()
    ensures PatternOf(All) == ""
  {
  }

  lemma LiteralParts(rx: (string, string) -> bool, a: Rule<B.Service>, s: PathSet, b: Rule<B.Service>, sb: GrpcSet)
    requires LiteralRule(a, s) && Calls(b, sb) && sb != AnyCall && StrictlyNarrower(rx, a, b)
    ensures HostSubset(a.hostname, b.hostname) && s != All
  {
    hide PathServes, HostServes, GrpcMethodPath, PatternOf, Calls;
    var p := PathInhabited(s);
    var h := HostOf(a.hostname);
    PatternDenotes(rx, s, p);
    forall x | HostServes(a.hostname, x) ensures HostServes(b.hostname, x) {
      assert RuleServes(rx, a, x, p);
    }
    if s == All {
      PatternDenotes(rx, All, "");
      assert RuleServes(rx, a, h, "");
      CallsDenotes(rx, b, sb, "");
      assert false;
    }
  }

  /** What is known of a rule that no user-written regular expression went into. */
  datatype Known = Paths(p: PathSet) | CallSet(c: GrpcSet)

  ghost predicate KnownRule(r: Rule<B.Service>, s: Known) {
    ValidHostname(r.hostname) && match s case Paths(p) => LiteralRule(r, p) case CallSet(c) => Calls(r, c)
  }

  /** The rule is ranked as a regular expression, the wider one has a literal path. */
  predicate UnderLiteralPath(a: Known, b: Known) {
    a.CallSet? && a.c != AnyCall && b.Paths? && b.p != All
  }

  predicate Tying(a: Known, b: Known) {
    a.CallSet? && b.CallSet? && OneByteService(a.c, b.c)
  }

  lemma NarrowerIff(rx: (string, string) -> bool, a: Rule<B.Service>, sa: Known, b: Rule<B.Service>, sb: Known)
    requires KnownRule(a, sa) && KnownRule(b, sb) && StrictlyNarrower(rx, a, b)
    ensures MorePrecedent(a, b) <==>
            a.hostname != b.hostname || !(UnderLiteralPath(sa, sb) || (Tying(sa, sb) && !BreaksTie(a, b)))
    ensures MorePrecedent(b, a) <==>
            a.hostname == b.hostname && (UnderLiteralPath(sa, sb) || (Tying(sa, sb) && BreaksTie(b, a)))
  {
    hide MorePrecedent, StrictlyNarrower, ValidHostname, BreaksTie, LiteralRule, GrpcMethodPath, PatternOf;
    Trichotomy(a, b);
    match (sa, sb)
    case (Paths(p), Paths(q)) => NarrowerIsMorePrecedent(rx, a, p, b, q);
    case (Paths(p), CallSet(c)) => LiteralUnderGrpc(rx, a, p, b, c);
    case (CallSet(c), CallSet(d)) => GrpcNarrowerIff(rx, a, c, b, d);
    case (CallSet(c), Paths(q)) =>
      if c == AnyCall {
        CallsAll(a);
        NarrowerIsMorePrecedent(rx, a, All, b, q);
      } else {
        CallHosts(rx, a, c, b);
        RegexAgainstLiteral(a, b, q);
      }
  }

  lemma CallsAll(a: Rule<B.Service>)
    requires Calls(a, AnyCall)
    ensures LiteralRule(a, All)
  {
  }

  lemma CallHosts(rx: (string, string) -> bool, a: Rule<B.Service>, c: GrpcSet, b: Rule<B.Service>)
    requires Calls(a, c) && StrictlyNarrower(rx, a, b)
    ensures HostSubset(a.hostname, b.hostname)
  {
    hide PathServes, HostServes, GrpcMethodPath, Calls;
    SomeCallIn(c);
    CallsDenotes(rx, a, c, SomeCall(c));
    forall x | HostServes(a.hostname, x) ensures HostServes(b.hostname, x) {
      assert RuleServes(rx, a, x, SomeCall(c));
    }
  }

  /** Shadowing in the sorted band, exactly: among the rules no regular expression of a user went into, a strictly
      narrower one comes first unless, on the same hostname, it is a gRPC rule under a literal HTTP path, which
      comes later, or it is one call of a one-byte service under a method of any service, when age, name and rule
      index decide. */
  lemma ShadowingIff(rx: (string, string) -> bool, http: seq<Route>, grpc: seq<Route>, resolve: Resolve, i: nat,
                     si: Known, j: nat, sj: Known)
    requires var band := Band(http, grpc, resolve);
             && i < |band| && j < |band| && KnownRule(band[i], si) && KnownRule(band[j], sj)
             && StrictlyNarrower(rx, band[i], band[j])
    ensures var a, b := Band(http, grpc, resolve)[i], Band(http, grpc, resolve)[j];
            if a.hostname != b.hostname || !(UnderLiteralPath(si, sj) || Tying(si, sj)) then i < j
            else if UnderLiteralPath(si, sj) then j < i
            else (BreaksTie(a, b) ==> i < j) && (BreaksTie(b, a) ==> j < i)
  {
    hide MorePrecedent, StrictlyNarrower, KnownRule, Band, BreaksTie;
    var a, b := Band(http, grpc, resolve)[i], Band(http, grpc, resolve)[j];
    NarrowerIff(rx, a, si, b, sj);
    if MorePrecedent(a, b) {
      BandOrder(http, grpc, resolve, i, j);
    }
    if MorePrecedent(b, a) {
      BandOrder(http, grpc, resolve, j, i);
    }
  }

  /** An instance of the first kind: an HTTP prefix rule above a gRPC method takes that method's requests. */
  lemma GrpcIsShadowed(service: B.Service, other: B.Service)
    ensures var http := HttpMatch(Some(PathMatch(Some(MatchType.Prefix), Some("/s"))), NO_CONDITIONS);
            var grpc := GrpcMatch(Some(GrpcMethod(Some(Exact), Some("s"), Some("m"))), []);
            var wide := RuleFor(Route(HTTP_ROUTE, "ns", "a", 0, [], [], []), 0, service, "")(BuiltHttp()(http));
            var narrow := RuleFor(Route(GRPC_ROUTE, "ns", "b", 0, [], [], []), 0, other, "")(BuiltGrpc()(grpc));
            && MorePrecedent(wide, narrow)
            && forall rx, host, path :: RuleServes(rx, narrow, host, path) ==> RuleServes(rx, wide, host, path)
  {
    hide Compile, Found, PathServes, QuoteMeta, UnderPrefix;
    var http := HttpMatch(Some(PathMatch(Some(MatchType.Prefix), Some("/s"))), NO_CONDITIONS);
    var grpc := GrpcMatch(Some(GrpcMethod(Some(Exact), Some("s"), Some("m"))), []);
    var wide := RuleFor(Route(HTTP_ROUTE, "ns", "a", 0, [], [], []), 0, service, "")(BuiltHttp()(http));
    var narrow := RuleFor(Route(GRPC_ROUTE, "ns", "b", 0, [], [], []), 0, other, "")(BuiltGrpc()(grpc));
    assert TrimRight("/s", '/') == "/s";
    forall rx: (string, string) -> bool, host, path | RuleServes(rx, narrow, host, path)
      ensures RuleServes(rx, wide, host, path)
    {
      GrpcExactMethod(rx, "s", "m", path);
      PathCompilation(rx, http, path);
      assert path == "/s/m";
      UnderSlashS();
    }
  }

  lemma UnderSlashS()
    ensures UnderPrefix("/s", "/s/m")
  {
  }

  /** A GRPCRoute for one call of the service "s", under an older one for its method in any service: the patterns
      have the same length, so the wider rule comes first. */
  lemma OlderMethodRuleShadows(service: B.Service, other: B.Service)
    ensures var wide := RuleFor(GrpcRoute("a", 1), 0, service, "h")(BuiltGrpc()(MatchFor(OfMethod("m"))));
            var narrow := RuleFor(GrpcRoute("b", 2), 0, other, "h")(BuiltGrpc()(MatchFor(OneCall("s", "m"))));
            && MorePrecedent(wide, narrow)
            && forall rx, host, path :: RuleServes(rx, narrow, host, path) ==> RuleServes(rx, wide, host, path)
  {
    hide RuleServes, Calls, MorePrecedent, GrpcMethodPath, EscapeDots, BuiltGrpc, KnownGrpc, GrpcSetOf, MatchFor,
        Ordinary;
    OrdinaryExamples();
    MatchesKnown(OfMethod("m"));
    MatchesKnown(OneCall("s", "m"));
    var wide := RuleFor(GrpcRoute("a", 1), 0, service, "h")(BuiltGrpc()(MatchFor(OfMethod("m"))));
    var narrow := RuleFor(GrpcRoute("b", 2), 0, other, "h")(BuiltGrpc()(MatchFor(OneCall("s", "m"))));
    BuiltCalls(GrpcRoute("a", 1), 0, service, "h", MatchFor(OfMethod("m")));
    BuiltCalls(GrpcRoute("b", 2), 0, other, "h", MatchFor(OneCall("s", "m")));
    SameLength(wide, narrow);
    forall rx: (string, string) -> bool, host, path | RuleServes(rx, narrow, host, path)
      ensures RuleServes(rx, wide, host, path) {
      OneBelowMethod(rx, wide, narrow, host, path);
    }
  }

  lemma OneBelowMethod(rx: (string, string) -> bool, wide: Rule<B.Service>, narrow: Rule<B.Service>, host: string,
                       path: string)
    requires Calls(wide, OfMethod("m")) && Calls(narrow, OneCall("s", "m")) && wide.hostname == narrow.hostname
    requires RuleServes(rx, narrow, host, path)
    ensures RuleServes(rx, wide, host, path)
  {
    hide PathServes, InGrpcSet, HostServes, Calls;
    CallsDenotes(rx, narrow, OneCall("s", "m"), path);
    CallsDenotes(rx, wide, OfMethod("m"), path);
    OneOfMethod(path);
  }

  lemma MatchesKnown(s: GrpcSet)
    requires Ordinary(s)
    ensures KnownGrpc(MatchFor(s).call) && GrpcSetOf(MatchFor(s).call) == s
  {
  }

  lemma OrdinaryExamples()
    ensures Ordinary(OfMethod("m")) && Ordinary(OneCall("s", "m"))
  {
  }

  lemma SameLength(wide: Rule<B.Service>, narrow: Rule<B.Service>)
    requires Calls(wide, OfMethod("m")) && Calls(narrow, OneCall("s", "m")) && wide.hostname == narrow.hostname
    requires wide.created < narrow.created
    ensures MorePrecedent(wide, narrow)
  {
  }

  lemma OneOfMethod(path: string)
    requires InGrpcSet(OneCall("s", "m"), path)
    ensures InGrpcSet(OfMethod("m"), path)
  {
  }

  function GrpcRoute(name: string, created: int): Route {
    Route(GRPC_ROUTE, "ns", name, created, [], [], [])
  }

  // ----- Bands without paths -----

  /** Rule j is the one that answers the request. */
  ghost predicate AnswersAt(rx: (string, string) -> bool, rs: seq<Rule<B.Service>>, j: nat, host: string,
                            path: string) {
    j < |rs| && RuleServes(rx, rs[j], host, path) && forall i :: 0 <= i < j ==> !RuleServes(rx, rs[i], host, path)
  }

  ghost predicate NeverAnswers(rx: (string, string) -> bool, rs: seq<Rule<B.Service>>, j: nat) {
    forall host, path :: !AnswersAt(rx, rs, j, host, path)
  }

  /** Hostname `w` takes in all hosts of `h`. */
  predicate TakesIn(w: string, h: string) {
    w == "" || w == h || (A.IsWildcard(w) && h != "" && HasSuffix(h, A.Tail(w)))
  }

  function Xs(n: nat): (s: string)
    ensures |s| == n && forall i :: 0 <= i < n ==> s[i] == 'x'
  {
    seq(n, i => 'x')
  }

  /** A host of `h` that belongs to no hostname shorter than n unless that one takes in all of `h`. */
  function FreshHost(h: string, n: nat): string {
    if h == "" then Xs(n) else if A.IsWildcard(h) then Xs(n) + A.Tail(h) else h
  }

  lemma FreshHostServed(h: string, n: nat)
    ensures HostServes(h, FreshHost(h, n))
  {
  }

  lemma FreshHostOnly(h: string, w: string, n: nat)
    requires n > |w| && HostServes(w, FreshHost(h, n))
    ensures TakesIn(w, h)
  {
    var x := FreshHost(h, n);
    if w != "" && A.IsWildcard(w) {
      var t := A.Tail(w);
      assert |x| >= |t| ==> x[|x| - |t|..][0] == x[|x| - |t|];
      if h != "" && A.IsWildcard(h) {
        WildcardFresh(h, w, n);
      }
    }
  }

  lemma WildcardFresh(h: string, w: string, n: nat)
    requires A.IsWildcard(h) && A.IsWildcard(w) && HasSuffix(Xs(n) + A.Tail(h), A.Tail(w))
    requires n > |w|
    ensures HasSuffix(h, A.Tail(w))
  {
    var x, t, u := Xs(n) + A.Tail(h), A.Tail(w), A.Tail(h);
    assert x[|x| - |t|..][0] == x[|x| - |t|] == t[0] == '.';
    assert |t| <= |u|;
    assert x[|x| - |t|..] == u[|u| - |t|..] == h[|h| - |t|..];
  }

  /** Taking in all hosts, by inspection of the two names. */
  lemma TakesInIff(w: string, h: string)
    ensures TakesIn(w, h) <==> HostSubset(h, w)
  {
    if TakesIn(w, h) {
      forall x | HostServes(h, x) ensures HostServes(w, x) {
        TakesInServes(w, h, x);
      }
    }
    if HostSubset(h, w) {
      FreshHostServed(h, |w| + 1);
      FreshHostOnly(h, w, |w| + 1);
    }
  }

  lemma TakesInServes(w: string, h: string, x: string)
    requires TakesIn(w, h) && HostServes(h, x)
    ensures HostServes(w, x)
  {
    if w != "" && w != h && A.IsWildcard(h) {
      var t, u := A.Tail(w), A.Tail(h);
      assert h[0] == '*' && t[0] == '.' && h == "*" + u;
      assert h[|h| - |t|..][0] == h[|h| - |t|];
      assert |t| <= |u|;
      assert h[|h| - |t|..] == u[|u| - |t|..];
      SuffixTransitive(x, u, t);
    }
  }

  function Longest(rs: seq<Rule<B.Service>>): (n: nat)
    ensures forall r <- rs :: |r.hostname| <= n
  {
    if rs == [] then 0
    else
      var n := Longest(rs[1..]);
      assert rs == [rs[0]] + rs[1..];
      if |rs[0].hostname| > n then |rs[0].hostname| else n
  }

  /** Among rules without paths, rule j answers some request exactly when no earlier hostname takes in all of its
      hosts: several narrower ones together never do. */
  lemma HostRuleAnswersIff(rx: (string, string) -> bool, rs: seq<Rule<B.Service>>, j: nat)
    requires j < |rs| && forall i :: 0 <= i <= j ==> rs[i].path == ""
    ensures NeverAnswers(rx, rs, j) <==> exists i :: 0 <= i < j && TakesIn(rs[i].hostname, rs[j].hostname)
  {
    hide HostServes, TakesIn, FreshHost, PathServes;
    var h := rs[j].hostname;
    EmptyPatternServes(rx, "");
    if forall i :: 0 <= i < j ==> !TakesIn(rs[i].hostname, h) {
      var n := Longest(rs) + 1;
      FreshHostServed(h, n);
      forall i | 0 <= i < j ensures !HostServes(rs[i].hostname, FreshHost(h, n)) {
        assert rs[i] in rs;
        if HostServes(rs[i].hostname, FreshHost(h, n)) {
          FreshHostOnly(h, rs[i].hostname, n);
        }
      }
      assert AnswersAt(rx, rs, j, FreshHost(h, n), "");
    }
    if host, path :| AnswersAt(rx, rs, j, host, path) {
      EmptyPatternServes(rx, path);
      forall i | 0 <= i < j ensures !TakesIn(rs[i].hostname, h) {
        if TakesIn(rs[i].hostname, h) {
          TakesInServes(rs[i].hostname, h, host);
        }
      }
    }
  }

  ghost predicate NoPaths(rs: seq<Rule<B.Service>>) {
    forall r <- rs :: r.path == ""
  }

  /** Neither HTTP nor gRPC. */
  ghost predicate L4Routes(routes: seq<Route>) {
    forall r <- routes :: r.kind != HTTP_ROUTE && r.kind != GRPC_ROUTE
  }

  lemma {:induction false} FanOutNoPaths(route: Route, ri: nat, service: B.Service, hosts: seq<string>)
    ensures NoPaths(FanOut(route, ri, service, hosts, [MATCH_ALL]))
  {
    if hosts != [] {
      FanOutNoPaths(route, ri, service, hosts[..|hosts| - 1]);
    }
  }

  lemma {:induction false} RulesNoPaths(route: Route, n: nat, resolve: Resolve)
    requires route.kind != HTTP_ROUTE && route.kind != GRPC_ROUTE && n <= |route.rules|
    ensures NoPaths(RulesUpTo(route, n, resolve))
  {
    hide FanOut, ServiceOf, HostsOf;
    if n > 0 {
      RulesNoPaths(route, n - 1, resolve);
      FanOutNoPaths(route, n - 1, ServiceOf(route, route.rules[n - 1], resolve), HostsOf(route));
    }
  }

  lemma {:induction false} BuiltNoPaths(routes: seq<Route>, resolve: Resolve)
    requires L4Routes(routes)
    ensures NoPaths(Built(routes, resolve))
  {
    hide RulesUpTo;
    if routes != [] {
      var front, r := routes[..|routes| - 1], routes[|routes| - 1];
      assert routes == front + [r] && r in routes;
      BuiltNoPaths(front, resolve);
      RulesNoPaths(r, |r.rules|, resolve);
    }
  }

  /** What follows the sorted band: the TLS rules and the TCP rules in build order, then the catch-all. */
  function Unsorted(tls: seq<Route>, tcp: seq<Route>, resolve: Resolve): seq<Rule<B.Service>> {
    Built(tls, resolve) + Built(tcp, resolve) + [CATCH_ALL]
  }

  /** The pushed list behind its sorted band, exactly: a rule answers the requests the band leaves to it, and when
      there is no HTTP or gRPC rule it answers any at all if and only if no earlier rule's hostname takes in all
      hosts of its own. A rule so covered never answers, whatever else is attached. */
  lemma UnsortedAnswersIff(rx: (string, string) -> bool, http: seq<Route>, grpc: seq<Route>, tls: seq<Route>,
                           tcp: seq<Route>,
                           resolve: Resolve, j: nat)
    requires L4Routes(tls) && L4Routes(tcp) && j < |Unsorted(tls, tcp, resolve)|
    ensures var list, band, rest := IngressList(http, grpc, tls, tcp, resolve), Band(http, grpc, resolve),
            Unsorted(tls, tcp, resolve);
            var covered := exists i :: 0 <= i < j && TakesIn(rest[i].hostname, rest[j].hostname);
            && list == band + rest
            && (covered ==> NeverAnswers(rx, list, |band| + j))
            && (band == [] ==> (NeverAnswers(rx, list, |band| + j) <==> covered))
            && forall host, path :: AnswersAt(rx, list, |band| + j, host, path) <==>
                 AnswersAt(rx, rest, j, host, path) && forall r <- band :: !RuleServes(rx, r, host, path)
  {
    hide RuleServes, Built, StableSort, TakesIn, AnswersAt;
    var list, band, rest := IngressList(http, grpc, tls, tcp, resolve), Band(http, grpc, resolve),
        Unsorted(tls, tcp, resolve);
    assert list == band + rest;
    BuiltNoPaths(tls, resolve);
    BuiltNoPaths(tcp, resolve);
    assert NoPaths(rest);
    forall i | 0 <= i <= j ensures rest[i].path == "" {
      assert rest[i] in rest;
    }
    HostRuleAnswersIff(rx, rest, j);
    var n := |band| + j;
    forall host, path
      ensures AnswersAt(rx, list, n, host, path) <==>
              AnswersAt(rx, rest, j, host, path) && forall r <- band :: !RuleServes(rx, r, host, path)
    {
      SplitAnswers(rx, band, rest, j, host, path);
    }
  }

  lemma SplitAnswers(rx: (string, string) -> bool, a: seq<Rule<B.Service>>, b: seq<Rule<B.Service>>, j: nat,
                     host: string, path: string)
    requires j < |b|
    ensures AnswersAt(rx, a + b, |a| + j, host, path) <==>
            AnswersAt(rx, b, j, host, path) && forall r <- a :: !RuleServes(rx, r, host, path)
  {
    hide RuleServes;
    var s := a + b;
    assert forall i :: 0 <= i < |a| ==> s[i] == a[i];
    assert forall i :: 0 <= i < |b| ==> s[|a| + i] == b[i];
    if AnswersAt(rx, s, |a| + j, host, path) {
      forall i | 0 <= i < j ensures !RuleServes(rx, b[i], host, path) {
        assert s[|a| + i] == b[i];
      }
      forall r | r in a ensures !RuleServes(rx, r, host, path) {
        var i :| 0 <= i < |a| && a[i] == r;
        assert s[i] == r;
      }
    }
  }

  function TlsRoute(name: string, host: string): Route {
    Route(TLS_ROUTE, "ns", name, 0, [], [host], [RouteRule([], [], [], None, None)])
  }

  /** The band is left in build order: the rule of a TLSRoute for *.a.com that is listed first keeps the more
      precedent rule of one for x.a.com, whose host it serves, from ever answering, whatever else is attached. */
  lemma TlsBandShadows(rx: (string, string) -> bool, http: seq<Route>, grpc: seq<Route>, tcp: seq<Route>,
                       resolve: Resolve)
    requires L4Routes(tcp)
    ensures var tls := [TlsRoute("a", "*.a.com"), TlsRoute("b", "x.a.com")];
            var list, n := IngressList(http, grpc, tls, tcp, resolve), |Band(http, grpc, resolve)|;
            && |list| >= n + 2 && list[n].hostname == "*.a.com" && list[n + 1].hostname == "x.a.com"
            && MorePrecedent(list[n + 1], list[n])
            && RuleServes(rx, list[n], "x.a.com", "") && RuleServes(rx, list[n + 1], "x.a.com", "")
            && NeverAnswers(rx, list, n + 1)
  {
    hide StableSort, NeverAnswers, FanOut, ServiceOf;
    var a, b := TlsRoute("a", "*.a.com"), TlsRoute("b", "x.a.com");
    var rest := Unsorted([a, b], tcp, resolve);
    OneRule(a, "*.a.com", resolve);
    OneRule(b, "x.a.com", resolve);
    BuiltTwo(a, b, resolve);
    assert rest[0].hostname == "*.a.com" && rest[1].hostname == "x.a.com";
    assert "x.a.com"[1..] == ".a.com" == A.Tail("*.a.com");
    assert TakesIn(rest[0].hostname, rest[1].hostname);
    UnsortedAnswersIff(rx, http, grpc, [a, b], tcp, resolve, 1);
  }

  lemma BuiltTwo(a: Route, b: Route, resolve: Resolve)
    ensures Built([a, b], resolve) == RulesUpTo(a, |a.rules|, resolve) + RulesUpTo(b, |b.rules|, resolve)
  {
    hide RulesUpTo;
    assert [a, b][..1] == [a] && [a][..0] == [];
    assert Built([a][..0], resolve) == [];
    assert Built([a], resolve) == RulesUpTo(a, |a.rules|, resolve);
  }

  lemma OneRule(route: Route, host: string, resolve: Resolve)
    requires route.kind == TLS_ROUTE && route.hostnames == [host] && route.rules == [RouteRule([], [], [], None, None)]
    ensures RulesUpTo(route, 1, resolve) ==
            [RuleFor(route, 0, ServiceOf(route, route.rules[0], resolve), host)(MATCH_ALL)]
  {
    var service := ServiceOf(route, route.rules[0], resolve);
    assert [host][..0] == [];
    assert FanOut(route, 0, service, [host], [MATCH_ALL]) == [RuleFor(route, 0, service, host)(MATCH_ALL)];
    assert RulesUpTo(route, 0, resolve) == [];
  }
}
