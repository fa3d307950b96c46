/** What the rules built for a route rule mean: the hosts, the paths, and the conditions nothing enforces. */
module Compilation {
  import opened Text
  import opened Seqs
  import opened GatewayApi
  import opened Precedence
  import opened Ingress
  import opened Grpc
  import A = Attachment
  import B = Backends

  // ----- What a match asks for -----

  /** Which conditions a request meets; how headers and query parameters are compared is left open. */
  type Fulfilment = Conditions -> bool

  /** A request meets conditions that demand nothing. */
  predicate Admissible(meets: Fulfilment) {
    meets(NO_CONDITIONS)
  }

  /** A request that meets no other ones. */
  function Bare(): Fulfilment {
    (c: Conditions) => c == NO_CONDITIONS
  }

  /** The path part of an HTTPRoute match; a regular expression stands for what it matches. */
  ghost predicate HttpPath(rx: (string, string) -> bool, m: HttpMatch, path: string) {
    if IsRegex(m.path) then PathServes(rx, OrElse(m.path.value.value, "/"), path)
    else InPathSet(PathSetOf(m.path), path)
  }

  ghost predicate HttpAsks(rx: (string, string) -> bool, m: HttpMatch, path: string, meets: Fulfilment) {
    HttpPath(rx, m, path) && meets(m.also)
  }

  /** The method part of a GRPCRoute match, a matter of the call's names; regular expressions, and names beyond
      API validation, stand for what the pattern they are put into matches. */
  ghost predicate GrpcPath(rx: (string, string) -> bool, m: GrpcMatch, path: string) {
    if ByNames(m.call) then
      exists svc, meth ::
        CallName(svc) && CallName(meth) && path == CallPath(svc, meth) && NamesAgree(m.call, svc, meth)
    else IsCall(path) && PathServes(rx, GrpcMethodPath(m.call), path)
  }

  function GrpcConditions(m: GrpcMatch): Conditions {
    Conditions(None, m.headers, [])
  }

  ghost predicate GrpcAsks(rx: (string, string) -> bool, m: GrpcMatch, path: string, meets: Fulfilment) {
    GrpcPath(rx, m, path) && meets(GrpcConditions(m))
  }

  /** GRPCRoutes receive calls. */
  ghost predicate Receivable(kind: string, path: string) {
    kind == GRPC_ROUTE ==> IsCall(path)
  }

  /** The paths of a route rule, its other conditions aside: every receivable one when it has no match. */
  ghost predicate RulePaths(rx: (string, string) -> bool, kind: string, rule: RouteRule, path: string) {
    if kind == HTTP_ROUTE then rule.http == [] || exists m <- rule.http :: HttpPath(rx, m, path)
    else if kind == GRPC_ROUTE then IsCall(path) && (rule.grpc == [] || exists m <- rule.grpc :: GrpcPath(rx, m, path))
    else true
  }

  /** What a route rule asks for: one of its matches with all its conditions. */
  ghost predicate RuleAsks(rx: (string, string) -> bool, kind: string, rule: RouteRule, path: string,
                           meets: Fulfilment) {
    if kind == HTTP_ROUTE then rule.http == [] || exists m <- rule.http :: HttpAsks(rx, m, path, meets)
    else if kind == GRPC_ROUTE then
      IsCall(path) && (rule.grpc == [] || exists m <- rule.grpc :: GrpcAsks(rx, m, path, meets))
    else true
  }

  /** Every path of the rule is asked for by a match without other conditions. */
  ghost predicate Unconditional(rx: (string, string) -> bool, kind: string, rule: RouteRule) {
    forall path :: RulePaths(rx, kind, rule, path) ==> RuleAsks(rx, kind, rule, path, Bare())
  }

  predicate HasConditions(kind: string, rule: RouteRule) {
    || (kind == HTTP_ROUTE && exists m <- rule.http :: m.also != NO_CONDITIONS)
    || (kind == GRPC_ROUTE && exists m <- rule.grpc :: m.headers != [])
  }

  // ----- Single matches -----

  lemma HttpMatchServes(rx: (string, string) -> bool, m: HttpMatch, path: string)
    ensures PathServes(rx, BuiltHttp()(m).path, path) <==> HttpPath(rx, m, path)
  {
    hide PathServes, InPathSet, PathSetOf;
    if !IsRegex(m.path) {
      PathCompilation(rx, m, path);
    }
  }

  lemma GrpcMatchServes(rx: (string, string) -> bool, m: GrpcMatch, path: string)
    requires IsCall(path)
    ensures PathServes(rx, BuiltGrpc()(m).path, path) <==> GrpcPath(rx, m, path)
  {
    hide PathServes, GrpcMethodPath, CallPath, CallName, NamesAgree, ByNames;
    EmptyPatternServes(rx, path);
    if ByNames(m.call) {
      var svc, meth :| CallName(svc) && CallName(meth) && path == CallPath(svc, meth);
      CallCompilation(rx, m, svc, meth);
      forall v, n | CallName(v) && CallName(n) && path == CallPath(v, n) ensures v == svc && n == meth {
        CallPathInjective(svc, meth, v, n);
      }
    }
  }

  /** Said on the match: without a path, and for the root prefix, every path is served; an exact match serves that path;
      a prefix, which is what a path without type is, serves itself without its trailing slashes and, on one line, what
      lies below it. */
  lemma HttpMatchMeans(rx: (string, string) -> bool, m: HttpMatch, path: string)
    ensures m.path.None? ==> PathServes(rx, BuiltHttp()(m).path, path)
    ensures m.path.Some? ==>
              var served, v := PathServes(rx, BuiltHttp()(m).path, path), m.path.value.value;
              var kind, value := m.path.value.kind, if v.Some? then v.value else "/";
              && (kind == Some(MatchType.Exact) ==> (served <==> path == value))
              && ((kind.None? || kind == Some(MatchType.Prefix)) && value == "/" ==> served)
              && ((kind.None? || kind == Some(MatchType.Prefix)) && value != "/" ==>
                   forall base :: IsBase(base, value) ==>
                     (served <==> path == base || (base + "/" <= path && '\n' !in path[|base|..])))
  {
    hide PathServes, ApplyPathMatch;
    if !IsRegex(m.path) {
      PathCompilation(rx, m, path);
    }
    if m.path.Some? && OrElse(m.path.value.kind, MatchType.Prefix) == MatchType.Prefix {
      var value := OrElse(m.path.value.value, "/");
      forall base | IsBase(base, value) ensures TrimRight(value, '/') == base {
        BaseIsTrimmed(base, value);
      }
    }
  }

  /** `base` is `value` without its trailing slashes. */
  ghost predicate IsBase(base: string, value: string) {
    && base <= value && (base == "" || base[|base| - 1] != '/')
    && forall k :: |base| <= k < |value| ==> value[k] == '/'
  }

  lemma {:induction false} BaseIsTrimmed(base: string, value: string)
    requires IsBase(base, value)
    ensures TrimRight(value, '/') == base
    decreases |value|
  {
    if |value| > |base| {
      BaseIsTrimmed(base, value[..|value| - 1]);
    }
  }

  /** A tunnel rule serves what its HTTPRoute match asks for, under every reading of the other conditions, exactly
      when it is not flagged as unsupported, or can serve nothing at all. */
  lemma HttpMatchIsExactIff(rx: (string, string) -> bool, m: HttpMatch)
    ensures var b := BuiltHttp()(m);
            && (b.unsupported <==> m.also != NO_CONDITIONS)
            && ((forall path, meets: Fulfilment | Admissible(meets) ::
                   PathServes(rx, b.path, path) <==> HttpAsks(rx, m, path, meets)) <==>
                 !b.unsupported || forall path :: !PathServes(rx, b.path, path))
  {
    hide PathServes, HttpPath, ApplyPathMatch;
    FlagOf(m);
    forall path ensures PathServes(rx, BuiltHttp()(m).path, path) <==> HttpPath(rx, m, path) {
      HttpMatchServes(rx, m, path);
    }
    if m.also != NO_CONDITIONS {
      assert Admissible(Bare()) && !Bare()(m.also);
    }
  }

  lemma FlagOf(m: HttpMatch)
    ensures BuiltHttp()(m).unsupported <==> m.also != NO_CONDITIONS
  {
  }

  /** The same for the calls of a GRPCRoute match; here the headers decide, and the flag is never set. */
  lemma GrpcMatchIsExactIff(rx: (string, string) -> bool, m: GrpcMatch)
    ensures var b := BuiltGrpc()(m);
            && !b.unsupported
            && ((forall path, meets: Fulfilment | IsCall(path) && Admissible(meets) ::
                   PathServes(rx, b.path, path) <==> GrpcAsks(rx, m, path, meets)) <==>
                 m.headers == [] || forall path | IsCall(path) :: !PathServes(rx, b.path, path))
  {
    hide PathServes, GrpcPath, GrpcMethodPath, IsCall;
    forall path | IsCall(path) ensures PathServes(rx, BuiltGrpc()(m).path, path) <==> GrpcPath(rx, m, path) {
      GrpcMatchServes(rx, m, path);
    }
    if m.headers != [] {
      assert Admissible(Bare()) && !Bare()(GrpcConditions(m));
    }
  }

  /** Instances: a match on a header alone serves every request, and only the HTTPRoute's is flagged. */
  lemma HeaderOnlyServesAll(rx: (string, string) -> bool, header: FieldMatch, path: string)
    ensures var http, grpc := HttpMatch(None, Conditions(None, [header], [])), GrpcMatch(None, [header]);
            && PathServes(rx, BuiltHttp()(http).path, path) && !HttpAsks(rx, http, path, Bare())
            && PathServes(rx, BuiltGrpc()(grpc).path, path) && !GrpcAsks(rx, grpc, path, Bare())
            && BuiltHttp()(http).unsupported && !BuiltGrpc()(grpc).unsupported
  {
    EmptyPatternServes(rx, path);
  }

  // ----- Route rules -----

  /** The built matches serve exactly the receivable paths the rule's matches name. */
  lemma MatchesDenote(rx: (string, string) -> bool, route: Route, rule: RouteRule, path: string)
    requires Receivable(route.kind, path)
    ensures SomePath(rx, MatchesOf(route, rule), path) <==> RulePaths(rx, route.kind, rule, path)
  {
    hide PathServes, HttpPath, GrpcPath, ApplyPathMatch, GrpcMethodPath;
    var bs := MatchesOf(route, rule);
    EmptyPatternServes(rx, path);
    if bs == [MATCH_ALL] {
      assert MATCH_ALL in bs;
    }
    if route.kind == HTTP_ROUTE && rule.http != [] {
      HttpMatchesDenote(rx, rule.http, path);
    } else if route.kind == GRPC_ROUTE && rule.grpc != [] {
      GrpcMatchesDenote(rx, rule.grpc, path);
    }
  }

  lemma HttpMatchesDenote(rx: (string, string) -> bool, ms: seq<HttpMatch>, path: string)
    ensures SomePath(rx, Map(ms, BuiltHttp()), path) <==> exists m <- ms :: HttpPath(rx, m, path)
  {
    hide PathServes, HttpPath;
    var bs := Map(ms, BuiltHttp());
    forall k | 0 <= k < |ms| ensures PathServes(rx, bs[k].path, path) <==> HttpPath(rx, ms[k], path) {
      HttpMatchServes(rx, ms[k], path);
    }
    ByIndex(bs, ms, rx, path, m => HttpPath(rx, m, path));
  }

  lemma GrpcMatchesDenote(rx: (string, string) -> bool, ms: seq<GrpcMatch>, path: string)
    requires IsCall(path)
    ensures SomePath(rx, Map(ms, BuiltGrpc()), path) <==> exists m <- ms :: GrpcPath(rx, m, path)
  {
    hide PathServes, GrpcPath, IsCall;
    var bs := Map(ms, BuiltGrpc());
    forall k | 0 <= k < |ms| ensures PathServes(rx, bs[k].path, path) <==> GrpcPath(rx, ms[k], path) {
      GrpcMatchServes(rx, ms[k], path);
    }
    ByIndex(bs, ms, rx, path, m => GrpcPath(rx, m, path));
  }

  lemma ByIndex<T(!new)>(bs: seq<BuiltMatch>, ms: seq<T>, rx: (string, string) -> bool, path: string, asks: T -> bool)
    requires |bs| == |ms| && forall k :: 0 <= k < |ms| ==> (PathServes(rx, bs[k].path, path) <==> asks(ms[k]))
    ensures SomePath(rx, bs, path) <==> exists m <- ms :: asks(m)
  {
  }

  /** Compilation preserves hosts and paths: the tunnel rules of a route rule, whatever its kind, serve exactly the
      receivable requests whose host is one of the route's and whose path one of the rule's matches names, and all
      of them forward to that rule's backend and carry its identity. */
  lemma RouteCompilation(rx: (string, string) -> bool, route: Route, k: nat, resolve: Resolve, host: string,
                         path: string)
    requires k < |route.rules|
    ensures Receivable(route.kind, path) ==>
              (SomeServes(rx, RulesOf(route, k, resolve), host, path) <==>
               RouteHosts(route, host) && RulePaths(rx, route.kind, route.rules[k], path))
    ensures forall r <- RulesOf(route, k, resolve) :: BuiltFor(r, route, k, ServiceOf(route, route.rules[k], resolve))
  {
    hide FanOut, ServiceOf, HostsOf, HostServes, PathServes, RulePaths, MatchesOf, IsCall;
    var rule := route.rules[k];
    FanOutServes(rx, route, k, ServiceOf(route, rule, resolve), HostsOf(route), MatchesOf(route, rule), host, path);
    if Receivable(route.kind, path) {
      MatchesDenote(rx, route, rule, path);
    }
  }

  /** Whoever asks for something names its path; and without other conditions naming the path is asking. */
  lemma AsksPaths(rx: (string, string) -> bool, kind: string, rule: RouteRule, path: string, meets: Fulfilment)
    ensures RuleAsks(rx, kind, rule, path, meets) ==> RulePaths(rx, kind, rule, path) && Receivable(kind, path)
    ensures Unconditional(rx, kind, rule) && Admissible(meets) && RulePaths(rx, kind, rule, path) ==>
              RuleAsks(rx, kind, rule, path, meets)
    ensures !HasConditions(kind, rule) ==> Unconditional(rx, kind, rule)
  {
    hide HttpPath, GrpcPath, IsCall;
    if !HasConditions(kind, rule) {
      forall p | RulePaths(rx, kind, rule, p) ensures RuleAsks(rx, kind, rule, p, Bare()) {
        NoConditionsAsk(rx, kind, rule, p);
      }
    }
    if Unconditional(rx, kind, rule) && Admissible(meets) && RulePaths(rx, kind, rule, path) {
      BareAsksLeast(rx, kind, rule, path, meets);
    }
  }

  lemma NoConditionsAsk(rx: (string, string) -> bool, kind: string, rule: RouteRule, path: string)
    requires !HasConditions(kind, rule) && RulePaths(rx, kind, rule, path)
    ensures RuleAsks(rx, kind, rule, path, Bare())
  {
    hide HttpPath, GrpcPath, IsCall;
    if kind == HTTP_ROUTE && rule.http != [] {
      var m :| m in rule.http && HttpPath(rx, m, path);
      assert HttpAsks(rx, m, path, Bare());
    } else if kind == GRPC_ROUTE && rule.grpc != [] {
      var m :| m in rule.grpc && GrpcPath(rx, m, path);
      assert GrpcAsks(rx, m, path, Bare());
    }
  }

  lemma BareAsksLeast(rx: (string, string) -> bool, kind: string, rule: RouteRule, path: string, meets: Fulfilment)
    requires Admissible(meets) && RuleAsks(rx, kind, rule, path, Bare())
    ensures RuleAsks(rx, kind, rule, path, meets)
  {
    hide HttpPath, GrpcPath, IsCall;
    if kind == HTTP_ROUTE && rule.http != [] {
      var m :| m in rule.http && HttpAsks(rx, m, path, Bare());
      assert HttpAsks(rx, m, path, meets);
    } else if kind == GRPC_ROUTE && rule.grpc != [] {
      var m :| m in rule.grpc && GrpcAsks(rx, m, path, Bare());
      assert GrpcAsks(rx, m, path, meets);
    }
  }

  /** The rules of a route rule serve what it asks for, no more and no less. */
  ghost predicate ServesAsked(rx: (string, string) -> bool, route: Route, k: nat, resolve: Resolve)
    requires k < |route.rules|
  {
    forall host, path, meets: Fulfilment | Admissible(meets) && Receivable(route.kind, path) ::
      SomeServes(rx, RulesOf(route, k, resolve), host, path) <==>
      RouteHosts(route, host) && RuleAsks(rx, route.kind, route.rules[k], path, meets)
  }

  /** With methods, headers and query parameters: compilation is exact for every reading of these conditions if and
      only if every path of the rule is also asked for by a match that has none. Too little is never served. */
  lemma RouteIsExactIff(rx: (string, string) -> bool, route: Route, k: nat, resolve: Resolve)
    requires k < |route.rules|
    ensures ServesAsked(rx, route, k, resolve) <==> Unconditional(rx, route.kind, route.rules[k])
    ensures forall host, path, meets: Fulfilment ::
              RouteHosts(route, host) && RuleAsks(rx, route.kind, route.rules[k], path, meets) ==>
                SomeServes(rx, RulesOf(route, k, resolve), host, path)
  {
    hide SomeServes, RulesOf, RouteHosts, RulePaths, RuleAsks, IsCall;
    var rule := route.rules[k];
    forall host, path, meets: Fulfilment
      ensures Receivable(route.kind, path) ==>
                (SomeServes(rx, RulesOf(route, k, resolve), host, path) <==>
                 RouteHosts(route, host) && RulePaths(rx, route.kind, rule, path))
      ensures RuleAsks(rx, route.kind, rule, path, meets) ==>
                RulePaths(rx, route.kind, rule, path) && Receivable(route.kind, path)
      ensures Unconditional(rx, route.kind, rule) && Admissible(meets) && RulePaths(rx, route.kind, rule, path) ==>
                RuleAsks(rx, route.kind, rule, path, meets)
    {
      RouteCompilation(rx, route, k, resolve, host, path);
      AsksPaths(rx, route.kind, rule, path, meets);
    }
    var host := SomeHost(route);
    if ServesAsked(rx, route, k, resolve) {
      forall path | RulePaths(rx, route.kind, rule, path) ensures RuleAsks(rx, route.kind, rule, path, Bare()) {
        PathsReceivable(rx, route.kind, rule, path);
        assert Admissible(Bare());
        assert SomeServes(rx, RulesOf(route, k, resolve), host, path);
      }
    }
  }

  lemma PathsReceivable(rx: (string, string) -> bool, kind: string, rule: RouteRule, path: string)
    requires RulePaths(rx, kind, rule, path)
    ensures Receivable(kind, path)
  {
  }

  lemma SomeHost(route: Route) returns (host: string)
    ensures RouteHosts(route, host)
  {
    var h := HostsOf(route)[0];
    host := A.HostInhabited(h);
    assert h in HostsOf(route) && HostServes(h, host);
  }

  // ----- The flag for unsupported matches -----

  /** Rules of HTTPRoutes are flagged exactly for the matches with other conditions, those of GRPCRoutes never. */
  lemma FlaggedIff(route: Route, k: nat, resolve: Resolve)
    requires k < |route.rules|
    ensures (exists x <- RulesOf(route, k, resolve) :: x.unsupported) <==>
            route.kind == HTTP_ROUTE && HasConditions(HTTP_ROUTE, route.rules[k])
  {
    hide ServiceOf, ApplyPathMatch, GrpcMethodPath;
    var rule := route.rules[k];
    var service, hosts, bs := ServiceOf(route, rule, resolve), HostsOf(route), MatchesOf(route, rule);
    if x :| x in RulesOf(route, k, resolve) && x.unsupported {
      var h, j := FanOutOrigin(route, k, service, hosts, bs, x);
      assert bs[j].unsupported;
      FlaggedMatch(route, rule, j);
    }
    if route.kind == HTTP_ROUTE && HasConditions(HTTP_ROUTE, rule) {
      var m :| m in rule.http && m.also != NO_CONDITIONS;
      var j :| 0 <= j < |rule.http| && rule.http[j] == m;
      FlaggedMatch(route, rule, j);
      FanOutHas(route, k, service, hosts, bs, hosts[0], j);
    }
  }

  lemma FlaggedMatch(route: Route, rule: RouteRule, j: nat)
    requires j < |MatchesOf(route, rule)|
    ensures MatchesOf(route, rule)[j].unsupported <==>
            route.kind == HTTP_ROUTE && rule.http != [] && rule.http[j].also != NO_CONDITIONS
  {
    hide ApplyPathMatch, GrpcMethodPath;
    if route.kind == HTTP_ROUTE && rule.http != [] {
      FlagOf(rule.http[j]);
    }
  }

  /** Every rule of a fan-out belongs to a host and a match. */
  lemma {:induction false} FanOutOrigin(route: Route, ri: nat, service: B.Service, hosts: seq<string>,
                                        ms: seq<BuiltMatch>, x: Rule<B.Service>) returns (h: string, j: nat)
    requires x in FanOut(route, ri, service, hosts, ms)
    ensures h in hosts && j < |ms| && x == RuleFor(route, ri, service, h)(ms[j])
  {
    var front, last := hosts[..|hosts| - 1], hosts[|hosts| - 1];
    var own := Map(ms, RuleFor(route, ri, service, last));
    assert hosts == front + [last];
    if x in own {
      h := last;
      j :| 0 <= j < |own| && own[j] == x;
    } else {
      h, j := FanOutOrigin(route, ri, service, front, ms, x);
    }
  }

  lemma {:induction false} FanOutHas(route: Route, ri: nat, service: B.Service, hosts: seq<string>,
                                     ms: seq<BuiltMatch>, h: string, j: nat)
    requires h in hosts && j < |ms|
    ensures RuleFor(route, ri, service, h)(ms[j]) in FanOut(route, ri, service, hosts, ms)
  {
    var front, last := hosts[..|hosts| - 1], hosts[|hosts| - 1];
    assert hosts == front + [last];
    if h == last {
      assert Map(ms, RuleFor(route, ri, service, last))[j] in Map(ms, RuleFor(route, ri, service, last));
    } else {
      FanOutHas(route, ri, service, front, ms, h, j);
    }
  }

  /** An unflagged rule of an HTTPRoute only serves what its route rule asks for, with all conditions. */
  lemma UnflaggedIsAsked(rx: (string, string) -> bool, route: Route, k: nat, resolve: Resolve, x: Rule<B.Service>,
                         host: string, path: string, meets: Fulfilment)
    requires k < |route.rules| && x in RulesOf(route, k, resolve) && route.kind == HTTP_ROUTE && !x.unsupported
    requires RuleServes(rx, x, host, path) && Admissible(meets)
    ensures RouteHosts(route, host) && RuleAsks(rx, HTTP_ROUTE, route.rules[k], path, meets)
  {
    hide ServiceOf, ApplyPathMatch, PathServes, HttpPath, HostServes;
    var rule := route.rules[k];
    var bs := MatchesOf(route, rule);
    var h, j := FanOutOrigin(route, k, ServiceOf(route, rule, resolve), HostsOf(route), bs, x);
    assert HostServes(h, host) && PathServes(rx, bs[j].path, path);
    FlaggedMatch(route, rule, j);
    if rule.http != [] {
      HttpMatchServes(rx, rule.http[j], path);
      assert rule.http[j] in rule.http && HttpAsks(rx, rule.http[j], path, meets);
    }
  }
}
