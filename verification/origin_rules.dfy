/** From route rules to pushed settings: the resolver's answer, fan-out copies, BackendTLSPolicy overrides, and
    the layering of policies, end to end. */
module OriginRules {
  import opened Text
  import opened GatewayApi
  import opened OriginSettings
  import opened Policies
  import opened Origins
  import opened Precedence
  import B = Backends
  import I = Ingress

  // ----- Where a built rule comes from -----

  /** Rule k of a route. */
  datatype Source = Source(route: Route, k: nat) {
    function Refs(): seq<ObjectRef> {
      if k < |route.rules| then route.rules[k].refs else []
    }

    /** What the first backendRef asks the resolver for. */
    function Target(): B.Target
      requires Refs() != []
    {
      B.TargetOf(I.Namespace(route.ns), route.kind, Refs()[0])
    }
  }

  function Repeat<T>(x: T, n: nat): (s: seq<T>)
    ensures |s| == n
    ensures forall i :: 0 <= i < n ==> s[i] == x
  {
    seq(n, i => x)
  }

  function SourcesUpTo(route: Route, n: nat, resolve: I.Resolve): (s: seq<Source>)
    requires n <= |route.rules|
    ensures |s| == |I.RulesUpTo(route, n, resolve)|
  {
    if n == 0 then []
    else SourcesUpTo(route, n - 1, resolve) + Repeat(Source(route, n - 1), |I.RulesOf(route, n - 1, resolve)|)
  }

  /** The route rules of all built rules, in the same order. */
  function Sources(routes: seq<Route>, resolve: I.Resolve): (s: seq<Source>)
    ensures |s| == |I.Built(routes, resolve)|
  {
    if routes == [] then []
    else
      var r := routes[|routes| - 1];
      Sources(routes[..|routes| - 1], resolve) + SourcesUpTo(r, |r.rules|, resolve)
  }

  lemma {:induction false} SourceUpToAt(route: Route, n: nat, resolve: I.Resolve, i: nat)
    requires n <= |route.rules| && i < |I.RulesUpTo(route, n, resolve)|
    ensures var s := SourcesUpTo(route, n, resolve)[i];
            s.route == route && s.k < n && I.RulesUpTo(route, n, resolve)[i] in I.RulesOf(route, s.k, resolve)
  {
    hide I.FanOut, I.ServiceOf, I.HostsOf, I.MatchesOf;
    if i < |I.RulesUpTo(route, n - 1, resolve)| {
      SourceUpToAt(route, n - 1, resolve, i);
    }
  }

  /** Every built rule carries the identity of its source. */
  lemma {:induction false} SourceAt(routes: seq<Route>, resolve: I.Resolve, i: nat)
    requires i < |I.Built(routes, resolve)|
    ensures var s, r := Sources(routes, resolve)[i], I.Built(routes, resolve)[i];
            && s.route in routes && s.k < |s.route.rules|
            && I.BuiltFor(r, s.route, s.k, I.ServiceOf(s.route, s.route.rules[s.k], resolve))
  {
    hide I.RulesUpTo, SourcesUpTo, I.BuiltFor, I.ServiceOf;
    var front, r := routes[..|routes| - 1], routes[|routes| - 1];
    var n := |I.Built(front, resolve)|;
    if i < n {
      SourceAt(front, resolve, i);
    } else {
      SourceUpToAt(r, |r.rules|, resolve, i - n);
      var s := SourcesUpTo(r, |r.rules|, resolve)[i - n];
      I.RulesOfIdentity(r, s.k, resolve);
    }
  }

  // ----- What a built rule starts with -----

  /** What the route rule itself asks for. */
  function RuleSettings(s: Source): Origin {
    if s.route.kind == GRPC_ROUTE then UNSET.(http2Origin := Some(true))
    else if s.route.kind == HTTP_ROUTE && s.k < |s.route.rules| then
      UNSET.(httpHostHeader := s.route.rules[s.k].rewrite, connectTimeout := s.route.rules[s.k].timeout)
    else UNSET
  }

  /** The settings the backend brings along. */
  function BackendSettings(s: Source, resolve: I.Resolve): Option<Origin> {
    B.ServiceOf(I.Namespace(s.route.ns), s.route.kind, s.Refs(), resolve).1
  }

  /** The resolver claims the first backendRef: it is not left to the native URL. */
  predicate Claimed(s: Source, resolve: I.Resolve) {
    s.Refs() != [] && resolve(s.Target()).Some?
  }

  /** A rule's own settings over its backend's; a native TLS backend is not verified. */
  function StartOf(s: Source, resolve: I.Resolve): Origin {
    if s.route.kind == TLS_ROUTE && !Claimed(s, resolve) then UNSET.(noTlsVerify := Some(true))
    else Layer(RuleSettings(s), OrElse(BackendSettings(s, resolve), UNSET))
  }

  /** Said without layering: an HTTPRoute's host rewrite and timeout come before its backend's settings, a GRPCRoute
      always uses HTTP/2, a TLSRoute the resolver has no answer for is not verified, and everything else is what the
      backend brings along. */
  lemma StartFields(s: Source, resolve: I.Resolve)
    ensures var v, b := StartOf(s, resolve), OrElse(BackendSettings(s, resolve), UNSET);
            && (s.route.kind == HTTP_ROUTE && s.k < |s.route.rules| ==>
                 var rule := s.route.rules[s.k];
                 v == b.(httpHostHeader := if rule.rewrite.Some? then rule.rewrite else b.httpHostHeader,
                         connectTimeout := if rule.timeout.Some? then rule.timeout else b.connectTimeout))
            && (s.route.kind == GRPC_ROUTE ==> v == b.(http2Origin := Some(true)))
            && (s.route.kind == TCP_ROUTE ==> v == b)
            && (s.route.kind == TLS_ROUTE ==>
                 v == if s.Refs() != [] && resolve(s.Target()).Some? then b else UNSET.(noTlsVerify := Some(true)))
  {
    hide BackendSettings;
  }

  /** One route rule while its tunnel rules are built: one host entry per emitted rule, the backend's settings
      object and whether the resolver claimed it. */
  datatype Group = Group(source: Source, hosts: seq<string>, backend: OriginRequest?, external: bool)

  function GroupOrigin(g: Group): Origin
    reads g.backend
  {
    if g.source.route.kind == TLS_ROUTE && !g.external then UNSET.(noTlsVerify := Some(true))
    else Layer(RuleSettings(g.source), ValueOf(g.backend))
  }

  method RuleOrigin(g: Group) returns (o: OriginRequest?)
    ensures ValueOf(o) == GroupOrigin(g)
    ensures ValueOf(g.backend) == old(ValueOf(g.backend))
    ensures o != null && o != g.backend ==> fresh(o)
  {
    hide Layer, KeepsAndFills;
    LayerMonoid(ValueOf(g.backend), UNSET, UNSET);
    var route := g.source.route;
    if route.kind == GRPC_ROUTE {
      var own := new OriginRequest(UNSET.(http2Origin := Some(true)));
      o := MergeOriginRequest(own, g.backend);
    } else if route.kind == HTTP_ROUTE {
      var own: OriginRequest? := null;
      if g.source.k < |route.rules| {
        var rule := route.rules[g.source.k];
        if rule.rewrite.Some? {
          own := new OriginRequest(UNSET.(httpHostHeader := rule.rewrite));
        }
        if rule.timeout.Some? {
          if own == null {
            own := new OriginRequest(UNSET);
          }
          own.connectTimeout := rule.timeout;
        }
      }
      assert ValueOf(own) == RuleSettings(g.source);
      o := MergeOriginRequest(own, g.backend);
    } else if route.kind == TLS_ROUTE && !g.external {
      o := new OriginRequest(UNSET.(noTlsVerify := Some(true)));
    } else {
      o := g.backend;
    }
  }

  function SlotFor(s: Source, host: string): Slot {
    Slot(s.route.kind, I.Namespace(s.route.ns), s.route.name, s.k, host, null)
  }

  /** A built rule's identity. */
  function HeaderOf(r: Rule<B.Service>): Slot {
    Slot(r.routeKind, r.routeNs, r.routeName, r.ruleIndex, r.hostname, null)
  }

  ghost predicate SeparateSeq(s: seq<Slot>) {
    forall i, j :: 0 <= i < j < |s| && s[i].origin != null ==> s[i].origin != s[j].origin
  }

  /** The copies handed to the rules of one group. */
  method Emit(g: Group) returns (slots: seq<Slot>)
    ensures |slots| == |g.hosts| && SeparateSeq(slots)
    ensures forall i :: 0 <= i < |slots| ==> slots[i].(origin := null) == SlotFor(g.source, g.hosts[i])
    ensures forall i :: 0 <= i < |slots| ==> slots[i].origin != null ==> fresh(slots[i].origin)
    ensures forall i :: 0 <= i < |slots| ==> ValueOf(slots[i].origin) == GroupOrigin(g)
    ensures ValueOf(g.backend) == old(ValueOf(g.backend))
  {
    hide Layer, RuleSettings;
    var origin := RuleOrigin(g);
    var s := g.source;
    slots := [];
    for i := 0 to |g.hosts|
      invariant |slots| == i && SeparateSeq(slots)
      invariant forall k :: 0 <= k < i ==> slots[k].(origin := null) == SlotFor(s, g.hosts[k])
      invariant forall k :: 0 <= k < i ==> slots[k].origin != null ==> fresh(slots[k].origin)
      invariant forall k :: 0 <= k < i ==> ValueOf(slots[k].origin) == GroupOrigin(g)
      invariant ValueOf(origin) == GroupOrigin(g) && ValueOf(g.backend) == old(ValueOf(g.backend))
    {
      var copy := CloneOriginRequest(origin);
      slots := slots + [Slot(s.route.kind, I.Namespace(s.route.ns), s.route.name, s.k, g.hosts[i], copy)];
    }
  }

  /** The rules built from one route rule: the resolver is asked once, and every rule gets its own copy. */
  method RuleSlots(s: Source, resolve: I.Resolve) returns (slots: seq<Slot>)
    requires s.k < |s.route.rules|
    ensures |slots| == |I.RulesOf(s.route, s.k, resolve)| && SeparateSeq(slots)
    ensures forall i :: 0 <= i < |slots| ==> slots[i].(origin := null) == HeaderOf(I.RulesOf(s.route, s.k, resolve)[i])
    ensures forall i :: 0 <= i < |slots| ==> slots[i].origin != null ==> fresh(slots[i].origin)
    ensures forall i :: 0 <= i < |slots| ==> ValueOf(slots[i].origin) == StartOf(s, resolve)
  {
    hide Layer, RuleSettings, I.RulesOf, B.ServiceOf;
    var refs := s.Refs();
    var external := refs != [] && resolve(s.Target()).Some?;
    var settings := B.ServiceOf(I.Namespace(s.route.ns), s.route.kind, refs, resolve).1;
    var backend: OriginRequest? := null;
    if settings.Some? {
      backend := new OriginRequest(settings.value);
    }
    ghost var rules := I.RulesOf(s.route, s.k, resolve);
    var g := Group(s, HostsFor(s, resolve), backend, external);
    assert GroupOrigin(g) == StartOf(s, resolve);
    slots := Emit(g);
    I.RulesOfIdentity(s.route, s.k, resolve);
    forall i | 0 <= i < |slots| ensures slots[i].(origin := null) == HeaderOf(rules[i]) {
      assert rules[i] in rules;
    }
  }

  /** The hostname of every rule the route rule fans out to. */
  function HostsFor(s: Source, resolve: I.Resolve): (hosts: seq<string>)
    requires s.k < |s.route.rules|
    ensures |hosts| == |I.RulesOf(s.route, s.k, resolve)|
    ensures forall i :: 0 <= i < |hosts| ==> hosts[i] == I.RulesOf(s.route, s.k, resolve)[i].hostname
  {
    var rules := I.RulesOf(s.route, s.k, resolve);
    seq(|rules|, i requires 0 <= i < |rules| => rules[i].hostname)
  }

  /** Rules under construction: identities of the given built rules, private objects, the values of their sources. */
  ghost predicate Started(slots: seq<Slot>, rules: seq<Rule<B.Service>>, sources: seq<Source>, resolve: I.Resolve)
    reads set i | 0 <= i < |slots| :: slots[i].origin
  {
    && |slots| == |rules| == |sources| && SeparateSeq(slots)
    && (forall i :: 0 <= i < |slots| ==> slots[i].(origin := null) == HeaderOf(rules[i]))
    && forall i :: 0 <= i < |slots| ==> ValueOf(slots[i].origin) == StartOf(sources[i], resolve)
  }

  ghost predicate Apart(a: seq<Slot>, b: seq<Slot>) {
    forall i, j :: 0 <= i < |a| && 0 <= j < |b| && b[j].origin != null ==> a[i].origin != b[j].origin
  }

  lemma StartedMore(a: seq<Slot>, ra: seq<Rule<B.Service>>, sa: seq<Source>, b: seq<Slot>, rb: seq<Rule<B.Service>>,
                    sb: seq<Source>,
                    resolve: I.Resolve)
    requires Started(a, ra, sa, resolve) && Started(b, rb, sb, resolve) && Apart(a, b)
    ensures Started(a + b, ra + rb, sa + sb, resolve)
  {
    hide StartOf;
  }

  lemma NothingStarted(resolve: I.Resolve)
    ensures Started([], [], [], resolve)
  {
  }

  lemma RuleStarted(slots: seq<Slot>, s: Source, resolve: I.Resolve)
    requires s.k < |s.route.rules| && |slots| == |I.RulesOf(s.route, s.k, resolve)| && SeparateSeq(slots)
    requires forall i :: 0 <= i < |slots| ==> slots[i].(origin := null) == HeaderOf(I.RulesOf(s.route, s.k, resolve)[i])
    requires forall i :: 0 <= i < |slots| ==> ValueOf(slots[i].origin) == StartOf(s, resolve)
    ensures Started(slots, I.RulesOf(s.route, s.k, resolve), Repeat(s, |slots|), resolve)
  {
  }

  lemma RulesStep(route: Route, n: nat, resolve: I.Resolve)
    requires n < |route.rules|
    ensures I.RulesUpTo(route, n + 1, resolve) == I.RulesUpTo(route, n, resolve) + I.RulesOf(route, n, resolve)
    ensures SourcesUpTo(route, n + 1, resolve) ==
            SourcesUpTo(route, n, resolve) + Repeat(Source(route, n), |I.RulesOf(route, n, resolve)|)
  {
  }

  method RouteSlots(route: Route, resolve: I.Resolve) returns (slots: seq<Slot>)
    ensures Started(slots, I.RulesUpTo(route, |route.rules|, resolve), SourcesUpTo(route, |route.rules|, resolve),
                    resolve)
    ensures forall i :: 0 <= i < |slots| ==> slots[i].origin != null ==> fresh(slots[i].origin)
  {
    hide Started, StartOf, I.RulesOf, I.FanOut, I.ServiceOf, I.HostsOf, I.MatchesOf;
    slots := [];
    NothingStarted(resolve);
    for n := 0 to |route.rules|
      invariant Started(slots, I.RulesUpTo(route, n, resolve), SourcesUpTo(route, n, resolve), resolve)
      invariant forall i :: 0 <= i < |slots| ==> slots[i].origin != null ==> fresh(slots[i].origin)
    {
      var more := RuleSlots(Source(route, n), resolve);
      RuleStarted(more, Source(route, n), resolve);
      StartedMore(slots, I.RulesUpTo(route, n, resolve), SourcesUpTo(route, n, resolve),
                  more, I.RulesOf(route, n, resolve), Repeat(Source(route, n), |I.RulesOf(route, n, resolve)|),
                      resolve);
      RulesStep(route, n, resolve);
      slots := slots + more;
    }
  }

  /** The rules of all routes: private settings objects, each with the value its route rule and its backend ask for. */
  method BuildSlots(routes: seq<Route>, resolve: I.Resolve) returns (slots: seq<Slot>)
    ensures Started(slots, I.Built(routes, resolve), Sources(routes, resolve), resolve)
    ensures forall i :: 0 <= i < |slots| ==> slots[i].origin != null ==> fresh(slots[i].origin)
  {
    hide Started, StartOf, I.RulesUpTo, SourcesUpTo;
    slots := [];
    NothingStarted(resolve);
    for n := 0 to |routes|
      invariant Started(slots, I.Built(routes[..n], resolve), Sources(routes[..n], resolve), resolve)
      invariant forall i :: 0 <= i < |slots| ==> slots[i].origin != null ==> fresh(slots[i].origin)
    {
      var more := RouteSlots(routes[n], resolve);
      assert routes[..n + 1][..n] == routes[..n];
      var r := routes[n];
      StartedMore(slots, I.Built(routes[..n], resolve), Sources(routes[..n], resolve),
                  more, I.RulesUpTo(r, |r.rules|, resolve), SourcesUpTo(r, |r.rules|, resolve), resolve);
      slots := slots + more;
    }
    assert routes[..|routes|] == routes;
  }
}
