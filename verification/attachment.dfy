/** Which hosts a route serves through a Gateway: listener selection, allowed kinds and namespaces, and
    hostname intersection. */
module Attachment {
  import opened Text
  import opened Seqs
  import opened GatewayApi

  // ----- Hostnames as sets of hosts -----

  /** Lower case, one trailing dot dropped. */
  function NormalizeHost(h: string): string {
    ToLower(TrimSuffix(h, "."))
  }

  /** Once is enough unless the name ends in two dots. */
  lemma NormalizeHostStableIff(h: string)
    ensures NormalizeHost(NormalizeHost(h)) == NormalizeHost(h) <==> !HasSuffix(TrimSuffix(h, "."), ".")
  {
  }

  predicate IsWildcard(n: string) {
    "*." <= n
  }

  /** What the wildcard stands in front of, with its dot: ".example.com". */
  function Tail(n: string): string
    requires IsWildcard(n)
  {
    n[1..]
  }

  /** Host `x` belongs to the normalised hostname `n`. */
  predicate InHost(x: string, n: string) {
    if IsWildcard(n) then HasSuffix(x, Tail(n)) else x == n
  }

  /** `wildcard` covers the concrete `host`. */
  predicate WildcardMatches(wildcard: string, host: string) {
    HasSuffix(host, "." + TrimPrefix(wildcard, "*."))
  }

  predicate WildcardMoreSpecific(h: string, other: string) {
    HasSuffix(TrimPrefix(h, "*."), "." + TrimPrefix(other, "*."))
  }

  function IntersectHostname(routeHostname: string, listenerHostname: string): Option<string> {
    var route, listener := NormalizeHost(routeHostname), NormalizeHost(listenerHostname);
    if !IsWildcard(route) && !IsWildcard(listener) then if route == listener then Some(route) else None
    else if IsWildcard(route) && !IsWildcard(listener) then
      if WildcardMatches(route, listener) then Some(listener) else None
    else if !IsWildcard(route) then if WildcardMatches(listener, route) then Some(route) else None
    else if route == listener || WildcardMoreSpecific(route, listener) then Some(route)
    else if WildcardMoreSpecific(listener, route) then Some(listener)
    else None
  }

  lemma TailIs(n: string)
    requires IsWildcard(n)
    ensures Tail(n) == "." + TrimPrefix(n, "*.")
  {
  }

  /** More specific wildcards denote fewer hosts. */
  lemma MoreSpecificIsSubset(x: string, a: string, b: string)
    requires IsWildcard(a) && IsWildcard(b) && WildcardMoreSpecific(a, b) && InHost(x, a)
    ensures InHost(x, b)
  {
    TailIs(a);
    TailIs(b);
    var s := TrimPrefix(a, "*.");
    assert HasSuffix("." + s, s) by { assert ("." + s)[1..] == s; }
    SuffixTransitive("." + s, s, Tail(b));
    SuffixTransitive(x, Tail(a), Tail(b));
  }

  /** Two wildcards that share a host are equal or one is more specific. */
  lemma SharedHostNests(x: string, a: string, b: string)
    requires IsWildcard(a) && IsWildcard(b) && InHost(x, a) && InHost(x, b) && |a| <= |b|
    ensures a == b || WildcardMoreSpecific(b, a)
  {
    TailIs(a);
    TailIs(b);
    SuffixesNest(x, Tail(a), Tail(b));
    var s := TrimPrefix(b, "*.");
    if |a| == |b| {
      assert a == "*" + Tail(a) && b == "*" + Tail(b);
    } else {
      assert s[|s| - |Tail(a)|..] == Tail(b)[|Tail(b)| - |Tail(a)|..];
    }
  }

  /** The intersection is exact: the hosts of the result are the hosts of both, and no result means
      that no host is in both. */
  lemma IntersectionIsExact(route: string, listener: string, x: string)
    ensures var r := IntersectHostname(route, listener);
            InHost(x, NormalizeHost(route)) && InHost(x, NormalizeHost(listener)) <==> r.Some? && InHost(x, r.value)
  {
    hide NormalizeHost;
    var a, b := NormalizeHost(route), NormalizeHost(listener);
    if IsWildcard(a) { TailIs(a); }
    if IsWildcard(b) { TailIs(b); }
    if IsWildcard(a) && IsWildcard(b) && a != b {
      if InHost(x, a) && InHost(x, b) {
        if |a| <= |b| { SharedHostNests(x, a, b); } else { SharedHostNests(x, b, a); }
      }
      if WildcardMoreSpecific(a, b) && InHost(x, a) {
        MoreSpecificIsSubset(x, a, b);
      }
      if WildcardMoreSpecific(b, a) && InHost(x, b) {
        MoreSpecificIsSubset(x, b, a);
      }
    }
  }

  lemma IntersectionCommutes(route: string, listener: string)
    ensures IntersectHostname(route, listener) == IntersectHostname(listener, route)
  {
  }

  lemma HostInhabited(n: string) returns (x: string)
    ensures InHost(x, n)
  {
    x := if IsWildcard(n) then Tail(n) else n;
  }

  function AddNew(eff: seq<string>, hs: seq<string>): seq<string> {
    if hs == [] then eff
    else
      var e := AddNew(eff, hs[..|hs| - 1]);
      if hs[|hs| - 1] in e then e else e + [hs[|hs| - 1]]
  }

  lemma {:induction false} AddNewMember(eff: seq<string>, hs: seq<string>)
    ensures forall h :: h in AddNew(eff, hs) <==> h in eff || h in hs
    ensures Distinct(eff) ==> Distinct(AddNew(eff, hs))
  {
    if hs != [] {
      AddNewMember(eff, hs[..|hs| - 1]);
      assert hs == hs[..|hs| - 1] + [hs[|hs| - 1]];
    }
  }

  /** The hostnames common to a route and a listener; None when there are none. An empty list stands
      for all hosts. */
  function CommonHostnames(hostnames: seq<string>, listener: Option<string>): Option<seq<string>> {
    if listener.None? then Some(hostnames)
    else if hostnames == [] then Some([NormalizeHost(listener.value)])
    else
      var common := Common(hostnames, listener.value);
      if common == [] then None else Some(common)
  }

  function Common(hostnames: seq<string>, listener: string): seq<string> {
    if hostnames == [] then []
    else
      var before, r := Common(hostnames[..|hostnames| - 1], listener),
          IntersectHostname(hostnames[|hostnames| - 1], listener);
      if r.Some? && r.value !in before then before + [r.value] else before
  }

  method IntersectHostnames(hostnames: seq<string>, listener: Option<string>) returns (r: Option<seq<string>>)
    ensures r == CommonHostnames(hostnames, listener)
  {
    if listener.None? {
      return Some(hostnames);
    }
    if hostnames == [] {
      return Some([NormalizeHost(listener.value)]);
    }
    var seen: set<string> := {};
    var common := [];
    for i := 0 to |hostnames|
      invariant common == Common(hostnames[..i], listener.value)
      invariant forall h :: h in seen <==> h in common
    {
      assert hostnames[..i + 1][..i] == hostnames[..i];
      var h := IntersectHostname(hostnames[i], listener.value);
      if h.Some? && h.value !in seen {
        seen := seen + {h.value};
        common := common + [h.value];
      }
    }
    assert hostnames[..|hostnames|] == hostnames;
    r := if common == [] then None else Some(common);
  }

  // ----- Listeners -----

  datatype ProtocolType = HTTP | HTTPS | TLS | TCP | UnsupportedProtocolType

  datatype Operator = In | NotIn | Exists | DoesNotExist | UnknownOperator
  datatype Requirement = Requirement(key: string, op: Operator, values: seq<string>)
  datatype Selector = Selector(matchLabels: map<string, string>, expressions: seq<Requirement>)

  datatype FromNamespaces = Unset | All | Same | FromSelector(selector: Option<Selector>) | OtherFrom

  datatype KindRef = KindRef(group: Option<string>, kind: string)

  datatype Listener = Listener(
    name: string, port: int, protocol: ProtocolType, hostname: Option<string>,
    kinds: seq<KindRef>, from: FromNamespaces)

  datatype Gateway = Gateway(ns: string, name: string, listeners: seq<Listener>)

  predicate DefaultKind(protocol: ProtocolType, routeKind: string) {
    match protocol
    case HTTP => routeKind == HTTP_ROUTE || routeKind == GRPC_ROUTE
    case HTTPS => routeKind == HTTP_ROUTE || routeKind == GRPC_ROUTE
    case TLS => routeKind == TLS_ROUTE
    case TCP => routeKind == TCP_ROUTE
    case UnsupportedProtocolType => false
  }

  predicate KindAllowed(l: Listener, routeKind: string) {
    if l.kinds == [] then DefaultKind(l.protocol, routeKind)
    else exists k <- l.kinds :: k.kind == routeKind && OrElse(k.group, "") in ["", GATEWAY_GROUP]
  }

  /** A missing label reads as the empty string. */
  predicate LabelsMatch(required: map<string, string>, labels: map<string, string>) {
    forall k <- required :: (if k in labels then labels[k] else "") == required[k]
  }

  predicate Meets(r: Requirement, labels: map<string, string>) {
    match r.op
    case In => r.key in labels && labels[r.key] in r.values
    case NotIn => !(r.key in labels && labels[r.key] in r.values)
    case Exists => r.key in labels
    case DoesNotExist => r.key !in labels
    case UnknownOperator => true
  }

  predicate SelectorMatches(s: Selector, labels: map<string, string>) {
    LabelsMatch(s.matchLabels, labels) && forall r <- s.expressions :: Meets(r, labels)
  }

  /** What a label selector means in Kubernetes: a required label has to be there. */
  predicate KubernetesMatches(s: Selector, labels: map<string, string>) {
    && (forall k <- s.matchLabels :: k in labels && labels[k] == s.matchLabels[k])
    && forall r <- s.expressions :: Meets(r, labels)
  }

  /** An empty required value accepts a namespace that lacks the label. */
  lemma EmptyValueAcceptsMissingLabel()
    ensures var s := Selector(map["team" := ""], []); SelectorMatches(s, map[]) && !KubernetesMatches(s, map[])
  {
    assert "team" in map["team" := ""];
  }

  /** That is the only difference: the two readings agree exactly when no label required to be empty is
      missing, or the selector fails on other grounds anyway. */
  lemma SelectorAgreesIff(s: Selector, labels: map<string, string>)
    ensures SelectorMatches(s, labels) == KubernetesMatches(s, labels) <==>
            (forall k <- s.matchLabels :: s.matchLabels[k] == "" ==> k in labels)
            || (exists k <- s.matchLabels :: (if k in labels then labels[k] else "") != s.matchLabels[k])
            || (exists r <- s.expressions :: !Meets(r, labels))
  {
  }

  /** None when the Namespace has to be read and cannot be. */
  function NamespaceAllowed(l: Listener, gwNs: string, routeNs: string,
                            labels: Option<map<string, string>>): Option<bool> {
    match l.from
    case Unset => Some(gwNs == routeNs)
    case All => Some(true)
    case Same => Some(gwNs == routeNs)
    case OtherFrom => Some(false)
    case FromSelector(s) =>
      if s.None? then Some(true)
      else if labels.None? then None
      else Some(SelectorMatches(s.value, labels.value))
  }

  predicate ReferencesGateway(ref: ParentRef, gw: Gateway, routeNs: string) {
    && OrElse(ref.group, GATEWAY_GROUP) == GATEWAY_GROUP
    && OrElse(ref.kind, "Gateway") == "Gateway"
    && ref.name == gw.name && OrElse(ref.ns, routeNs) == gw.ns
  }

  predicate SelectsListener(refs: seq<ParentRef>, gw: Gateway, l: Listener, routeNs: string) {
    exists ref <- refs ::
      && ReferencesGateway(ref, gw, routeNs)
      && (ref.section.Some? ==> ref.section.value == l.name)
      && (ref.port.Some? ==> ref.port.value == l.port)
  }

  /** What attachment depends on besides the listener. */
  datatype Request = Request(gw: Gateway, refs: seq<ParentRef>, routeNs: string, routeKind: string,
                             hostnames: seq<string>, labels: Option<map<string, string>>)

  predicate Selected(q: Request, l: Listener) {
    SelectsListener(q.refs, q.gw, l, q.routeNs) && KindAllowed(l, q.routeKind)
  }

  function Allowed(q: Request, l: Listener): Option<bool> {
    NamespaceAllowed(l, q.gw.ns, q.routeNs, q.labels)
  }

  /** Effective hostnames and whether the route attaches; None when the Namespace cannot be read. */
  datatype Attached = Attached(hostnames: seq<string>, attaches: bool)

  function AttachFrom(q: Request, listeners: seq<Listener>, eff: seq<string>): Option<Attached> {
    if listeners == [] then Some(Attached(eff, eff != []))
    else
      var l, rest := listeners[0], listeners[1..];
      if !Selected(q, l) then AttachFrom(q, rest, eff)
      else
        var allowed := Allowed(q, l);
        if allowed.None? then None
        else if !allowed.value then AttachFrom(q, rest, eff)
        else
          var common := CommonHostnames(q.hostnames, l.hostname);
          if common.None? then AttachFrom(q, rest, eff)
          else if common.value == [] then Some(Attached([], true))
          else AttachFrom(q, rest, AddNew(eff, common.value))
  }

  function Attach(q: Request): Option<Attached> {
    AttachFrom(q, q.gw.listeners, [])
  }

  method RouteAttachmentHostnames(q: Request) returns (r: Option<Attached>)
    ensures r == Attach(q)
  {
    hide Selected, Allowed, CommonHostnames;
    var seen: set<string> := {};
    var effective := [];
    var listeners := q.gw.listeners;
    assert listeners[0..] == listeners;
    for i := 0 to |listeners|
      invariant Attach(q) == AttachFrom(q, listeners[i..], effective)
      invariant forall h :: h in seen <==> h in effective
    {
      var l := listeners[i];
      assert listeners[i..][0] == l && listeners[i..][1..] == listeners[i + 1..];
      if !Selected(q, l) {
        continue;
      }
      var allowed := Allowed(q, l);
      if allowed.None? {
        return None;
      }
      if !allowed.value {
        continue;
      }
      var common := IntersectHostnames(q.hostnames, l.hostname);
      if common.None? {
        continue;
      }
      if common.value == [] {
        return Some(Attached([], true));
      }
      ghost var before := effective;
      for j := 0 to |common.value|
        invariant effective == AddNew(before, common.value[..j])
        invariant forall h :: h in seen <==> h in effective
      {
        assert common.value[..j + 1][..j] == common.value[..j];
        var h := common.value[j];
        if h !in seen {
          seen := seen + {h};
          effective := effective + [h];
        }
      }
      assert common.value[..|common.value|] == common.value;
    }
    r := Some(Attached(effective, effective != []));
  }

  // ----- Attachment is a union of intersections -----

  predicate InSome(x: string, hs: seq<string>) {
    exists h <- hs :: InHost(x, NormalizeHost(h))
  }

  /** The hosts of a route; no hostname means all. */
  predicate RouteServes(q: Request, x: string) {
    q.hostnames == [] || InSome(x, q.hostnames)
  }

  predicate ListenerServes(l: Listener, x: string) {
    l.hostname.None? || InHost(x, NormalizeHost(l.hostname.value))
  }

  /** The route may use this listener. */
  predicate Eligible(q: Request, l: Listener) {
    Selected(q, l) && Allowed(q, l) == Some(true)
  }

  predicate Served(q: Request, listeners: seq<Listener>, x: string) {
    exists l <- listeners :: Eligible(q, l) && ListenerServes(l, x) && RouteServes(q, x)
  }

  /** Hostnames that normalise in one step, as API validation guarantees. */
  ghost predicate StableNames(q: Request) {
    && (forall h <- q.hostnames :: NormalizeHost(NormalizeHost(h)) == NormalizeHost(h))
    && (forall l <- q.gw.listeners :: l.hostname.Some? ==>
         NormalizeHost(NormalizeHost(l.hostname.value)) == NormalizeHost(l.hostname.value))
  }

  lemma {:induction false} CommonMeaning(hostnames: seq<string>, listener: string, x: string)
    requires forall h <- hostnames :: NormalizeHost(NormalizeHost(h)) == NormalizeHost(h)
    requires NormalizeHost(NormalizeHost(listener)) == NormalizeHost(listener)
    ensures InSome(x, Common(hostnames, listener)) <==> InSome(x, hostnames) && InHost(x, NormalizeHost(listener))
  {
    hide NormalizeHost, InHost, IntersectHostname;
    if hostnames != [] {
      var front, h := hostnames[..|hostnames| - 1], hostnames[|hostnames| - 1];
      assert hostnames == front + [h];
      CommonMeaning(front, listener, x);
      IntersectionIsExact(h, listener, x);
      ResultNormal(h, listener);
      assert InSome(x, hostnames) <==> InSome(x, front) || InHost(x, NormalizeHost(h)) by {
        assert h in hostnames;
      }
      var before, r := Common(front, listener), IntersectHostname(h, listener);
      if r.Some? {
        assert r.value in Common(hostnames, listener);
        assert InSome(x, Common(hostnames, listener)) <==> InSome(x, before) || InHost(x, r.value);
      }
    }
  }

  lemma ResultNormal(route: string, listener: string)
    ensures var r := IntersectHostname(route, listener);
            r.Some? ==> r.value == NormalizeHost(route) || r.value == NormalizeHost(listener)
  {
  }

  lemma CommonHostnamesMeaning(q: Request, l: Listener, x: string)
    requires StableNames(q) && l in q.gw.listeners
    ensures var c := CommonHostnames(q.hostnames, l.hostname);
            RouteServes(q, x) && ListenerServes(l, x) <==> c.Some? && (c.value == [] || InSome(x, c.value))
  {
    hide NormalizeHost, InHost;
    if l.hostname.Some? && q.hostnames != [] {
      CommonMeaning(q.hostnames, l.hostname.value, x);
    } else if l.hostname.Some? {
      var n := NormalizeHost(l.hostname.value);
      assert InSome(x, [n]) <==> InHost(x, NormalizeHost([n][0])) by { assert n in [n]; }
    }
  }

  lemma {:induction false} AttachMeaning(q: Request, listeners: seq<Listener>, eff: seq<string>, x: string)
    requires StableNames(q) && (forall l <- listeners :: l in q.gw.listeners) && Distinct(eff)
    requires AttachFrom(q, listeners, eff).Some?
    ensures var r := AttachFrom(q, listeners, eff).value;
            && Distinct(r.hostnames) && (r.hostnames != [] ==> r.attaches)
            && (r.attaches && (r.hostnames == [] || InSome(x, r.hostnames)) <==>
                InSome(x, eff) || Served(q, listeners, x))
  {
    hide NormalizeHost, InHost, Selected, Allowed, CommonHostnames, RouteServes, ListenerServes;
    if listeners != [] {
      var l, rest := listeners[0], listeners[1..];
      assert listeners == [l] + rest && l in listeners;
      assert Served(q, listeners, x) <==>
             Served(q, rest, x) || (Eligible(q, l) && ListenerServes(l, x) && RouteServes(q, x));
      CommonHostnamesMeaning(q, l, x);
      var common := CommonHostnames(q.hostnames, l.hostname);
      if Eligible(q, l) && common.Some? {
        if common.value != [] {
          AddNewMember(eff, common.value);
          AddNewServes(eff, common.value, x);
          AttachMeaning(q, rest, AddNew(eff, common.value), x);
        }
      } else {
        AttachMeaning(q, rest, eff, x);
      }
    }
  }

  lemma AddNewServes(eff: seq<string>, hs: seq<string>, x: string)
    ensures InSome(x, AddNew(eff, hs)) <==> InSome(x, eff) || InSome(x, hs)
  {
  }

  /** The effective hostnames denote the union, over all eligible listeners, of route ∩ listener; an
      empty list with `attaches` denotes every host. Early return and deduplication change nothing. */
  lemma AttachmentIsUnion(q: Request, x: string)
    requires StableNames(q) && Attach(q).Some?
    ensures var r := Attach(q).value;
            && Distinct(r.hostnames)
            && (r.attaches && (r.hostnames == [] || InSome(x, r.hostnames)) <==> Served(q, q.gw.listeners, x))
  {
    hide StableNames;
    AttachMeaning(q, q.gw.listeners, [], x);
  }

  /** The route attaches exactly when it shares a host with some eligible listener. */
  lemma AttachesIff(q: Request)
    requires StableNames(q) && Attach(q).Some?
    ensures Attach(q).value.attaches <==> exists x :: Served(q, q.gw.listeners, x)
  {
    hide StableNames, Served, Attach;
    var r := Attach(q).value;
    if r.attaches {
      var x := "";
      if r.hostnames != [] {
        x := HostInhabited(NormalizeHost(r.hostnames[0]));
        assert r.hostnames[0] in r.hostnames;
      }
      AttachmentIsUnion(q, x);
    }
    if x :| Served(q, q.gw.listeners, x) {
      AttachmentIsUnion(q, x);
    }
  }

  /** Said on the objects: some parentRef names the Gateway and this listener. */
  ghost predicate Refers(q: Request, l: Listener) {
    exists ref <- q.refs ::
      && (ref.group.None? || ref.group.value == "gateway.networking.k8s.io")
      && (ref.kind.None? || ref.kind.value == "Gateway")
      && ref.name == q.gw.name && (if ref.ns.Some? then ref.ns.value else q.routeNs) == q.gw.ns
      && (ref.section.None? || ref.section.value == l.name) && (ref.port.None? || ref.port.value == l.port)
  }

  /** The listener takes routes of this kind. */
  ghost predicate TakesKind(l: Listener, kind: string) {
    if l.kinds == [] then
      || (l.protocol in {HTTP, HTTPS} && kind in {"HTTPRoute", "GRPCRoute"})
      || (l.protocol == TLS && kind == "TLSRoute") || (l.protocol == TCP && kind == "TCPRoute")
    else exists k <- l.kinds :: k.kind == kind
           && (k.group.None? || k.group.value == "" || k.group.value == "gateway.networking.k8s.io")
  }

  /** The listener takes routes of this Namespace: the Gateway's own unless it says otherwise, any, or those whose
      labels the selector accepts. */
  ghost predicate TakesNamespace(q: Request, l: Listener) {
    match l.from
    case Unset => q.routeNs == q.gw.ns
    case Same => q.routeNs == q.gw.ns
    case All => true
    case OtherFrom => false
    case FromSelector(s) =>
      s.None? || (q.labels.Some? && SelectorMatches(s.value, q.labels.value))
  }

  lemma EligibleIff(q: Request, l: Listener)
    ensures Eligible(q, l) <==> Refers(q, l) && TakesKind(l, q.routeKind) && TakesNamespace(q, l)
  {
    assert SelectsListener(q.refs, q.gw, l, q.routeNs) <==> Refers(q, l);
    assert KindAllowed(l, q.routeKind) <==> TakesKind(l, q.routeKind);
  }

  /** A route attaches exactly when it shares a host with a listener that one of its parentRefs selects and that takes
      routes of its kind and Namespace. */
  lemma AttachesExactly(q: Request)
    requires StableNames(q) && Attach(q).Some?
    ensures Attach(q).value.attaches <==>
            exists l <- q.gw.listeners, x ::
              && Refers(q, l) && TakesKind(l, q.routeKind) && TakesNamespace(q, l)
              && ListenerServes(l, x) && RouteServes(q, x)
  {
    hide StableNames, Attach, Refers, TakesKind, TakesNamespace, ListenerServes, RouteServes, Eligible;
    AttachesIff(q);
    forall l | l in q.gw.listeners
      ensures Eligible(q, l) <==> Refers(q, l) && TakesKind(l, q.routeKind) && TakesNamespace(q, l)
    {
      EligibleIff(q, l);
    }
    if x :| Served(q, q.gw.listeners, x) {
      var l :| l in q.gw.listeners && Eligible(q, l) && ListenerServes(l, x) && RouteServes(q, x);
    }
    if l, x :| l in q.gw.listeners && Eligible(q, l) && ListenerServes(l, x) && RouteServes(q, x) {
      assert Served(q, q.gw.listeners, x);
    }
  }

  /** In particular a route from another Namespace needs a listener that lets in more than the Gateway's own. */
  lemma OtherNamespaceNeedsConsent(q: Request)
    requires StableNames(q) && Attach(q).Some? && Attach(q).value.attaches && q.routeNs != q.gw.ns
    ensures exists l <- q.gw.listeners ::
              Refers(q, l) && (l.from.All? || (l.from.FromSelector? && TakesNamespace(q, l)))
  {
    hide StableNames, Attach, Refers, TakesKind, ListenerServes, RouteServes;
    AttachesExactly(q);
  }

  /** What selector requirements demand of a Namespace's labels. */
  lemma RequirementMeans(key: string, values: seq<string>, labels: map<string, string>)
    ensures Meets(Requirement(key, In, values), labels) <==> exists v <- values :: key in labels && labels[key] == v
    ensures Meets(Requirement(key, NotIn, values), labels) <==> forall v <- values :: key in labels ==> labels[key] != v
    ensures Meets(Requirement(key, Exists, values), labels) <==> key in labels
    ensures Meets(Requirement(key, DoesNotExist, values), labels) <==> key !in labels
  {
  }

  /** A hostname as hosts: a wildcard stands for whatever ends in its tail behind the star, another name for itself. */
  lemma InHostMeans(x: string, n: string)
    ensures "*." <= n ==> (InHost(x, n) <==> exists l :: x == l + "." + n[2..])
    ensures !("*." <= n) ==> (InHost(x, n) <==> x == n)
  {
    if IsWildcard(n) {
      assert Tail(n) == "." + n[2..];
      if InHost(x, n) {
        var l := x[..|x| - |Tail(n)|];
        assert x == l + ("." + n[2..]) == l + "." + n[2..];
      }
      if l :| x == l + "." + n[2..] {
        assert x[|x| - |Tail(n)|..] == "." + n[2..];
      }
    }
  }

  /** A route that attaches names the Gateway in some parentRef. */
  lemma {:induction false} AttachedNamesGateway(q: Request, listeners: seq<Listener>, eff: seq<string>)
    requires AttachFrom(q, listeners, eff).Some? && AttachFrom(q, listeners, eff).value.attaches && eff == []
    ensures exists ref <- q.refs :: ReferencesGateway(ref, q.gw, q.routeNs)
  {
    hide KindAllowed, Allowed, CommonHostnames, ReferencesGateway;
    if listeners != [] && !Selected(q, listeners[0]) {
      AttachedNamesGateway(q, listeners[1..], eff);
    } else if listeners != []
        && (Allowed(q, listeners[0]) == Some(false) || CommonHostnames(q.hostnames, listeners[0].hostname).None?) {
      AttachedNamesGateway(q, listeners[1..], eff);
    }
  }
}
