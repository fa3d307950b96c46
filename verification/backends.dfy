/** Resolution of route backendRefs: a memoised collection phase and the lookups that follow it. */
module Backends {
  import opened Text
  import opened Seqs
  import opened GatewayApi
  import opened OriginSettings

  const XBACKEND_GROUP := "gateway.networking.x-k8s.io"
  const XBACKEND_KIND := "XBackend"
  const SERVICE_KIND := "Service"

  // ----- The cluster -----

  datatype GrantFrom = GrantFrom(group: string, kind: string, ns: string)
  datatype GrantTo = GrantTo(group: string, kind: string, name: Option<string>)
  datatype Grant = Grant(from: seq<GrantFrom>, to: seq<GrantTo>)

  datatype Port = Port(number: int, protocol: string)

  datatype Protocol = ProtoHttp | ProtoHttp11 | ProtoHttp2 | ProtoGrpc | ProtoTcp | ProtoOther
  datatype TlsMode = ModeNone | ServerOnly | ClientAndServer | ModeOther
  datatype Validation = Validation(hostname: string, caRefs: nat, altNames: nat, wellKnown: Option<string>)
  datatype Tls = Tls(mode: TlsMode, validation: Option<Validation>)

  /** `external` is None unless the backend is of type ExternalHostname and names one. */
  datatype XBackend = XBackend(external: Option<string>, port: int, protocol: Option<Protocol>, tls: Option<Tls>)

  datatype Key = Key(ns: string, name: string)

  datatype Cluster = Cluster(grants: map<string, seq<Grant>>, services: map<Key, seq<Port>>,
                             xbackends: map<Key, XBackend>)

  // ----- ReferenceGrants -----

  predicate GroupMatches(grantGroup: string, want: string) {
    if want == "" then grantGroup == "" || grantGroup == "core" else grantGroup == want
  }

  predicate FromMatches(entries: seq<GrantFrom>, fromNs: string, fromKind: string) {
    exists f <- entries :: f.group == GATEWAY_GROUP && f.kind == fromKind && f.ns == fromNs
  }

  predicate ToMatches(entries: seq<GrantTo>, toGroup: string, toKind: string, toName: string) {
    exists t <- entries :: GroupMatches(t.group, toGroup) && t.kind ==
        toKind && (t.name == None || t.name == Some(toName))
  }

  /** Some one grant in the target namespace allows both ends of the reference. */
  predicate Granted(c: Cluster, fromNs: string, fromKind: string, toNs: string, toGroup: string, toKind: string,
                    toName: string) {
    toNs in c.grants &&
    exists g <- c.grants[toNs] :: FromMatches(g.from, fromNs, fromKind) && ToMatches(g.to, toGroup, toKind, toName)
  }

  // ----- Targets -----

  /** A backendRef with the defaults filled in; port 0 stands for an omitted port. */
  datatype Target = Target(routeNs: string, routeKind: string, group: string, kind: string, ns: string, name: string,
                           port: int) {
    predicate IsXBackend() { group == XBACKEND_GROUP && kind == XBACKEND_KIND }
    predicate IsService() { (group == "" || group == "core") && kind == SERVICE_KIND }
    function Permit(): PermitKey { PermitKey(routeNs, routeKind, ns, name) }
    function ObjectKey(): Key { Key(ns, name) }
  }

  datatype PermitKey = PermitKey(routeNs: string, routeKind: string, toNs: string, name: string)

  function TargetOf(routeNs: string, routeKind: string, r: ObjectRef): Target {
    Target(routeNs, routeKind, OrElse(r.group, ""), OrElse(r.kind, SERVICE_KIND), OrElse(r.ns, routeNs), r.name,
           OrElse(r.port, 0))
  }

  datatype Reason =
    | ResolvedOK | XBackendDisabled | UnsupportedKind | BackendNotFound | RefNotPermitted | IncompatibleRouteKind
    | UnsupportedProtocol | UnsupportedCACerts | UnsupportedTLSValidation | InvalidBackendPort

  function Severity(r: Reason): nat {
    match r
    case XBackendDisabled => 7
    case UnsupportedKind => 6
    case RefNotPermitted => 5
    case BackendNotFound => 4
    case IncompatibleRouteKind => 3
    case UnsupportedProtocol => 2
    case InvalidBackendPort => 2
    case UnsupportedCACerts => 1
    case UnsupportedTLSValidation => 1
    case ResolvedOK => 0
  }

  /** What a tunnel rule forwards to: a fixed status or a live origin. */
  datatype Service = HttpStatus(code: nat) | Url(scheme: string, host: string, port: int)

  // ----- XBackend translation -----

  datatype Translated = Served(service: Service, origin: Option<Origin>) | Refused(reason: Reason) {
    function Why(): Reason {
      if Served? then ResolvedOK else reason
    }
  }

  function EffectiveProtocol(xb: XBackend, routeKind: string): Protocol {
    OrElse(xb.protocol, if routeKind == TCP_ROUTE then ProtoTcp else ProtoHttp)
  }

  predicate UsesTls(xb: XBackend) {
    xb.tls.Some? && xb.tls.value.mode != ModeNone
  }

  function SchemeFor(xb: XBackend, proto: Protocol): string {
    if proto == ProtoTcp then "tcp" else if UsesTls(xb) then "https" else "http"
  }

  /** Why the TLS settings cannot be honoured, ResolvedOK when they can. */
  function TlsProblem(tls: Option<Tls>): Reason {
    if tls.None? then ResolvedOK
    else match tls.value.mode
      case ClientAndServer => UnsupportedProtocol
      case ServerOnly =>
        (match tls.value.validation
         case None => UnsupportedTLSValidation
         case Some(v) =>
           if v.caRefs > 0 then UnsupportedCACerts
           else if v.altNames > 0 || (v.wellKnown.Some? && v.wellKnown.value != "System") then UnsupportedTLSValidation
           else ResolvedOK)
      case ModeNone => ResolvedOK
      case ModeOther => ResolvedOK
  }

  /** The settings the protocol and TLS mode imply. */
  function ImpliedOrigin(xb: XBackend, proto: Protocol): Origin {
    var o := UNSET.(http2Origin := if proto == ProtoHttp2 || proto == ProtoGrpc then Some(true) else None);
    if xb.tls.Some? && xb.tls.value.mode == ServerOnly && xb.tls.value.validation.Some? then
      var h := xb.tls.value.validation.value.hostname;
      o.(matchSniToHost := Some(false), originServerName := NonEmpty(h))
    else o
  }

  predicate TransportFits(routeKind: string, scheme: string) {
    if routeKind == HTTP_ROUTE || routeKind == GRPC_ROUTE then scheme != "tcp"
    else if routeKind == TCP_ROUTE then scheme == "tcp"
    else if routeKind == TLS_ROUTE then scheme != "http"
    else true
  }

  /** An XBackend as a tunnel origin; route kind "" judges the backend on its own. */
  function TranslateXBackend(xb: XBackend, routeKind: string): Translated {
    if xb.external.None? then Refused(UnsupportedProtocol)
    else if xb.port < 1 || xb.port > 65535 then Refused(InvalidBackendPort)
    else
      var proto := EffectiveProtocol(xb, routeKind);
      if proto == ProtoOther then Refused(UnsupportedProtocol)
      else if !UsesTls(xb) && (proto == ProtoHttp2 || proto == ProtoGrpc) then Refused(UnsupportedProtocol)
      else if proto == ProtoTcp && UsesTls(xb) then Refused(UnsupportedProtocol)
      else if TlsProblem(xb.tls) != ResolvedOK then Refused(TlsProblem(xb.tls))
      else
        var scheme := SchemeFor(xb, proto);
        if !TransportFits(routeKind, scheme) then Refused(IncompatibleRouteKind)
        else
          var o := ImpliedOrigin(xb, proto);
          Served(Url(scheme, xb.external.value, xb.port), if o == UNSET then None else Some(o))
  }

  /** The Accepted condition is judged without a route kind, and never contradicts a route that is served. */
  lemma ServedImpliesAccepted(xb: XBackend, routeKind: string)
    ensures TranslateXBackend(xb, routeKind).Served? ==> TranslateXBackend(xb, "").Served?
  {
  }

  /** Being served by a route kind is being acceptable and fitting the transport, except that a TCPRoute
      reads an unset protocol as TCP, which rules TLS out. */
  lemma ServedIff(xb: XBackend, routeKind: string)
    ensures TranslateXBackend(xb, routeKind).Served? <==>
            && TranslateXBackend(xb, "").Served?
            && !(routeKind == TCP_ROUTE && xb.protocol.None? && UsesTls(xb))
            && TransportFits(routeKind, SchemeFor(xb, EffectiveProtocol(xb, routeKind)))
  {
  }

  /** Exactly which backends are served, field by field: an external hostname, a valid port, a known protocol, TLS that
      can be honoured and is there where HTTP/2 needs it, and a transport the route kind can hand on. */
  lemma ServedExactly(xb: XBackend, routeKind: string)
    ensures TranslateXBackend(xb, routeKind).Served? <==>
            var tls := xb.tls.Some? && xb.tls.value.mode != ModeNone;
            var tcp := xb.protocol == Some(ProtoTcp) || (xb.protocol.None? && routeKind == "TCPRoute");
            && xb.external.Some? && 1 <= xb.port <= 65535 && xb.protocol != Some(ProtoOther)
            && (xb.protocol == Some(ProtoHttp2) || xb.protocol == Some(ProtoGrpc) ==> tls) && !(tcp && tls)
            && (tls ==> xb.tls.value.mode != ClientAndServer)
            && (tls && xb.tls.value.mode == ServerOnly ==>
                 && xb.tls.value.validation.Some?
                 && var v := xb.tls.value.validation.value;
                    v.caRefs == 0 && v.altNames == 0 && (v.wellKnown.None? || v.wellKnown.value == "System"))
            && (routeKind == "HTTPRoute" || routeKind == "GRPCRoute" ==> !tcp)
            && (routeKind == "TCPRoute" ==> tcp)
            && (routeKind == "TLSRoute" ==> tls || tcp)
  {
    hide TranslateXBackend, TlsProblem, TransportFits, SchemeFor;
    ServedParts(xb, routeKind);
    TlsHonoured(xb);
    TransportHandedOn(xb, routeKind);
  }

  lemma ServedParts(xb: XBackend, routeKind: string)
    ensures var proto := EffectiveProtocol(xb, routeKind);
            TranslateXBackend(xb, routeKind).Served? <==>
            && xb.external.Some? && 1 <= xb.port <= 65535 && proto != ProtoOther
            && (proto == ProtoHttp2 || proto == ProtoGrpc ==> UsesTls(xb)) && !(proto == ProtoTcp && UsesTls(xb))
            && TlsProblem(xb.tls) == ResolvedOK && TransportFits(routeKind, SchemeFor(xb, proto))
  {
    hide TlsProblem, TransportFits, SchemeFor, ImpliedOrigin, EffectiveProtocol;
  }

  lemma TlsHonoured(xb: XBackend)
    ensures var tls := xb.tls.Some? && xb.tls.value.mode != ModeNone;
            TlsProblem(xb.tls) == ResolvedOK <==>
            && (tls ==> xb.tls.value.mode != ClientAndServer)
            && (tls && xb.tls.value.mode == ServerOnly ==>
                 && xb.tls.value.validation.Some?
                 && var v := xb.tls.value.validation.value;
                    v.caRefs == 0 && v.altNames == 0 && (v.wellKnown.None? || v.wellKnown.value == "System"))
  {
  }

  lemma TransportHandedOn(xb: XBackend, routeKind: string)
    ensures var tls, tcp := UsesTls(xb), EffectiveProtocol(xb, routeKind) == ProtoTcp;
            TransportFits(routeKind, SchemeFor(xb, EffectiveProtocol(xb, routeKind))) <==>
            && (routeKind == "HTTPRoute" || routeKind == "GRPCRoute" ==> !tcp)
            && (routeKind == "TCPRoute" ==> tcp)
            && (routeKind == "TLSRoute" ==> tls || tcp)
  {
  }

  /** What a served backend looks like: its own host and port, https exactly when it asks for TLS, tcp
      exactly for the TCP protocol, HTTP/2 exactly for the protocols that need it and only over TLS, and
      never mutual TLS. */
  lemma ServedShape(xb: XBackend, routeKind: string)
    requires TranslateXBackend(xb, routeKind).Served?
    ensures var t, proto := TranslateXBackend(xb, routeKind), EffectiveProtocol(xb, routeKind);
            && t.service.Url? && Some(t.service.host) == xb.external && t.service.port == xb.port
                && 1 <= xb.port <= 65535
            && (t.service.scheme == "https" <==> UsesTls(xb))
            && (t.service.scheme == "tcp" <==> proto == ProtoTcp)
            && ((t.origin.Some? && t.origin.value.http2Origin == Some(true)) <==>
                proto == ProtoHttp2 || proto == ProtoGrpc)
            && (proto == ProtoHttp2 || proto == ProtoGrpc ==> UsesTls(xb))
            && !(xb.tls.Some? && xb.tls.value.mode == ClientAndServer)
            && (t.origin.Some? ==> t.origin.value.noTlsVerify == None)
  {
  }

  /** A backend that asks for server verification is never downgraded. */
  lemma ServerOnlyIsVerified(xb: XBackend, routeKind: string)
    requires xb.tls.Some? && xb.tls.value.mode == ServerOnly && TranslateXBackend(xb, routeKind).Served?
    ensures var t := TranslateXBackend(xb, routeKind);
            && t.service.Url? && t.service.scheme == "https" && 1 <= t.service.port <= 65535
            && t.origin.Some? && t.origin.value.noTlsVerify == None && t.origin.value.matchSniToHost == Some(false)
            && xb.tls.value.validation.Some?
            && var h := xb.tls.value.validation.value.hostname;
               t.origin.value.originServerName == NonEmpty(h)
  {
  }

  // ----- Direct resolution: the reference -----

  /** Why a reference is refused, judged from the cluster alone. */
  function DirectReason(t: Target, c: Cluster, experimental: bool): Reason {
    if t.IsXBackend() then DirectXBackend(t, c, experimental).Why()
    else if t.IsService() then DirectService(t, c)
    else UnsupportedKind
  }

  predicate ServiceAllowed(t: Target, c: Cluster) {
    t.routeNs == t.ns || Granted(c, t.routeNs, t.routeKind, t.ns, "", SERVICE_KIND, t.name)
  }

  predicate XBackendAllowed(t: Target, c: Cluster) {
    t.routeNs == t.ns || Granted(c, t.routeNs, t.routeKind, t.ns, XBACKEND_GROUP, XBACKEND_KIND, t.name)
  }

  predicate ExposesTcp(ports: seq<Port>, number: int) {
    exists p <- ports :: p.number == number && (p.protocol == "" || p.protocol == "TCP")
  }

  function DirectService(t: Target, c: Cluster): Reason {
    if !ServiceAllowed(t, c) then RefNotPermitted
    else if t.ObjectKey() in c.services && ExposesTcp(c.services[t.ObjectKey()], t.port) then ResolvedOK
    else BackendNotFound
  }

  function DirectXBackend(t: Target, c: Cluster, experimental: bool): Translated {
    if !experimental then Refused(XBackendDisabled)
    else if !XBackendAllowed(t, c) then Refused(RefNotPermitted)
    else if t.port != 0 then Refused(InvalidBackendPort)
    else if t.ObjectKey() !in c.xbackends then Refused(BackendNotFound)
    else TranslateXBackend(c.xbackends[t.ObjectKey()], t.routeKind)
  }

  // ----- What the words above mean -----

  /** One grant in the Namespace has both a `from` entry for this kind and Namespace of routes and a `to` entry for the
      target. */
  ghost predicate HasGrant(c: Cluster, routeKind: string, routeNs: string, ns: string, groups: set<string>,
                           kind: string, name: string) {
    ns in c.grants && exists g <- c.grants[ns], f <- g.from, o <- g.to ::
      && f.group == "gateway.networking.k8s.io" && f.kind == routeKind && f.ns == routeNs
      && o.group in groups && o.kind == kind && (o.name.None? || o.name.value == name)
  }

  /** The Namespace a backendRef points into. */
  function RefNamespace(routeNs: string, r: ObjectRef): string {
    if r.ns.Some? then r.ns.value else routeNs
  }

  predicate NamesService(r: ObjectRef) {
    (r.group.None? || r.group.value in {"", "core"}) && (r.kind.None? || r.kind.value == "Service")
  }

  predicate NamesXBackend(r: ObjectRef) {
    r.group == Some("gateway.networking.x-k8s.io") && r.kind == Some("XBackend")
  }

  lemma GrantedMeans(c: Cluster, routeKind: string, routeNs: string, ns: string, name: string)
    ensures Granted(c, routeNs, routeKind, ns, "", SERVICE_KIND, name) <==>
            HasGrant(c, routeKind, routeNs, ns, {"", "core"}, "Service", name)
    ensures Granted(c, routeNs, routeKind, ns, XBACKEND_GROUP, XBACKEND_KIND, name) <==>
            HasGrant(c, routeKind, routeNs, ns, {"gateway.networking.x-k8s.io"}, "XBackend", name)
  {
  }

  /** A backendRef is refused as not permitted exactly when it leaves the route's Namespace without such a grant; for an
      XBackend provided the feature is on, for anything else never. */
  lemma NotPermittedIff(c: Cluster, experimental: bool, routeNs: string, routeKind: string, r: ObjectRef)
    ensures var reason, ns := DirectReason(TargetOf(routeNs, routeKind, r), c, experimental), RefNamespace(routeNs, r);
            reason == RefNotPermitted <==>
            || (NamesService(r) && ns != routeNs
                && !HasGrant(c, routeKind, routeNs, ns, {"", "core"}, "Service", r.name))
            || (NamesXBackend(r) && experimental && ns != routeNs
                && !HasGrant(c, routeKind, routeNs, ns, {"gateway.networking.x-k8s.io"}, "XBackend", r.name))
  {
    hide Granted, HasGrant;
    GrantedMeans(c, routeKind, routeNs, RefNamespace(routeNs, r), r.name);
    NeverNotPermitted(TargetOf(routeNs, routeKind, r), c);
  }

  lemma NeverNotPermitted(t: Target, c: Cluster)
    ensures t.ObjectKey() in c.xbackends ==>
              TranslateXBackend(c.xbackends[t.ObjectKey()], t.routeKind).Why() != RefNotPermitted
  {
  }

  // ----- The collection phase -----

  datatype SvcBackends = SvcBackends(ports: map<Key, seq<Port>>, permitted: map<PermitKey, bool>)
  datatype XbBackends = XbBackends(fetched: map<Key, XBackend>, permitted: map<PermitKey, bool>)

  function ResolveServiceRef(t: Target, col: Option<SvcBackends>): Reason {
    if col.None? then BackendNotFound
    else if t.routeNs != t.ns && !Lookup(col.value.permitted, t.Permit(), false) then RefNotPermitted
    else if ExposesTcp(Lookup(col.value.ports, t.ObjectKey(), []), t.port) then ResolvedOK
    else BackendNotFound
  }

  function ResolveXBackendRef(t: Target, col: Option<XbBackends>, experimental: bool): Translated {
    if !experimental || col.None? then Refused(XBackendDisabled)
    else if t.routeNs != t.ns && !Lookup(col.value.permitted, t.Permit(), false) then Refused(RefNotPermitted)
    else if t.port != 0 then Refused(InvalidBackendPort)
    else if t.ObjectKey() !in col.value.fetched then Refused(BackendNotFound)
    else TranslateXBackend(col.value.fetched[t.ObjectKey()], t.routeKind)
  }

  /** Everything recorded is true of the cluster, and nothing was dereferenced without permission. */
  ghost predicate SoundServices(col: SvcBackends, c: Cluster, targets: seq<Target>) {
    && (forall k <- col.permitted ::
         col.permitted[k] == Granted(c, k.routeNs, k.routeKind, k.toNs, "", SERVICE_KIND, k.name))
    && (forall k <- col.ports :: col.ports[k] == Lookup(c.services, k, []))
    && (forall k <- col.ports :: exists t <- targets :: t.IsService() && t.ObjectKey() == k && ServiceAllowed(t, c))
  }

  /** A Service target has been looked into as far as it is allowed to. */
  ghost predicate ServiceCovered(col: SvcBackends, c: Cluster, t: Target) {
    && (t.routeNs != t.ns ==> t.Permit() in col.permitted)
    && (ServiceAllowed(t, c) ==> t.ObjectKey() in col.ports)
  }

  /** `grantFails` and `getFails` say at which target the grant listing or the fetch fails. */
  method CollectServiceBackends(c: Cluster, targets: seq<Target>, grantFails: nat -> bool, getFails: nat -> bool)
    returns (r: Option<SvcBackends>)
    ensures r.None? ==> exists i: nat :: i < |targets| && (grantFails(i) || getFails(i))
    ensures r.Some? ==> SoundServices(r.value, c, targets)
    ensures r.Some? ==> forall t <- targets :: t.IsService() ==> ServiceCovered(r.value, c, t)
  {
    hide Granted, ServiceAllowed;
    var ports: map<Key, seq<Port>>, permitted: map<PermitKey, bool> := map[], map[];
    for i := 0 to |targets|
      invariant SoundServices(SvcBackends(ports, permitted), c, targets)
      invariant forall j :: 0 <= j < i && targets[j].IsService() ==>
                ServiceCovered(SvcBackends(ports, permitted), c, targets[j])
    {
      var t := targets[i];
      ghost var was := SvcBackends(ports, permitted);
      if !t.IsService() {
        continue;
      }
      if t.routeNs != t.ns {
        if t.Permit() !in permitted {
          if grantFails(i) {
            return None;
          }
          permitted := permitted[t.Permit() := Granted(c, t.routeNs, t.routeKind, t.ns, "", SERVICE_KIND, t.name)];
        }
        AllowedIsGranted(t, c);
        if !permitted[t.Permit()] {
          continue;
        }
      }
      AllowedIsGranted(t, c);
      if t.ObjectKey() in ports {
        continue;
      }
      if getFails(i) {
        return None;
      }
      ports := ports[t.ObjectKey() := Lookup(c.services, t.ObjectKey(), [])];
    }
    r := Some(SvcBackends(ports, permitted));
  }

  lemma AllowedIsGranted(t: Target, c: Cluster)
    ensures ServiceAllowed(t, c) <==>
            t.routeNs == t.ns || Granted(c, t.routeNs, t.routeKind, t.ns, "", SERVICE_KIND, t.name)
    ensures XBackendAllowed(t, c) <==>
            t.routeNs == t.ns || Granted(c, t.routeNs, t.routeKind, t.ns, XBACKEND_GROUP, XBACKEND_KIND, t.name)
  {
  }

  ghost predicate SoundXBackends(col: XbBackends, c: Cluster, targets: seq<Target>) {
    && (forall k <- col.permitted ::
         col.permitted[k] == Granted(c, k.routeNs, k.routeKind, k.toNs, XBACKEND_GROUP, XBACKEND_KIND, k.name))
    && (forall k <- col.fetched :: k in c.xbackends && col.fetched[k] == c.xbackends[k])
    && (forall k <- col.fetched :: exists t <- targets :: t.IsXBackend() && t.ObjectKey() == k && XBackendAllowed(t, c))
  }

  ghost predicate XBackendCovered(col: XbBackends, c: Cluster, t: Target) {
    && (t.routeNs != t.ns ==> t.Permit() in col.permitted)
    && (XBackendAllowed(t, c) && t.ObjectKey() in c.xbackends ==> t.ObjectKey() in col.fetched)
  }

  method CollectReferencedXBackends(c: Cluster, targets: seq<Target>, grantFails: nat -> bool, getFails: nat -> bool)
    returns (r: Option<XbBackends>)
    ensures r.None? ==> exists i: nat :: i < |targets| && (grantFails(i) || getFails(i))
    ensures r.Some? ==> SoundXBackends(r.value, c, targets)
    ensures r.Some? ==> forall t <- targets :: t.IsXBackend() ==> XBackendCovered(r.value, c, t)
  {
    hide Granted, XBackendAllowed;
    var fetched: map<Key, XBackend>, permitted: map<PermitKey, bool> := map[], map[];
    for i := 0 to |targets|
      invariant SoundXBackends(XbBackends(fetched, permitted), c, targets)
      invariant forall j :: 0 <= j < i && targets[j].IsXBackend() ==>
                XBackendCovered(XbBackends(fetched, permitted), c, targets[j])
    {
      var t := targets[i];
      if !t.IsXBackend() {
        continue;
      }
      if t.routeNs != t.ns {
        if t.Permit() !in permitted {
          if grantFails(i) {
            return None;
          }
          permitted := permitted[t.Permit() := Granted(c, t.routeNs, t.routeKind, t.ns, XBACKEND_GROUP,
                                                       XBACKEND_KIND, t.name)];
        }
        AllowedIsGranted(t, c);
        if !permitted[t.Permit()] {
          continue;
        }
      }
      AllowedIsGranted(t, c);
      if t.ObjectKey() in fetched {
        continue;
      }
      if getFails(i) {
        return None;
      }
      if t.ObjectKey() in c.xbackends {
        fetched := fetched[t.ObjectKey() := c.xbackends[t.ObjectKey()]];
      }
    }
    r := Some(XbBackends(fetched, permitted));
  }

  /** What a reconcile holds after collecting; the XBackend part only with the feature enabled. */
  ghost predicate Collected(c: Cluster, targets: seq<Target>, experimental: bool, svc: Option<SvcBackends>,
                            xb: Option<XbBackends>) {
    && svc.Some? && SoundServices(svc.value, c, targets)
    && (forall t <- targets :: t.IsService() ==> ServiceCovered(svc.value, c, t))
    && (experimental <==> xb.Some?)
    && (xb.Some? ==> SoundXBackends(xb.value, c, targets))
    && (xb.Some? ==> forall t <- targets :: t.IsXBackend() ==> XBackendCovered(xb.value, c, t))
  }

  function ResolveTargetReason(t: Target, xb: Option<XbBackends>, svc: Option<SvcBackends>,
                               experimental: bool): Reason {
    if t.IsXBackend() then ResolveXBackendRef(t, xb, experimental).Why()
    else if t.IsService() then ResolveServiceRef(t, svc)
    else UnsupportedKind
  }

  /** The memoised maps answer for every collected target what the cluster itself would: the outcome
      depends neither on the order of the targets nor on what else was collected. */
  lemma MemoisedIsDirect(c: Cluster, targets: seq<Target>, experimental: bool, svc: Option<SvcBackends>,
                         xb: Option<XbBackends>, t: Target)
    requires Collected(c, targets, experimental, svc, xb) && t in targets
    ensures t.IsXBackend() ==> ResolveXBackendRef(t, xb, experimental) == DirectXBackend(t, c, experimental)
    ensures t.IsService() ==> ResolveServiceRef(t, svc) == DirectService(t, c)
    ensures ResolveTargetReason(t, xb, svc, experimental) == DirectReason(t, c, experimental)
  {
  }

  // ----- Rules and status -----

  /** The resolver handed to the rule builders: None declines, leaving the reference to the native
      in-cluster URL; a refused claim becomes an error response. */
  function BackendResolver(t: Target, xb: Option<XbBackends>, svc: Option<SvcBackends>,
                           experimental: bool): Option<Translated> {
    if t.IsXBackend() then Some(ResolveXBackendRef(t, xb, experimental))
    else if !t.IsService() then Some(Refused(UnsupportedKind))
    else if ResolveServiceRef(t, svc) != ResolvedOK then Some(Refused(ResolveServiceRef(t, svc)))
    else None
  }

  function SchemeOf(routeKind: string): string {
    if routeKind == TCP_ROUTE then "tcp" else if routeKind == TLS_ROUTE then "https" else "http"
  }

  function DefaultPort(routeKind: string): int {
    if routeKind == TCP_ROUTE then 0 else if routeKind == TLS_ROUTE then 443 else 80
  }

  /** The service of one rule, decided by its first backendRef. */
  function ServiceOf(routeNs: string, routeKind: string, refs: seq<ObjectRef>,
                     resolve: Target -> Option<Translated>): (Service, Option<Origin>) {
    if refs == [] then (HttpStatus(503), None)
    else
      var t := TargetOf(routeNs, routeKind, refs[0]);
      match resolve(t)
      case Some(Refused(_)) => (HttpStatus(if routeKind == HTTP_ROUTE then 500 else 503), None)
      case Some(Served(s, o)) => (s, o)
      case None =>
        if refs[0].port.None? && routeKind == TCP_ROUTE then (HttpStatus(503), None)
        else (Url(SchemeOf(routeKind), t.name + "." + t.ns, OrElse(refs[0].port, DefaultPort(routeKind))), None)
  }

  function Resolver(xb: Option<XbBackends>, svc: Option<SvcBackends>,
                    experimental: bool): Target -> Option<Translated> {
    (t: Target) => BackendResolver(t, xb, svc, experimental)
  }

  /** The resolver that asks the cluster afresh each time. */
  function DirectResolver(c: Cluster, experimental: bool): Target -> Option<Translated> {
    (t: Target) =>
      if t.IsXBackend() then Some(DirectXBackend(t, c, experimental))
      else if !t.IsService() then Some(Refused(UnsupportedKind))
      else if DirectService(t, c) != ResolvedOK then Some(Refused(DirectService(t, c)))
      else None
  }

  function DirectReasons(c: Cluster, experimental: bool): Target -> Reason {
    (t: Target) => DirectReason(t, c, experimental)
  }

  /** API validation keeps Service ports in the TCP range. */
  ghost predicate ValidPorts(c: Cluster) {
    forall k <- c.services :: forall p <- c.services[k] :: 1 <= p.number <= 65535
  }

  /** A rule forwards to a live origin exactly when its first backendRef resolves; every other rule
      answers with an error. A native URL's port is a TCP port the Service exposes. */
  lemma LiveIffResolved(c: Cluster, targets: seq<Target>, experimental: bool, svc: Option<SvcBackends>,
                        xb: Option<XbBackends>,
                        routeNs: string, routeKind: string, refs: seq<ObjectRef>)
    requires Collected(c, targets, experimental, svc, xb) && ValidPorts(c)
    requires refs != [] && TargetOf(routeNs, routeKind, refs[0]) in targets
    ensures var t := TargetOf(routeNs, routeKind, refs[0]);
            var s := ServiceOf(routeNs, routeKind, refs, Resolver(xb, svc, experimental)).0;
            && (s.Url? <==> DirectReason(t, c, experimental) == ResolvedOK)
            && (s.HttpStatus? ==> s.code == if routeKind == HTTP_ROUTE then 500 else 503)
            && (t.IsService() && s.Url? ==>
                 s == Url(SchemeOf(routeKind), t.name + "." + t.ns, t.port) &&
                 t.ObjectKey() in c.services && ExposesTcp(c.services[t.ObjectKey()], s.port))
            && (t.IsXBackend() && s.Url? ==> t.ObjectKey() in c.xbackends && t.port == 0)
            && (t.IsXBackend() && s.Url? ==>
                 Served(s, ServiceOf(routeNs, routeKind, refs, Resolver(xb, svc, experimental)).1) ==
                 TranslateXBackend(c.xbackends[t.ObjectKey()], routeKind))
  {
    hide Granted, Collected;
    var t := TargetOf(routeNs, routeKind, refs[0]);
    MemoisedIsDirect(c, targets, experimental, svc, xb, t);
    TranslatedIsUrl(t, c, experimental);
    if t.IsService() && DirectService(t, c) == ResolvedOK {
      var p :| p in c.services[t.ObjectKey()] && p.number == t.port;
      assert t.port >= 1;
    }
  }

  lemma TranslatedIsUrl(t: Target, c: Cluster, experimental: bool)
    ensures var x := DirectXBackend(t, c, experimental); x.Served? ==> x.service.Url?
    ensures var x := DirectXBackend(t, c, experimental); x.Refused? ==> x.reason != ResolvedOK
  {
  }

  /** From the cluster to the rule, for a Service: the rule forwards to a live origin exactly when the reference stays
      in the route's Namespace or has its grant, and the Service exists and exposes the port over TCP; its URL follows
      from the kind of the route, the Service and that port. Otherwise the rule answers with an error. */
  lemma ServiceRuleIff(c: Cluster, targets: seq<Target>, experimental: bool, svc: Option<SvcBackends>,
                       xb: Option<XbBackends>, routeNs: string, routeKind: string, refs: seq<ObjectRef>)
    requires Collected(c, targets, experimental, svc, xb) && ValidPorts(c)
    requires refs != [] && TargetOf(routeNs, routeKind, refs[0]) in targets && NamesService(refs[0])
    ensures var r, ns := refs[0], RefNamespace(routeNs, refs[0]);
            var s := ServiceOf(routeNs, routeKind, refs, Resolver(xb, svc, experimental)).0;
            if && (ns == routeNs || HasGrant(c, routeKind, routeNs, ns, {"", "core"}, "Service", r.name))
               && r.port.Some? && Key(ns, r.name) in c.services
               && exists p <- c.services[Key(ns, r.name)] ::
                    p.number == r.port.value && (p.protocol == "" || p.protocol == "TCP")
            then
              var scheme :=
                if routeKind == "TCPRoute" then "tcp" else if routeKind == "TLSRoute" then "https" else "http";
              s == Url(scheme, r.name + "." + ns, r.port.value)
            else s == HttpStatus(if routeKind == "HTTPRoute" then 500 else 503)
  {
    hide Granted, Collected, HasGrant;
    var t := TargetOf(routeNs, routeKind, refs[0]);
    LiveIffResolved(c, targets, experimental, svc, xb, routeNs, routeKind, refs);
    GrantedMeans(c, routeKind, routeNs, RefNamespace(routeNs, refs[0]), refs[0].name);
    AllowedIsGranted(t, c);
    ServiceReason(t, c, experimental);
    if t.ObjectKey() in c.services && ExposesTcp(c.services[t.ObjectKey()], t.port) {
      var p :| p in c.services[t.ObjectKey()] && p.number == t.port;
      assert t.port >= 1;
    }
  }

  lemma ServiceReason(t: Target, c: Cluster, experimental: bool)
    requires t.IsService()
    ensures DirectReason(t, c, experimental) == ResolvedOK <==>
            ServiceAllowed(t, c) && t.ObjectKey() in c.services && ExposesTcp(c.services[t.ObjectKey()], t.port)
  {
  }

  /** No rule forwards into another Namespace without a grant for the reference. */
  lemma LiveIsGranted(c: Cluster, targets: seq<Target>, experimental: bool, svc: Option<SvcBackends>,
                      xb: Option<XbBackends>, routeNs: string, routeKind: string, refs: seq<ObjectRef>)
    requires Collected(c, targets, experimental, svc, xb) && ValidPorts(c)
    requires refs != [] && TargetOf(routeNs, routeKind, refs[0]) in targets
    requires ServiceOf(routeNs, routeKind, refs, Resolver(xb, svc, experimental)).0.Url?
    ensures var r, ns := refs[0], RefNamespace(routeNs, refs[0]);
            ns != routeNs ==>
              || (NamesService(r) && HasGrant(c, routeKind, routeNs, ns, {"", "core"}, "Service", r.name))
              || (NamesXBackend(r) && experimental
                  && HasGrant(c, routeKind, routeNs, ns, {"gateway.networking.x-k8s.io"}, "XBackend", r.name))
  {
    hide Granted, Collected, HasGrant, TranslateXBackend;
    LiveIffResolved(c, targets, experimental, svc, xb, routeNs, routeKind, refs);
    NotPermittedIff(c, experimental, routeNs, routeKind, refs[0]);
    DisabledReason(TargetOf(routeNs, routeKind, refs[0]), c, experimental);
  }

  lemma DisabledReason(t: Target, c: Cluster, experimental: bool)
    ensures t.IsXBackend() && !experimental ==> DirectReason(t, c, experimental) == XBackendDisabled
    ensures !t.IsXBackend() && !t.IsService() ==> DirectReason(t, c, experimental) == UnsupportedKind
  {
  }

  /** A backendRef the resolver leaves alone becomes the in-cluster URL, on the default port of its kind of route; a
      TCPRoute has none. No backendRef is an error. */
  lemma NativeUrl(routeNs: string, routeKind: string, refs: seq<ObjectRef>, resolve: Target -> Option<Translated>)
    requires refs != [] ==> resolve(TargetOf(routeNs, routeKind, refs[0])).None?
    ensures var s := ServiceOf(routeNs, routeKind, refs, resolve).0;
            if refs == [] || (routeKind == "TCPRoute" && refs[0].port.None?) then s == HttpStatus(503)
            else
              var host, given := refs[0].name + "." + RefNamespace(routeNs, refs[0]), refs[0].port;
              if routeKind == "TCPRoute" then s == Url("tcp", host, given.value)
              else if routeKind == "TLSRoute" then s == Url("https", host, if given.Some? then given.value else 443)
              else s == Url("http", host, if given.Some? then given.value else 80)
  {
  }

  function Reasons(routeNs: string, routeKind: string, refs: seq<ObjectRef>, reason: Target -> Reason): seq<Reason> {
    seq(|refs|, i requires 0 <= i < |refs| => reason(TargetOf(routeNs, routeKind, refs[i])))
  }

  /** A route's ResolvedRefs reason: the most severe one, the earliest among equals. */
  method RouteResolvedRefs(routeNs: string, routeKind: string, refs: seq<ObjectRef>, reason: Target -> Reason)
    returns (worst: Reason)
    ensures worst == Worst(Reasons(routeNs, routeKind, refs, reason))
  {
    worst := ResolvedOK;
    ghost var all := Reasons(routeNs, routeKind, refs, reason);
    for i := 0 to |refs|
      invariant worst == Worst(all[..i])
    {
      assert all[..i + 1][..i] == all[..i];
      var r := reason(TargetOf(routeNs, routeKind, refs[i]));
      if Severity(r) > Severity(worst) {
        worst := r;
      }
    }
    assert all[..|refs|] == all;
  }

  function Worst(rs: seq<Reason>): Reason {
    if rs == [] then ResolvedOK
    else var w := Worst(rs[..|rs| - 1]); if Severity(rs[|rs| - 1]) > Severity(w) then rs[|rs| - 1] else w
  }

  /** Which failure a route reports when there are several: a disabled feature before an unsupported kind, before a
      missing permission, before a missing backend, before a route kind that does not fit, before protocol and port
      problems, before TLS problems. */
  lemma WorstIsRanked(rs: seq<Reason>)
    ensures Worst(rs) == XBackendDisabled <==> XBackendDisabled in rs
    ensures Worst(rs) == UnsupportedKind <==> UnsupportedKind in rs && XBackendDisabled !in rs
    ensures Worst(rs) == RefNotPermitted <==>
            RefNotPermitted in rs && XBackendDisabled !in rs && UnsupportedKind !in rs
    ensures Worst(rs) == BackendNotFound <==>
            && BackendNotFound in rs
            && forall r <- rs :: r !in {XBackendDisabled, UnsupportedKind, RefNotPermitted}
    ensures Worst(rs) == IncompatibleRouteKind <==>
            && IncompatibleRouteKind in rs
            && forall r <- rs :: r !in {XBackendDisabled, UnsupportedKind, RefNotPermitted, BackendNotFound}
    ensures Worst(rs) in {UnsupportedProtocol, InvalidBackendPort} <==>
            && (UnsupportedProtocol in rs || InvalidBackendPort in rs)
            && forall r <- rs :: r !in {XBackendDisabled, UnsupportedKind, RefNotPermitted, BackendNotFound,
                                        IncompatibleRouteKind}
  {
    hide Worst;
    WorstMeaning(rs);
    assert forall r: Reason :: Severity(r) == 0 <==> r == ResolvedOK;
  }

  /** Among equally severe failures the first one is reported. */
  lemma {:induction false} WorstIsFirst(rs: seq<Reason>)
    requires Worst(rs) != ResolvedOK
    ensures exists i :: 0 <= i < |rs| && rs[i] == Worst(rs) && forall j :: 0 <= j < i ==>
              Severity(rs[j]) < Severity(Worst(rs))
  {
    var n := |rs| - 1;
    var front, w := rs[..n], Worst(rs[..n]);
    if Severity(rs[n]) > Severity(w) {
      WorstMeaning(front);
      forall j | 0 <= j < n ensures Severity(rs[j]) < Severity(rs[n]) {
        assert front[j] == rs[j] && front[j] in front;
      }
    } else {
      WorstIsFirst(front);
      var i :| 0 <= i < n && front[i] == w && forall j :: 0 <= j < i ==> Severity(front[j]) < Severity(w);
      assert rs[i] == w && forall j :: 0 <= j < i ==> rs[j] == front[j];
    }
  }

  /** Status is OK exactly when every reference resolves; otherwise it reports one of the actual
      failures, and none is more severe. */
  lemma {:induction false} WorstMeaning(rs: seq<Reason>)
    ensures Worst(rs) == ResolvedOK <==> forall r <- rs :: r == ResolvedOK
    ensures Worst(rs) != ResolvedOK ==> Worst(rs) in rs
    ensures forall r <- rs :: Severity(r) <= Severity(Worst(rs))
  {
    if rs != [] {
      var front, r := rs[..|rs| - 1], rs[|rs| - 1];
      WorstMeaning(front);
      assert rs == front + [r] && r in rs;
      assert Severity(r) == 0 <==> r == ResolvedOK;
      assert Worst(front) != ResolvedOK ==> Worst(front) in rs;
    }
  }
}
