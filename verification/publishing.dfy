/** From routes and listeners to DNS records: which names a Gateway publishes. */
module Publishing {
  import opened Text
  import opened Seqs
  import opened GatewayApi
  import opened DnsStore
  import opened DnsPlan
  import opened DnsReconcile
  import opened Watch
  import opened Serving
  import A = Attachment

  // ----- Effective hostnames, name by name -----

  lemma {:induction false} CommonMember(hostnames: seq<string>, listener: string, n: string)
    ensures n in A.Common(hostnames, listener) <==> exists h <- hostnames :: A.IntersectHostname(h, listener) == Some(n)
  {
    hide A.IntersectHostname;
    if hostnames != [] {
      var front, h := hostnames[..|hostnames| - 1], hostnames[|hostnames| - 1];
      assert hostnames == front + [h];
      CommonMember(front, listener, n);
    }
  }

  /** The listener contributes this hostname. */
  predicate Gives(q: A.Request, l: A.Listener, n: string) {
    && A.Eligible(q, l) && A.CommonHostnames(q.hostnames, l.hostname).Some?
    && n in A.CommonHostnames(q.hostnames, l.hostname).value
  }

  /** Route and listener leave the host open, so that all hosts are served and no name is known. */
  predicate Open(q: A.Request, listeners: seq<A.Listener>) {
    q.hostnames == [] && exists l <- listeners :: A.Eligible(q, l) && l.hostname.None?
  }

  lemma {:induction false} EffectiveMember(q: A.Request, listeners: seq<A.Listener>, eff: seq<string>, n: string)
    requires A.AttachFrom(q, listeners, eff).Some?
    ensures var r := A.AttachFrom(q, listeners, eff).value;
            && (r.hostnames != [] ==> r.attaches)
            && (n in r.hostnames <==> !Open(q, listeners) && (n in eff || exists l <- listeners :: Gives(q, l, n)))
  {
    hide A.Selected, A.Allowed, A.IntersectHostname, A.Common, A.NormalizeHost;
    if listeners != [] {
      var l, rest := listeners[0], listeners[1..];
      assert listeners == [l] + rest && l in listeners;
      var common := A.CommonHostnames(q.hostnames, l.hostname);
      if A.Eligible(q, l) && common.Some? {
        if common.value != [] {
          A.AddNewMember(eff, common.value);
          EffectiveMember(q, rest, A.AddNew(eff, common.value), n);
        }
      } else {
        EffectiveMember(q, rest, eff, n);
      }
    }
  }

  lemma IntersectConcrete(h: string, l: string, x: string)
    requires Proper(h) && Proper(l) && Proper(x) && !A.IsWildcard(x)
    ensures A.IntersectHostname(h, l) == Some(x) <==> A.InHost(x, h) && A.InHost(x, l) && (x == h || x == l)
  {
    hide A.NormalizeHost;
    if A.IsWildcard(h) {
      A.TailIs(h);
    }
    if A.IsWildcard(l) {
      A.TailIs(l);
    }
  }

  /** Route and listener agree on the concrete name, and one of them spells it out. */
  predicate PinsAt(q: A.Request, l: A.Listener, x: string) {
    && A.Eligible(q, l) && A.ListenerServes(l, x) && A.RouteServes(q, x)
    && (x in q.hostnames || l.hostname == Some(x))
  }

  predicate Pins(q: A.Request, x: string) {
    !Open(q, q.gw.listeners) && exists l <- q.gw.listeners :: PinsAt(q, l, x)
  }

  lemma GivesIff(q: A.Request, l: A.Listener, x: string)
    requires AllProper(q.hostnames) && (l.hostname.Some? ==> Proper(l.hostname.value))
    requires Proper(x) && !A.IsWildcard(x) && (q.hostnames == [] ==> l.hostname.Some? || !A.Eligible(q, l))
    ensures Gives(q, l, x) <==> PinsAt(q, l, x)
  {
    hide A.NormalizeHost, A.IntersectHostname, A.Eligible, A.InHost;
    assert A.InHost(x, x) by { SelfHost(x); }
    if l.hostname.Some? && q.hostnames != [] {
      CommonMember(q.hostnames, l.hostname.value, x);
      forall h | h in q.hostnames
        ensures A.IntersectHostname(h, l.hostname.value) == Some(x) <==>
                A.InHost(x, h) && A.InHost(x, l.hostname.value) && (x == h || x == l.hostname.value)
      {
        IntersectConcrete(h, l.hostname.value, x);
      }
    }
  }

  lemma SelfHost(x: string)
    requires !A.IsWildcard(x)
    ensures A.InHost(x, x)
  {
  }

  /** A concrete name is among a route's effective hostnames exactly when route and some eligible listener serve it and
      one of the two spells it out; wildcards alone name nothing. */
  lemma ConcreteEffectiveIff(q: A.Request, x: string)
    requires A.Attach(q).Some? && AllProper(q.hostnames) && ProperListeners(q.gw.listeners)
    requires Proper(x) && !A.IsWildcard(x)
    ensures A.Attach(q).value.attaches && x in A.Attach(q).value.hostnames <==> Pins(q, x)
  {
    hide A.NormalizeHost, A.AttachFrom, PinsAt, Gives, A.Eligible;
    EffectiveMember(q, q.gw.listeners, [], x);
    if !Open(q, q.gw.listeners) {
      forall l | l in q.gw.listeners ensures Gives(q, l, x) <==> PinsAt(q, l, x) {
        GivesIff(q, l, x);
      }
    }
  }

  // ----- The names of all attached routes -----

  function HostnamesOf(): Route -> seq<string> {
    (r: Route) => r.hostnames
  }

  /** TCPRoutes carry no hostnames. */
  function NamedRoutes(rs: Routes): seq<Route> {
    rs.http + rs.grpc + rs.tls
  }

  function NamesOf(rs: Routes): seq<string> {
    Joined(Map(NamedRoutes(rs), HostnamesOf()))
  }

  lemma {:induction false} JoinedMember(routes: seq<Route>, n: string)
    ensures n in Joined(Map(routes, HostnamesOf())) <==> exists r <- routes :: n in r.hostnames
  {
    if routes != [] {
      var front, r := routes[..|routes| - 1], routes[|routes| - 1];
      assert routes == front + [r];
      JoinedMember(front, n);
      assert Map(routes, HostnamesOf())[..|routes| - 1] == Map(front, HostnamesOf());
    }
  }

  /** The cluster's routes as listed and the attached ones. */
  ghost predicate AttachedTo(gw: A.Gateway, listed: Routes, labels: string -> Option<map<string, string>>, rs: Routes) {
    && AttachedFrom(gw, listed, labels, rs) && ProperListeners(gw.listeners) && Admitted(NamedRoutes(listed))
  }

  /** Names on which DNS and host normalisation have nothing to do. */
  ghost predicate CleanNames(gw: A.Gateway, listed: Routes) {
    && (forall s <- NamedRoutes(listed), h <- s.hostnames :: Normalize(h) == h)
    && forall l <- gw.listeners :: l.hostname.Some? ==> Normalize(l.hostname.value) == l.hostname.value
  }

  /** Some listed HTTP, gRPC or TLS route is served under this name. */
  ghost predicate Wanted(gw: A.Gateway, listed: Routes, labels: string -> Option<map<string, string>>, x: string) {
    exists s: Route ::
      (s in listed.http || s in listed.grpc || s in listed.tls) && Pins(RequestFor(gw, s, labels), x)
  }

  lemma AttachedNamed(gw: A.Gateway, listed: Routes, labels: string -> Option<map<string, string>>, rs: Routes,
                      r: Route)
    requires AttachedTo(gw, listed, labels, rs)
    ensures forall s <- NamedRoutes(listed) :: A.Attach(RequestFor(gw, s, labels)).Some?
    ensures r in NamedRoutes(rs) <==> exists s <- NamedRoutes(listed) ::
              A.Attach(RequestFor(gw, s, labels)).value.attaches && r == AsAttached(gw, s, labels)
  {
    hide A.Attach, AttachedRoutes, RequestFor, AllProper;
    assert forall s <- listed.http + listed.grpc + listed.tls :: s.kind != TCP_ROUTE;
    AttachedList(gw, listed.http, labels, r);
    AttachedList(gw, listed.grpc, labels, r);
    AttachedList(gw, listed.tls, labels, r);
  }

  lemma WantedIff(gw: A.Gateway, listed: Routes, labels: string -> Option<map<string, string>>, rs: Routes, x: string)
    requires AttachedTo(gw, listed, labels, rs) && Proper(x) && !A.IsWildcard(x)
    ensures x in NamesOf(rs) <==> Wanted(gw, listed, labels, x)
  {
    hide A.Attach, AttachedFrom, Pins, Proper, A.NormalizeHost, ProperListeners;
    JoinedMember(NamedRoutes(rs), x);
    forall s | s in NamedRoutes(listed)
      ensures A.Attach(RequestFor(gw, s, labels)).Some?
      ensures var at := A.Attach(RequestFor(gw, s, labels)).value;
              at.attaches && x in at.hostnames <==> Pins(RequestFor(gw, s, labels), x)
    {
      AttachedNamed(gw, listed, labels, rs, s);
      ConcreteEffectiveIff(RequestFor(gw, s, labels), x);
    }
    if r :| r in NamedRoutes(rs) && x in r.hostnames {
      AttachedNamed(gw, listed, labels, rs, r);
    }
    if s :| s in NamedRoutes(listed) && Pins(RequestFor(gw, s, labels), x) {
      AttachedNamed(gw, listed, labels, rs, AsAttached(gw, s, labels));
    }
  }

  /** Effective hostnames are hostnames of the route or of a listener. */
  lemma EffectiveOrigin(q: A.Request, n: string)
    requires A.Attach(q).Some? && AllProper(q.hostnames) && ProperListeners(q.gw.listeners)
    requires n in A.Attach(q).value.hostnames
    ensures n in q.hostnames || exists l <- q.gw.listeners :: l.hostname == Some(n)
  {
    hide A.NormalizeHost, A.AttachFrom, A.IntersectHostname, A.Eligible;
    EffectiveMember(q, q.gw.listeners, [], n);
    var l :| l in q.gw.listeners && Gives(q, l, n);
    if l.hostname.Some? && q.hostnames != [] {
      CommonMember(q.hostnames, l.hostname.value, n);
      var h :| h in q.hostnames && A.IntersectHostname(h, l.hostname.value) == Some(n);
      assert Proper(h);
      A.ResultNormal(h, l.hostname.value);
    }
  }

  lemma NamesAreClean(gw: A.Gateway, listed: Routes, labels: string -> Option<map<string, string>>, rs: Routes)
    requires AttachedTo(gw, listed, labels, rs) && CleanNames(gw, listed)
    ensures forall n <- NamesOf(rs) :: Normalize(n) == n
  {
    hide A.Attach, AttachedFrom, Proper, A.NormalizeHost, ProperListeners, Normalize;
    forall n | n in NamesOf(rs) ensures Normalize(n) == n {
      JoinedMember(NamedRoutes(rs), n);
      var r :| r in NamedRoutes(rs) && n in r.hostnames;
      AttachedNamed(gw, listed, labels, rs, r);
      var s :| s in NamedRoutes(listed) && A.Attach(RequestFor(gw, s, labels)).value.attaches
          && r == AsAttached(gw, s, labels);
      EffectiveOrigin(RequestFor(gw, s, labels), n);
    }
  }

  // ----- Records -----

  /** The Gateway publishes the name in the zone. */
  ghost predicate Published(s: Store, x: string, target: string, owner: string) {
    exists i <- s.records :: Listed(s.records[i]) == Record(i, x, target, true, owner)
  }

  ghost predicate OwnedName(s: Store, x: string, owner: string) {
    exists i <- s.records :: Normalize(s.records[i].name) == x && Owned(s.records[i], owner)
  }

  /** From routes and listeners to records and back: after a pass without an API failure a zone holds a record of the
      Gateway for a concrete name exactly when it is the name's longest-suffix zone, some listed route is served under
      the name, and no other owner holds it; and that record is proxied and points at the tunnel. */
  lemma PublishedIff(gw: A.Gateway, listed: Routes, labels: string -> Option<map<string, string>>, rs: Routes,
                     st: Stores, st': Stores, p: Pass, err: bool, tunnelId: string, x: string, k: nat)
    requires AttachedTo(gw, listed, labels, rs) && CleanNames(gw, listed)
    requires AllWellFormed(st) && PassRel(st, st', p, false, err)
    requires p.hostnames == Collected(NamesOf(rs)) && p.target == Normalize(tunnelId + TARGET_SUFFIX)
    requires Proper(x) && Normalize(x) == x && !A.IsWildcard(x) && k < |p.zones|
    ensures p.zones[k].id in st'
    ensures var s, owner := st'[p.zones[k].id], OwnerComment(p.uid);
            && (OwnedName(s, x, owner) <==>
                && MatchZone(x, p.zones) == Some(p.zones[k]) && Wanted(gw, listed, labels, x)
                && !HeldByOther(s, x, owner))
            && (OwnedName(s, x, owner) ==> Published(s, x, p.target, owner))
  {
    hide Normalize, MatchZone, OwnerComment, Collected, NamesOf, PassRel, AttachedTo, CleanNames, Wanted, Converged,
        A.NormalizeHost, HeldByOther, OwnedName, Published, WellFormed, Canonical;
    NamesAreClean(gw, listed, labels, rs);
    WantedIff(gw, listed, labels, rs, x);
    CollectedMeaning(NamesOf(rs));
    TargetStable(tunnelId);
    CleanPassConverges(st, st', p, err);
    PassIsSafe(st, st', p, false, err);
    RecordsIff(st', p, x, k);
  }

  /** Without zone matching: every concrete name some route is served under, and that is the name of a zone of the
      account or ends in one behind a dot, is published in one of these zones with the longest name or held by another
      owner there. */
  lemma SubdomainPublished(gw: A.Gateway, listed: Routes, labels: string -> Option<map<string, string>>, rs: Routes,
                           st: Stores, st': Stores, p: Pass, err: bool, tunnelId: string, x: string)
    requires AttachedTo(gw, listed, labels, rs) && CleanNames(gw, listed)
    requires AllWellFormed(st) && PassRel(st, st', p, false, err)
    requires p.hostnames == Collected(NamesOf(rs)) && p.target == Normalize(tunnelId + TARGET_SUFFIX)
    requires Proper(x) && Normalize(x) == x && !A.IsWildcard(x) && Wanted(gw, listed, labels, x)
    requires exists z <- p.zones :: z.name != "" && (x == z.name || exists l :: x == l + "." + z.name)
    ensures exists k :: 0 <= k < |p.zones| && p.zones[k].id in st'
                        && (x == p.zones[k].name || exists l :: x == l + "." + p.zones[k].name)
                        && (forall z <- p.zones | z.name != "" && (x == z.name || exists l :: x == l + "." + z.name) ::
                              |z.name| <= |p.zones[k].name|)
                        && (Published(st'[p.zones[k].id], x, p.target, OwnerComment(p.uid))
                            || HeldByOther(st'[p.zones[k].id], x, OwnerComment(p.uid)))
  {
    hide Normalize, MatchZone, OwnerComment, Collected, NamesOf, PassRel, AttachedTo, CleanNames, Wanted,
        A.NormalizeHost, HeldByOther, OwnedName, Published, WellFormed;
    ZoneFoundIff(x, p.zones);
    var k :| 0 <= k < |p.zones| && p.zones[k] == MatchZone(x, p.zones).value;
    PublishedIff(gw, listed, labels, rs, st, st', p, err, tunnelId, x, k);
  }

  /** In a converged account, by name and zone. */
  lemma RecordsIff(st: Stores, p: Pass, x: string, k: nat)
    requires AllWellFormed(st) && ValidZones(p.zones, st) && Converged(st, p) && Canonical(p.hostnames)
    requires Concrete(x) && k < |p.zones|
    ensures var s, owner := st[p.zones[k].id], OwnerComment(p.uid);
            && (OwnedName(s, x, owner) <==>
                MatchZone(x, p.zones) == Some(p.zones[k]) && x in p.hostnames && !HeldByOther(s, x, owner))
            && (OwnedName(s, x, owner) ==> Published(s, x, p.target, owner))
  {
    hide Normalize, MatchZone, OwnerComment, Converged, Canonical;
    var s, owner := st[p.zones[k].id], OwnerComment(p.uid);
    assert WellFormed(s);
    forall i | i in s.records && Normalize(s.records[i].name) == x && Owned(s.records[i], owner)
      ensures MatchZone(x, p.zones) == Some(p.zones[k]) && x in p.hostnames
      ensures Listed(s.records[i]) == Record(i, x, p.target, true, owner)
    {
      OwnedIsWanted(st, p, k, i);
    }
    if MatchZone(x, p.zones) == Some(p.zones[k]) && x in p.hostnames && !HeldByOther(s, x, owner) {
      HostnameServed(st, p, x, k);
    }
  }
}
