/** BackendTLSPolicies over TLS rules: which backend a hostname stands for, and whose configuration a rule ends
    up with. */
module BackendTls {
  import opened Text
  import opened Seqs
  import opened GatewayApi
  import opened OriginSettings
  import opened Policies
  import opened Origins
  import B = Backends
  import I = Ingress

  // ----- The policies -----

  datatype TlsPolicy = TlsPolicy(refs: seq<TargetRef>, hostname: string)

  predicate TargetsService(refs: seq<TargetRef>, name: string) {
    exists r <- refs :: (r.group == "" || r.group == "core") && r.kind == "Service" && r.name == name
  }

  /** The first matching policy decides; without one verification is off. */
  function TlsConfig(ps: seq<TlsPolicy>, name: string): Origin {
    if ps == [] then UNSET.(noTlsVerify := Some(true))
    else if TargetsService(ps[0].refs, name) then UNSET.(originServerName := NonEmpty(ps[0].hostname))
    else TlsConfig(ps[1..], name)
  }

  predicate FirstTargeting(ps: seq<TlsPolicy>, name: string, i: nat) {
    i < |ps| && TargetsService(ps[i].refs, name) && forall j :: 0 <= j < i ==> !TargetsService(ps[j].refs, name)
  }

  /** Verification is switched off exactly when no policy targets the Service; otherwise the server name is
      that of the first policy that does. */
  lemma {:induction false} TlsConfigMeaning(ps: seq<TlsPolicy>, name: string)
    ensures TlsConfig(ps, name).noTlsVerify == Some(true) <==> forall p <- ps :: !TargetsService(p.refs, name)
    ensures TlsConfig(ps, name).noTlsVerify != Some(true) ==>
              exists i: nat :: FirstTargeting(ps, name, i) &&
                TlsConfig(ps, name) == UNSET.(originServerName := NonEmpty(ps[i].hostname))
  {
    hide TargetsService;
    if ps != [] && TargetsService(ps[0].refs, name) {
      assert FirstTargeting(ps, name, 0);
    } else if ps != [] {
      var rest := ps[1..];
      TlsConfigMeaning(rest, name);
      assert ps == [ps[0]] + rest;
      if i: nat :|
        FirstTargeting(rest, name, i) &&
        TlsConfig(rest, name) == UNSET.(originServerName := NonEmpty(rest[i].hostname))
      {
        assert FirstTargeting(ps, name, i + 1);
      }
    }
  }

  method GetBackendTlsConfig(ps: seq<TlsPolicy>, name: string) returns (cfg: OriginRequest)
    ensures fresh(cfg) && cfg.Value() == TlsConfig(ps, name)
  {
    assert ps[0..] == ps;
    for i := 0 to |ps|
      invariant TlsConfig(ps, name) == TlsConfig(ps[i..], name)
    {
      if TargetsService(ps[i].refs, name) {
        cfg := new OriginRequest(UNSET.(originServerName := NonEmpty(ps[i].hostname)));
        return;
      }
      assert ps[i..][1..] == ps[i + 1..];
    }
    cfg := new OriginRequest(UNSET.(noTlsVerify := Some(true)));
  }

  datatype RuleKey = RuleKey(ns: string, name: string, index: nat)

  /** The first backendRef of one TLS route rule, and the hostnames it is registered under. */
  datatype Claim = Claim(key: RuleKey, hosts: seq<string>, ref: ObjectRef) {
    function Backend(): B.Key {
      B.Key(OrElse(ref.ns, key.ns), ref.name)
    }

    predicate External() {
      OrElse(ref.group, "") == B.XBACKEND_GROUP && OrElse(ref.kind, B.SERVICE_KIND) == B.XBACKEND_KIND
    }
  }

  /** The claim of rule k. */
  function ClaimFor(r: Route, k: nat): Claim
    requires k < |r.rules| && r.rules[k].refs != []
  {
    Claim(RuleKey(I.Namespace(r.ns), r.name, k), if r.hostnames == [] then [""] else r.hostnames, r.rules[k].refs[0])
  }

  function ClaimsUpTo(r: Route, n: nat): seq<Claim>
    requires n <= |r.rules|
  {
    if n == 0 then [] else ClaimsUpTo(r, n - 1) + (if r.rules[n - 1].refs == [] then [] else [ClaimFor(r, n - 1)])
  }

  function Claims(routes: seq<Route>): seq<Claim> {
    if routes == [] then []
    else var r := routes[|routes| - 1]; Claims(routes[..|routes| - 1]) + ClaimsUpTo(r, |r.rules|)
  }

  /** Rules whose backend is external, by identity. */
  predicate IsExternal(claims: seq<Claim>, key: RuleKey) {
    exists c <- claims :: c.External() && c.key == key
  }

  /** The backend a hostname stands for: the last Service claim naming it. */
  function HostBackend(claims: seq<Claim>, host: string): Option<B.Key> {
    if claims == [] then None
    else
      var c := claims[|claims| - 1];
      if !c.External() && host in c.hosts then Some(c.Backend()) else HostBackend(claims[..|claims| - 1], host)
  }

  method RegisterClaims(claims: seq<Claim>) returns (external: set<RuleKey>, byHost: map<string, B.Key>)
    ensures forall k :: k in external <==> IsExternal(claims, k)
    ensures forall h :: h in byHost <==> HostBackend(claims, h).Some?
    ensures forall h <- byHost :: HostBackend(claims, h) == Some(byHost[h])
  {
    external, byHost := {}, map[];
    for i := 0 to |claims|
      invariant forall k :: k in external <==> IsExternal(claims[..i], k)
      invariant forall h :: h in byHost <==> HostBackend(claims[..i], h).Some?
      invariant forall h <- byHost :: HostBackend(claims[..i], h) == Some(byHost[h])
    {
      var c := claims[i];
      assert claims[..i + 1][..i] == claims[..i] && claims[..i + 1] == claims[..i] + [c];
      if c.External() {
        external := external + {c.key};
        continue;
      }
      ghost var before := byHost;
      for j := 0 to |c.hosts|
        invariant forall h :: h in byHost <==> h in before || h in c.hosts[..j]
        invariant forall h <- byHost :: byHost[h] == if h in c.hosts[..j] then c.Backend() else before[h]
      {
        byHost := byHost[c.hosts[j] := c.Backend()];
        assert c.hosts[..j + 1] == c.hosts[..j] + [c.hosts[j]];
      }
      assert c.hosts[..|c.hosts|] == c.hosts;
    }
    assert claims[..|claims|] == claims;
  }

  /** The claims of all TLS routes, read off in one pass. */
  method CollectClaims(routes: seq<Route>) returns (claims: seq<Claim>)
    ensures claims == Claims(routes)
  {
    hide ClaimFor;
    claims := [];
    for i := 0 to |routes|
      invariant claims == Claims(routes[..i])
    {
      var r := routes[i];
      assert routes[..i + 1][..i] == routes[..i];
      ghost var before := claims;
      for ri := 0 to |r.rules|
        invariant claims == before + ClaimsUpTo(r, ri)
      {
        if r.rules[ri].refs == [] {
          continue;
        }
        claims := claims + [ClaimFor(r, ri)];
      }
    }
    assert routes[..|routes|] == routes;
  }

  function KeyOf(s: Slot): RuleKey {
    RuleKey(s.ns, s.name, s.index)
  }

  function PoliciesIn(ps: map<string, seq<TlsPolicy>>, ns: string): seq<TlsPolicy> {
    Lookup(ps, ns, [])
  }

  /** What a rule's settings become: external rules and unclaimed hostnames keep theirs. */
  function TlsOverride(claims: seq<Claim>, ps: map<string, seq<TlsPolicy>>, s: Slot, was: Origin): Origin {
    var b := HostBackend(claims, s.hostname);
    if IsExternal(claims, KeyOf(s)) || b.None? then was
    else TlsConfig(PoliciesIn(ps, b.value.ns), b.value.name)
  }

  /** Cached configurations: private objects with their backend's value. */
  ghost predicate ConfigsHold(cache: map<B.Key, OriginRequest>, ps: map<string, seq<TlsPolicy>>)
    reads set k <- cache :: cache[k]
  {
    forall k <- cache :: cache[k].Value() == TlsConfig(PoliciesIn(ps, k.ns), k.name)
  }

  lemma NoConfigs(ps: map<string, seq<TlsPolicy>>)
    ensures ConfigsHold(map[], ps)
  {
  }

  /** `listFails` says for which backend the policies cannot be listed; the pass is then given up. */
  method ApplyBackendTlsPolicies(ps: map<string, seq<TlsPolicy>>, routes: seq<Route>, a: array<Slot>,
                                 listFails: B.Key -> bool)
    returns (ok: bool)
    requires Separate(a)
    modifies a
    ensures Separate(a) && Headers(a) == old(Headers(a)) && fresh(Objects(a) - old(Objects(a)))
    ensures ok ==> forall i :: 0 <= i < a.Length ==>
              Values(a)[i] == TlsOverride(Claims(routes), ps, Headers(a)[i], old(Values(a))[i])
    ensures ok ==> forall i :: 0 <= i < a.Length && IsExternal(Claims(routes), KeyOf(a[i])) ==> a[i] == old(a[i])
    ensures ok || exists k :: listFails(k)
  {
    hide IsExternal, HostBackend, TlsConfig, Claims, TlsOverride, ConfigsHold, Headers, Values, Separate, KeyOf,
        OverriddenUpTo;
    var claims := CollectClaims(routes);
    var external, byHost := RegisterClaims(claims);
    var cache: map<B.Key, OriginRequest> := map[];
    ghost var hs, vs := Headers(a), Values(a);
    NoConfigs(ps);
    OverriddenEnds(claims, ps, hs, vs);
    for i := 0 to a.Length
      invariant Separate(a) && Headers(a) == hs
      invariant fresh(Objects(a) - old(Objects(a)))
      invariant ConfigsHold(cache, ps)
      invariant Values(a) == OverriddenUpTo(claims, ps, hs, vs, i)
      invariant forall k :: 0 <= k < a.Length && (i <= k || IsExternal(claims, KeyOf(a[k]))) ==> a[k] == old(a[k])
    {
      assert hs[i] == a[i].(origin := null);
      OverriddenStep(claims, ps, hs, vs, i);
      ok, cache := OverrideRule(claims, external, byHost, ps, a, i, cache, listFails);
      if !ok {
        return;
      }
    }
    ok := true;
  }

  /** The first n settings overridden. */
  function OverriddenUpTo(claims: seq<Claim>, ps: map<string, seq<TlsPolicy>>, hs: seq<Slot>, vs: seq<Origin>,
                          n: nat): seq<Origin>
    requires |hs| == |vs|
  {
    seq(|vs|, k requires 0 <= k < |vs| => if k < n then TlsOverride(claims, ps, hs[k], vs[k]) else vs[k])
  }

  lemma OverriddenStep(claims: seq<Claim>, ps: map<string, seq<TlsPolicy>>, hs: seq<Slot>, vs: seq<Origin>, n: nat)
    requires |hs| == |vs| && n < |vs|
    ensures var before := OverriddenUpTo(claims, ps, hs, vs, n);
            |before| == |vs| && before[n] == vs[n] &&
            OverriddenUpTo(claims, ps, hs, vs, n + 1) == before[n := TlsOverride(claims, ps, hs[n], vs[n])]
  {
    hide TlsOverride;
  }

  lemma OverriddenEnds(claims: seq<Claim>, ps: map<string, seq<TlsPolicy>>, hs: seq<Slot>, vs: seq<Origin>)
    requires |hs| == |vs|
    ensures OverriddenUpTo(claims, ps, hs, vs, 0) == vs
    ensures var all := OverriddenUpTo(claims, ps, hs, vs, |vs|);
            |all| == |vs| && forall k :: 0 <= k < |vs| ==> all[k] == TlsOverride(claims, ps, hs[k], vs[k])
  {
    hide TlsOverride;
  }

  /** The body of the override loop. */
  method OverrideRule(ghost claims: seq<Claim>, external: set<RuleKey>, byHost: map<string, B.Key>,
                      ps: map<string, seq<TlsPolicy>>,
                      a: array<Slot>, i: nat, cache: map<B.Key, OriginRequest>, listFails: B.Key -> bool)
    returns (ok: bool, cache': map<B.Key, OriginRequest>)
    requires i < a.Length && Separate(a) && ConfigsHold(cache, ps)
    requires forall k :: k in external <==> IsExternal(claims, k)
    requires forall h :: h in byHost <==> HostBackend(claims, h).Some?
    requires forall h <- byHost :: HostBackend(claims, h) == Some(byHost[h])
    modifies a
    ensures Separate(a) && Headers(a) == old(Headers(a)) && fresh(Objects(a) - old(Objects(a)))
    ensures ok ==> Values(a) == old(Values(a))[i := TlsOverride(claims, ps, old(Headers(a))[i], old(Values(a))[i])]
    ensures forall k :: 0 <= k < a.Length && (k != i || IsExternal(claims, KeyOf(a[k]))) ==> a[k] == old(a[k])
    ensures ConfigsHold(cache', ps) && forall k <- cache' :: (k in cache && cache'[k] == cache[k]) || fresh(cache'[k])
    ensures ok || exists k :: listFails(k)
  {
    hide IsExternal, HostBackend, TlsConfig, TlsOverride;
    ghost var hs, vs := Headers(a), Values(a);
    assert hs[i] == a[i].(origin := null);
    Override(claims, ps, hs[i], vs[i]);
    cache' := cache;
    if KeyOf(a[i]) in external || a[i].hostname !in byHost {
      return true, cache;
    }
    var bk := byHost[a[i].hostname];
    var cfg;
    cfg, cache' := ConfigFor(cache, ps, bk, listFails(bk));
    if cfg == null {
      return false, cache';
    }
    GiveCopy(a, i, cfg);
    ok := true;
  }

  /** One listing per backend; null when it fails. */
  method ConfigFor(cache: map<B.Key, OriginRequest>, ps: map<string, seq<TlsPolicy>>, bk: B.Key, fails: bool)
    returns (cfg: OriginRequest?, cache': map<B.Key, OriginRequest>)
    requires ConfigsHold(cache, ps)
    ensures ConfigsHold(cache', ps) && (forall k <- cache' :: (k in cache && cache'[k] == cache[k]) || fresh(cache'[k]))
    ensures cfg != null ==> cfg.Value() == TlsConfig(PoliciesIn(ps, bk.ns), bk.name)
    ensures cfg == null ==> fails
  {
    hide TlsConfig;
    cache' := cache;
    if bk !in cache {
      if fails {
        return null, cache;
      }
      var made := GetBackendTlsConfig(PoliciesIn(ps, bk.ns), bk.name);
      cache' := cache[bk := made];
    }
    cfg := cache'[bk];
  }

  lemma Override(claims: seq<Claim>, ps: map<string, seq<TlsPolicy>>, s: Slot, was: Origin)
    ensures var b := HostBackend(claims, s.hostname);
            TlsOverride(claims, ps, s, was) ==
            if IsExternal(claims, KeyOf(s)) || b.None? then was
            else TlsConfig(PoliciesIn(ps, b.value.ns), b.value.name)
  {
  }

  /** Replaces the settings of rule i by a private copy. */
  method GiveCopy(a: array<Slot>, i: nat, cfg: OriginRequest)
    requires i < a.Length && Separate(a)
    modifies a
    ensures Separate(a) && Headers(a) == old(Headers(a))
    ensures Values(a) == old(Values(a))[i := cfg.Value()]
    ensures fresh(Objects(a) - old(Objects(a)))
    ensures forall k :: 0 <= k < a.Length && k != i ==> a[k] == old(a[k])
  {
    ghost var before := Values(a);
    var copy := new OriginRequest(cfg.Value());
    a[i] := a[i].(origin := copy);
    assert Values(a) == before[i := cfg.Value()];
  }

  /** A rule built from an external backend is recognised by its own identity, whatever other routes
      claim the same hostname. */
  lemma ExternalRuleUntouched(claims: seq<Claim>, ps: map<string, seq<TlsPolicy>>, c: Claim, s: Slot, was: Origin)
    requires c in claims && c.External() && KeyOf(s) == c.key
    ensures TlsOverride(claims, ps, s, was) == was
  {
  }

  lemma {:induction false} ClaimsUpToMember(r: Route, n: nat, k: nat)
    requires k < n <= |r.rules| && r.rules[k].refs != []
    ensures ClaimFor(r, k) in ClaimsUpTo(r, n)
  {
    if k < n - 1 {
      ClaimsUpToMember(r, n - 1, k);
    }
  }

  lemma {:induction false} ClaimsMember(routes: seq<Route>, r: Route, c: Claim)
    requires r in routes && c in ClaimsUpTo(r, |r.rules|)
    ensures c in Claims(routes)
  {
    hide ClaimsUpTo;
    if r != routes[|routes| - 1] {
      ClaimsMember(routes[..|routes| - 1], r, c);
    }
  }

  // ----- Whose configuration a rule ends up with -----

  /** No two routes are the same object. */
  ghost predicate DistinctRoutes(routes: seq<Route>) {
    forall r <- routes, q <- routes :: I.Namespace(r.ns) == I.Namespace(q.ns) && r.name == q.name ==> r == q
  }

  lemma {:induction false} ClaimsUpToSource(r: Route, n: nat, c: Claim)
    requires n <= |r.rules| && c in ClaimsUpTo(r, n)
    ensures c.key.index < n && r.rules[c.key.index].refs != [] && c == ClaimFor(r, c.key.index)
  {
    if c in ClaimsUpTo(r, n - 1) {
      ClaimsUpToSource(r, n - 1, c);
    }
  }

  lemma {:induction false} ClaimsSource(routes: seq<Route>, c: Claim)
    requires c in Claims(routes)
    ensures exists r <- routes ::
            c.key.index < |r.rules| && r.rules[c.key.index].refs != [] && c == ClaimFor(r, c.key.index)
  {
    hide ClaimsUpTo, ClaimFor;
    var front, r := routes[..|routes| - 1], routes[|routes| - 1];
    assert routes == front + [r] && r in routes;
    if c in Claims(front) {
      ClaimsSource(front, c);
    } else {
      ClaimsUpToSource(r, |r.rules|, c);
    }
  }

  /** A rule's claim is found under its identity, and nothing else is: it counts as external exactly when its own
      first backendRef is an XBackend. */
  lemma ExternalIff(routes: seq<Route>, r: Route, k: nat)
    requires DistinctRoutes(routes) && r in routes && k < |r.rules| && r.rules[k].refs != []
    ensures ClaimFor(r, k) in Claims(routes)
    ensures IsExternal(Claims(routes), RuleKey(I.Namespace(r.ns), r.name, k)) <==>
            B.TargetOf(r.ns, r.kind, r.rules[k].refs[0]).IsXBackend()
  {
    hide Claims, ClaimsUpTo;
    ClaimsUpToMember(r, |r.rules|, k);
    ClaimsMember(routes, r, ClaimFor(r, k));
    forall c | c in Claims(routes) && c.key == RuleKey(I.Namespace(r.ns), r.name, k) ensures c == ClaimFor(r, k) {
      ClaimsSource(routes, c);
    }
  }

  /** Claim j is a Service's and names the hostname. */
  predicate Claimant(claims: seq<Claim>, j: nat, host: string) {
    j < |claims| && !claims[j].External() && host in claims[j].hosts
  }

  predicate LastClaimant(claims: seq<Claim>, j: nat, host: string) {
    Claimant(claims, j, host) && forall l :: j < l < |claims| ==> !Claimant(claims, l, host)
  }

  lemma {:induction false} LastClaimantDecides(claims: seq<Claim>, host: string)
    requires exists c <- claims :: !c.External() && host in c.hosts
    ensures exists j: nat :: LastClaimant(claims, j, host) && HostBackend(claims, host) == Some(claims[j].Backend())
  {
    var n := |claims| - 1;
    if Claimant(claims, n, host) {
      assert LastClaimant(claims, n, host);
    } else {
      var front := claims[..n];
      assert claims == front + [claims[n]];
      LastClaimantDecides(front, host);
      var j: nat :| LastClaimant(front, j, host) && HostBackend(front, host) == Some(front[j].Backend());
      assert forall l :: 0 <= l < n ==> (Claimant(front, l, host) <==> Claimant(claims, l, host));
      assert LastClaimant(claims, j, host);
    }
  }

  /** The hostname of the first policy that targets the Service; None when no policy does. */
  function PolicyHostname(ps: seq<TlsPolicy>, name: string): Option<string> {
    if ps == [] then None
    else if TargetsService(ps[0].refs, name) then Some(ps[0].hostname)
    else PolicyHostname(ps[1..], name)
  }

  function HostnameOf(ps: map<string, seq<TlsPolicy>>, b: B.Key): Option<string> {
    PolicyHostname(PoliciesIn(ps, b.ns), b.name)
  }

  function ConfigOf(ps: map<string, seq<TlsPolicy>>, b: B.Key): Origin {
    TlsConfig(PoliciesIn(ps, b.ns), b.name)
  }

  lemma {:induction false} ConfigFromHostname(ps: seq<TlsPolicy>, name: string)
    ensures TlsConfig(ps, name) ==
            match PolicyHostname(ps, name)
            case None => UNSET.(noTlsVerify := Some(true))
            case Some(h) => UNSET.(originServerName := NonEmpty(h))
  {
    if ps != [] && !TargetsService(ps[0].refs, name) {
      ConfigFromHostname(ps[1..], name);
    }
  }

  /** A rule with a Service backend gets, on a hostname, its own backend's configuration exactly when the backend of
      the last Service claim on that hostname is under a policy with the same hostname, or both are under none. */
  lemma LastClaimWins(routes: seq<Route>, r: Route, k: nat, host: string, ps: map<string, seq<TlsPolicy>>, s: Slot,
                      was: Origin)
    requires DistinctRoutes(routes) && r in routes && k < |r.rules| && r.rules[k].refs != []
    requires !B.TargetOf(r.ns, r.kind, r.rules[k].refs[0]).IsXBackend() && host in ClaimFor(r, k).hosts
    requires KeyOf(s) == RuleKey(I.Namespace(r.ns), r.name, k) && s.hostname == host
    ensures exists j: nat :: LastClaimant(Claims(routes), j, host) &&
              (TlsOverride(Claims(routes), ps, s, was) == ConfigOf(ps, ClaimFor(r, k).Backend()) <==>
               HostnameOf(ps, Claims(routes)[j].Backend()) == HostnameOf(ps, ClaimFor(r, k).Backend()))
  {
    hide Claims, IsExternal, HostBackend, TlsConfig, PolicyHostname, DistinctRoutes;
    ExternalIff(routes, r, k);
    var claims, own := Claims(routes), ClaimFor(r, k).Backend();
    LastClaimantDecides(claims, host);
    var j: nat :| LastClaimant(claims, j, host) && HostBackend(claims, host) == Some(claims[j].Backend());
    var last := claims[j].Backend();
    ConfigFromHostname(PoliciesIn(ps, last.ns), last.name);
    ConfigFromHostname(PoliciesIn(ps, own.ns), own.name);
    assert LastClaimant(claims, j, host);
  }

  /** Said on the objects: the policy names the Service. */
  ghost predicate PolicyNames(p: TlsPolicy, service: string) {
    exists t <- p.refs :: (t.group == "" || t.group == "core") && t.kind == "Service" && t.name == service
  }

  /** The rule is the only one to claim the hostname. */
  ghost predicate SoleClaim(routes: seq<Route>, r: Route, k: nat, host: string) {
    forall q <- routes, l ::
      0 <= l < |q.rules| && q.rules[l].refs != [] && (host in q.hostnames || (host == "" && q.hostnames == [])) ==>
        q == r && l == k
  }

  /** Without rivals on its hostname, a TLS rule for a Service gets what the first BackendTLSPolicy in the Service's own
      Namespace that names it says, and is not verified when there is none. */
  lemma SoleClaimGetsPolicy(routes: seq<Route>, r: Route, k: nat, host: string, ps: map<string, seq<TlsPolicy>>,
                            s: Slot, was: Origin)
    requires DistinctRoutes(routes) && r in routes && k < |r.rules| && r.rules[k].refs != []
    requires var ref := r.rules[k].refs[0];
             !(ref.group == Some("gateway.networking.x-k8s.io") && ref.kind == Some("XBackend"))
    requires host in r.hostnames || (host == "" && r.hostnames == [])
    requires SoleClaim(routes, r, k, host)
    requires KeyOf(s) == RuleKey(I.Namespace(r.ns), r.name, k) && s.hostname == host
    ensures var v, ref := TlsOverride(Claims(routes), ps, s, was), r.rules[k].refs[0];
            var ns := if ref.ns.Some? then ref.ns.value else I.Namespace(r.ns);
            var policies := if ns in ps then ps[ns] else [];
            if forall p <- policies :: !PolicyNames(p, ref.name) then v == UNSET.(noTlsVerify := Some(true))
            else exists i ::
                   && 0 <= i < |policies| && PolicyNames(policies[i], ref.name)
                   && (forall j :: 0 <= j < i ==> !PolicyNames(policies[j], ref.name))
                   && v == UNSET.(originServerName :=
                                    if policies[i].hostname == "" then None else Some(policies[i].hostname))
  {
    hide Claims, IsExternal, HostBackend, TlsConfig, DistinctRoutes, SoleClaim;
    ExternalIff(routes, r, k);
    var claims, ref := Claims(routes), r.rules[k].refs[0];
    assert !ClaimFor(r, k).External() && host in ClaimFor(r, k).hosts;
    LastClaimantDecides(claims, host);
    var j: nat :| LastClaimant(claims, j, host) && HostBackend(claims, host) == Some(claims[j].Backend());
    SoleClaimant(routes, r, k, host, claims[j]);
    var b := ClaimFor(r, k).Backend();
    var policies := PoliciesIn(ps, b.ns);
    TlsConfigMeaning(policies, b.name);
    assert forall p <- policies :: TargetsService(p.refs, b.name) <==> PolicyNames(p, b.name);
    TlsConfigNone(policies, b.name);
  }

  lemma SoleClaimant(routes: seq<Route>, r: Route, k: nat, host: string, c: Claim)
    requires SoleClaim(routes, r, k, host) && k < |r.rules| && r.rules[k].refs != []
    requires c in Claims(routes) && host in c.hosts
    ensures c == ClaimFor(r, k)
  {
    hide Claims;
    ClaimsSource(routes, c);
    var q :| q in routes && c.key.index < |q.rules| && q.rules[c.key.index].refs != [] && c == ClaimFor(q, c.key.index);
  }

  lemma {:induction false} TlsConfigNone(ps: seq<TlsPolicy>, name: string)
    ensures TlsConfig(ps, name).noTlsVerify == Some(true) ==> TlsConfig(ps, name) == UNSET.(noTlsVerify := Some(true))
  {
    if ps != [] {
      TlsConfigNone(ps[1..], name);
    }
  }

  function OneService(route: string, service: string): Route {
    Route(TLS_ROUTE, "ns", route, 0, [], ["h"],
          [RouteRule([], [], [ObjectRef(None, None, None, service, Some(443))], None, None)])
  }

  /** Two TLSRoutes on one hostname: the policy of the first one's backend is lost, and its rule ends unverified
      because the second one's backend is under no policy. */
  lemma LaterClaimTakesHostname(was: Origin)
    ensures var routes := [OneService("r1", "a"), OneService("r2", "b")];
            var ps := map["ns" := [TlsPolicy([TargetRef("", "Service", "a")], "a.example")]];
            && ConfigOf(ps, B.Key("ns", "a")) == UNSET.(originServerName := Some("a.example"))
            && TlsOverride(Claims(routes), ps, Slot(TLS_ROUTE, "ns", "r1", 0, "h", null), was) ==
                UNSET.(noTlsVerify := Some(true))
  {
    hide Claims, TlsConfig;
    var routes := [OneService("r1", "a"), OneService("r2", "b")];
    TwoClaims(OneService("r1", "a"), OneService("r2", "b"));
    var policy := TlsPolicy([TargetRef("", "Service", "a")], "a.example");
    OnePolicy(policy);
    var claims := Claims(routes);
    assert "h" in claims[1].hosts && claims[1].Backend() == B.Key("ns", "b");
    assert !IsExternal(claims, RuleKey("ns", "r1", 0));
  }

  lemma TwoClaims(a: Route, b: Route)
    requires |a.rules| == |b.rules| == 1 && a.rules[0].refs != [] && b.rules[0].refs != []
    ensures Claims([a, b]) == [ClaimFor(a, 0), ClaimFor(b, 0)]
  {
    hide ClaimFor;
    assert [a, b][..1] == [a] && [a][..0] == [];
    assert ClaimsUpTo(a, 0) == [] && ClaimsUpTo(b, 0) == [];
    assert Claims([a]) == [ClaimFor(a, 0)];
  }

  lemma OnePolicy(policy: TlsPolicy)
    requires policy == TlsPolicy([TargetRef("", "Service", "a")], "a.example")
    ensures TlsConfig([policy], "a") == UNSET.(originServerName := Some("a.example"))
    ensures TlsConfig([policy], "b") == UNSET.(noTlsVerify := Some(true))
  {
  }
}
