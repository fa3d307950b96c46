/** One Gateway's life: finalizer, Secret, tunnel, token, Deployment and DNS records, with every API call
    able to fail before or after it took effect. */
module Lifecycle {
  import opened Text
  import opened DnsStore
  import opened DnsPlan
  import opened DnsReconcile
  import opened DnsPasses
  import opened Seqs
  import GatewayApi
  import B = Backends
  import I = Ingress
  import P = Push
  import N = Publishing
  import S = Serving
  import A = Attachment

  // ----- State -----

  const SECRET_SIZE := 32

  /** The tunnel token as the record it encodes. */
  datatype Token = Token(account: string, tunnelId: string, secret: seq<int>)

  datatype SecretData = SecretData(secret: Option<seq<int>>, token: Option<Token>)

  /** A Secret object; `data` is None for a nil map. */
  datatype Secret = Secret(data: Option<SecretData>)

  /** `config` is the configuration last pushed to the tunnel; a new one has none. */
  datatype Tunnel = Tunnel(id: string, secret: seq<int>, config: seq<P.IngressRule>)

  /** `others` tells whether other controllers hold finalizers too. */
  datatype GatewayObject = GatewayObject(uid: string, dnsManaged: Option<string>, deleting: bool, finalizer: bool,
                                         others: bool)

  /** Everything the controller can reach for one Gateway name. `ours` says that the GatewayClass exists
      and names this controller. */
  datatype World = World(
    gateway: Option<GatewayObject>, ours: bool, secret: Option<Secret>, tunnel: Option<Tunnel>,
    deployment: bool, stores: Stores)

  /** Settings fixed for the life of the controller. */
  datatype Config = Config(manageDns: bool, account: string, zones: seq<Zone>)

  predicate ValidSecret(s: Secret) {
    s.data.Some? && s.data.value.secret.Some? && |s.data.value.secret.value| == SECRET_SIZE
  }

  /** What a pass reads of the cluster: the attached routes, the resolver for their backendRefs, the policies, and for
      which Services the BackendTLSPolicies cannot be listed. */
  datatype Reading = Reading(routes: GatewayApi.Routes, resolve: I.Resolve, policies: P.PolicySet,
                             listFails: B.Key -> bool) {
    /** The configuration these routes and policies call for. */
    function Config(): seq<P.IngressRule> {
      Map(P.PushedList(routes, resolve, policies), P.ToIngress())
    }

    /** The names these routes are published under. */
    function Hostnames(): seq<string> {
      Collected(N.NamesOf(routes))
    }
  }

  /** What the environment decides about one pass: the fate of each call, the randomness, the ID of a new
      tunnel, what is read of the cluster, and whether the user deletes the Gateway meanwhile. */
  datatype Inputs = Inputs(
    getGateway: Fault, getClass: Fault, addFinalizer: Fault, removeFinalizer: Fault, classStatus: Fault,
    getSecret: Fault, createSecret: Fault, updateSecret: Fault,
    getTunnel: Fault, deleteTunnel: Fault, createTunnel: Fault,
    getForToken: Fault, updateForToken: Fault, getDeployment: Fault, writeDeployment: Fault,
    collect: Fault, push: Fault, statuses: Fault, deleteDeployment: Fault, deleteSecret: Fault,
    dns: Faults, random: seq<int>, newTunnelId: string, cluster: Reading,
    deletedBeforeFinalizer: bool, deletedAfterFinalizer: bool)

  /** rand.Read fills the whole buffer, and routes are collected kind by kind. */
  ghost predicate ValidInputs(i: Inputs) {
    |i.random| == SECRET_SIZE && P.ByKind(i.cluster.routes)
  }

  /** The effect of one writing call. */
  function Write(before: World, after: World, f: Fault): World {
    if f == FailsBefore then before else after
  }

  // ----- Steps of an apply -----

  datatype SecretOutcome = SecretFailed | SecretReady(secret: seq<int>, regenerated: bool)

  function FreshSecret(random: seq<int>): Secret {
    Secret(Some(SecretData(Some(random), None)))
  }

  function Regenerated(s: Secret, random: seq<int>): Secret
    requires s.data.Some?
  {
    Secret(Some(s.data.value.(secret := Some(random))))
  }

  /** Finds, creates or regenerates the tunnel secret. Writing into a nil data map panics. */
  function EnsureSecret(w: World, i: Inputs): (World, SecretOutcome) {
    if i.getSecret != Fine then (w, SecretFailed)
    else if w.secret.None? then
      (Write(w, w.(secret := Some(FreshSecret(i.random))), i.createSecret),
       if i.createSecret == Fine then SecretReady(i.random, false) else SecretFailed)
    else
      var s := w.secret.value;
      if ValidSecret(s) then (w, SecretReady(s.data.value.secret.value, false))
      else if s.data.None? then (w, SecretFailed)
      else
        (Write(w, w.(secret := Some(Regenerated(s, i.random))), i.updateSecret),
         if i.updateSecret == Fine then SecretReady(i.random, true) else SecretFailed)
  }

  /** Finds, recreates or creates the tunnel; None when a call failed, else its ID. */
  function EnsureTunnel(w: World, i: Inputs, secret: seq<int>, regenerated: bool): (World, Option<string>) {
    if i.getTunnel != Fine then (w, None)
    else if w.tunnel.Some? && !regenerated then (w, Some(w.tunnel.value.id))
    else
      var v := if w.tunnel.Some? then Write(w, w.(tunnel := None), i.deleteTunnel) else w;
      if w.tunnel.Some? && i.deleteTunnel != Fine then (v, None)
      else
        (Write(v, v.(tunnel := Some(Tunnel(i.newTunnelId, secret, []))), i.createTunnel),
         if i.createTunnel == Fine then Some(i.newTunnelId) else None)
  }

  function WithToken(s: Secret, t: Token): Secret {
    Secret(Some(if s.data.None? then SecretData(None, Some(t)) else s.data.value.(token := Some(t))))
  }

  function StoreToken(w: World, i: Inputs, t: Token): (World, bool) {
    if i.getForToken != Fine || w.secret.None? then (w, false)
    else (Write(w, w.(secret := Some(WithToken(w.secret.value, t))), i.updateForToken), i.updateForToken == Fine)
  }

  function ApplyDeployment(w: World, i: Inputs): (World, bool) {
    if i.getDeployment != Fine then (w, false)
    else (Write(w, w.(deployment := true), i.writeDeployment), i.writeDeployment == Fine)
  }

  /** Secret, tunnel, token and Deployment in order; None as soon as something failed, else the tunnel ID. */
  function Provision(w: World, i: Inputs, account: string): (World, Option<string>) {
    var (w1, s) := EnsureSecret(w, i);
    if s.SecretFailed? then (w1, None)
    else
      var (w2, id) := EnsureTunnel(w1, i, s.secret, s.regenerated);
      if id.None? then (w2, None)
      else
        var (w3, stored) := StoreToken(w2, i, Token(account, id.value, s.secret));
        if !stored then (w3, None)
        else
          var (w4, deployed) := ApplyDeployment(w3, i);
          (w4, if deployed then id else None)
  }

  /** Replaces the configuration of the tunnel with this ID. */
  function PushConfig(w: World, i: Inputs, id: string): World {
    if w.tunnel.Some? && w.tunnel.value.id == id then
      Write(w, w.(tunnel := Some(w.tunnel.value.(config := i.cluster.Config()))), i.push)
    else w
  }

  // ----- DNS outcomes -----

  /** Where the records of a tunnel point. */
  function TargetOf(tunnelId: string): string {
    Normalize(tunnelId + TARGET_SUFFIX)
  }

  /** The pass an apply makes. */
  function PassFor(c: Config, uid: string, tunnelId: string, hostnames: seq<string>): Pass {
    Pass(c.zones, uid, TargetOf(tunnelId), hostnames)
  }

  /** What the DNS part of an apply may have done to the zones. */
  ghost predicate DnsApplied(c: Config, g: GatewayObject, tunnelId: string, hostnames: seq<string>, st: Stores,
                             st': Stores, err: bool) {
    if c.manageDns && DnsEnabled(DnsOwner(g.uid, g.dnsManaged)) && tunnelId != "" then
      exists failed :: PassRel(st, st', PassFor(c, g.uid, tunnelId, hostnames), failed, err)
    else st' == st && !err
  }

  ghost predicate DnsTornDown(c: Config, g: GatewayObject, st: Stores, st': Stores, err: bool) {
    if c.manageDns then PassRel(st, st', Pass(c.zones, g.uid, "", []), err, err)
    else st' == st && !err
  }

  // ----- Whole passes -----

  /** The BackendTLSPolicies could be listed, as far as that was tried. */
  ghost predicate CanAssemble(i: Inputs, assembled: bool) {
    assembled || exists k :: i.cluster.listFails(k)
  }

  /** An apply, ending in `w'`: push the configuration, then DNS and the statuses, both best effort. */
  ghost predicate PushedAndPublished(c: Config, g: GatewayObject, v: World, w': World, i: Inputs, id: string,
                                     err: bool) {
    var u := PushConfig(v, i, id);
    if i.push != Fine then w' == u && err
    else
      exists dnsErr :: DnsApplied(c, g, id, i.cluster.Hostnames(), u.stores, w'.stores, dnsErr)
        && w' == u.(stores := w'.stores) && (err <==> dnsErr || i.statuses != Fine)
  }

  ghost predicate Applied(c: Config, g: GatewayObject, w: World, w': World, i: Inputs, err: bool) {
    if g.uid == "" || i.classStatus != Fine then w' == w && err
    else
      var (v, id) := Provision(w, i, c.account);
      if id.None? || i.collect != Fine then w' == v && err
      else
        exists assembled :: CanAssemble(i, assembled) &&
          if assembled then PushedAndPublished(c, g, v, w', i, id.value, err) else w' == v && err
  }

  /** Deletes one object if it is there; None when a call failed. */
  function DeleteIt(exists': bool, get: Fault, delete: Fault): (bool, bool) {
    if get != Fine then (exists', false)
    else if !exists' then (false, true)
    else (delete == FailsBefore, delete == Fine)
  }

  /** Best-effort removal of everything; any failure is reported, none stops the rest. */
  ghost predicate CleanedUp(c: Config, g: GatewayObject, w: World, w': World, i: Inputs, err: bool) {
    var (tunnelLeft, tunnelOk) := DeleteIt(w.tunnel.Some?, i.getTunnel, i.deleteTunnel);
    var (deployLeft, deployOk) := DeleteIt(w.deployment, i.getDeployment, i.deleteDeployment);
    var (secretLeft, secretOk) := DeleteIt(w.secret.Some?, i.getSecret, i.deleteSecret);
    exists dnsErr ::
      && DnsTornDown(c, g, w.stores, w'.stores, dnsErr)
      && w' == w.(tunnel := if tunnelLeft then w.tunnel else None, deployment := deployLeft,
                  secret := if secretLeft then w.secret else None, stores := w'.stores)
      && (err <==> !tunnelOk || !deployOk || !secretOk || dnsErr)
  }

  /** The user asks for deletion: the object stays while a finalizer holds it. */
  function UserDeletes(g: Option<GatewayObject>): Option<GatewayObject> {
    if g.None? then None
    else if g.value.finalizer || g.value.others then Some(g.value.(deleting := true))
    else None
  }

  function DropFinalizer(g: GatewayObject): Option<GatewayObject> {
    if g.others then Some(g.(finalizer := false)) else None
  }

  /** One reconcile of the Gateway. */
  ghost predicate Reconciled(c: Config, w: World, w': World, i: Inputs, err: bool) {
    if i.getGateway != Fine then w' == w && err
    else if w.gateway.None? then w' == w && !err
    else if i.getClass != Fine then w' == w && err
    else if !w.ours then w' == w && !err
    else
      var g := w.gateway.value;
      if g.deleting then
        if !g.finalizer then w' == w && !err
        else
          exists v, failed :: CleanedUp(c, g, w, v, i, failed) &&
            if failed then w' == v && err
            else
              w' == Write(v, v.(gateway := DropFinalizer(g)), i.removeFinalizer) &&
              (err <==> i.removeFinalizer != Fine)
      else
        var w1 := if i.deletedBeforeFinalizer then w.(gateway := UserDeletes(w.gateway)) else w;
        if !g.finalizer && (w1.gateway != w.gateway || i.addFinalizer == FailsBefore) then w' == w1 && err
        else
          var w2 := if g.finalizer then w1 else w1.(gateway := Some(g.(finalizer := true)));
          if !g.finalizer && i.addFinalizer != Fine then w' == w2 && err
          else
            var w3 := if i.deletedAfterFinalizer then w2.(gateway := UserDeletes(w2.gateway)) else w2;
            Applied(c, g, w3, w', i, err)
  }

  // ----- The environment between passes -----

  /** What others may do: create or delete the Gateway, change the class, run other Gateways' DNS passes. `own` are
      the UIDs Gateways of this name ever have, one after the other; nobody else writes a record that carries one of
      them, or touches the Secret, the tunnel or the Deployment. */
  ghost predicate Environment(own: set<string>, w: World, w': World) {
    && w'.secret == w.secret && w'.tunnel == w.tunnel && w'.deployment == w.deployment
    && (GatewayMoves(w.gateway, w'.gateway) || (w.gateway.None? && w'.gateway.Some? && New(own, w'.gateway.value)))
    && w'.stores.Keys == w.stores.Keys && AllWellFormed(w'.stores)
    && forall u <- own, id <- w.stores ::
         Mine(w'.stores[id], OwnerComment(u)) == Mine(w.stores[id], OwnerComment(u))
  }

  /** The user deletes or annotates the Gateway; other controllers add and remove their own finalizers. */
  ghost predicate GatewayMoves(g: Option<GatewayObject>, g': Option<GatewayObject>) {
    || g' == g || g' == UserDeletes(g)
    || (g.Some? && g'.Some? && g' == Some(g.value.(dnsManaged := g'.value.dnsManaged, others := g'.value.others)))
    || (g.Some? && g.value.deleting && !g.value.finalizer && g'.None?)
  }

  predicate New(own: set<string>, g: GatewayObject) {
    g.uid in own && !g.deleting && !g.finalizer
  }

  /** No zone holds a record of the Gateway with this UID. */
  ghost predicate Unowned(st: Stores, uid: string) {
    forall id <- st :: Mine(st[id], OwnerComment(uid)) == map[]
  }

  // ----- Invariants -----

  /** The account's zones are the ones that exist. */
  ghost predicate ZonesCovered(c: Config, st: Stores) {
    && ValidZones(c.zones, st)
    && forall id <- st :: exists k :: 0 <= k < |c.zones| && c.zones[k].id == id
  }

  predicate Finalized(w: World) {
    w.gateway.Some? && w.gateway.value.finalizer
  }

  /** Whatever belongs to a Gateway is guarded by the finalizer of that very Gateway: once its object is gone, no
      record of its UID is left, and none comes back. */
  ghost predicate NoLeak(own: set<string>, w: World) {
    && (Finalized(w) || (w.tunnel.None? && w.secret.None? && !w.deployment))
    && forall u <- own :: Unowned(w.stores, u) || (Finalized(w) && w.gateway.value.uid == u)
  }

  /** The Secret is valid and holds its tunnel's secret. */
  ghost predicate Consistent(w: World) {
    && (w.secret.Some? ==> ValidSecret(w.secret.value))
    && (w.tunnel.Some? ==> w.secret.Some? && w.secret.value.data.value.secret == Some(w.tunnel.value.secret))
  }

  /** Secret and tunnel agree as long as the Gateway is not being deleted. */
  ghost predicate Agree(w: World) {
    w.gateway.Some? && !w.gateway.value.deleting ==> Consistent(w)
  }

  /** The zone's records of this UID point at the tunnel, and the tunnel has been given rules. */
  ghost predicate PointsAt(s: Store, uid: string, tunnel: Option<Tunnel>) {
    forall i <- s.records :: Owned(s.records[i], OwnerComment(uid)) ==>
      tunnel.Some? && tunnel.value.config != [] && s.records[i].content == TargetOf(tunnel.value.id)
  }

  /** As long as the Gateway is not being deleted, no record of it leads nowhere. */
  ghost predicate Routed(w: World) {
    w.gateway.Some? && !w.gateway.value.deleting ==>
      forall id <- w.stores :: PointsAt(w.stores[id], w.gateway.value.uid, w.tunnel)
  }

  ghost predicate Inv(c: Config, own: set<string>, w: World) {
    && AllWellFormed(w.stores) && ZonesCovered(c, w.stores)
    && NoLeak(own, w) && Agree(w) && Routed(w)
    && (w.gateway.Some? ==> w.gateway.value.uid in own)
    && (!c.manageDns ==> forall u <- own :: Unowned(w.stores, u))
  }

  // ----- Preservation -----

  lemma ZonesStay(c: Config, st: Stores, st': Stores)
    requires ZonesCovered(c, st) && st'.Keys == st.Keys
    ensures ZonesCovered(c, st')
  {
  }

  lemma OthersStayUnowned(st: Stores, st': Stores, p: Pass, failed: bool, err: bool)
    requires AllWellFormed(st) && PassRel(st, st', p, failed, err)
    ensures forall u | u != p.uid && Unowned(st, u) :: Unowned(st', u)
  {
    hide WellFormed, PassRel, Mine, OwnerComment, Foreign;
    PassIsSafe(st, st', p, failed, err);
    forall u, id | u != p.uid && Unowned(st, u) && id in st' ensures Mine(st'[id], OwnerComment(u)) == map[] {
      OwnerCommentInjective(p.uid, u);
      ForeignCoversOthers(st[id], st'[id], OwnerComment(p.uid), OwnerComment(u));
    }
  }

  lemma DnsAppliedSafe(c: Config, g: GatewayObject, id: string, hostnames: seq<string>, st: Stores, st': Stores,
                       err: bool)
    requires AllWellFormed(st) && DnsApplied(c, g, id, hostnames, st, st', err)
    ensures st'.Keys == st.Keys && AllWellFormed(st')
    ensures !c.manageDns ==> st' == st
    ensures forall u | u != g.uid && Unowned(st, u) :: Unowned(st', u)
  {
    hide Normalize, WellFormed, PassRel, Unowned;
    if c.manageDns && DnsEnabled(DnsOwner(g.uid, g.dnsManaged)) && id != "" {
      var p := PassFor(c, g.uid, id, hostnames);
      var failed :| PassRel(st, st', p, failed, err);
      PassIsSafe(st, st', p, failed, err);
      OthersStayUnowned(st, st', p, failed, err);
    }
  }

  lemma DnsTornDownSafe(c: Config, g: GatewayObject, st: Stores, st': Stores, err: bool)
    requires AllWellFormed(st) && ZonesCovered(c, st) && DnsTornDown(c, g, st, st', err)
    requires !c.manageDns ==> Unowned(st, g.uid)
    ensures st'.Keys == st.Keys && AllWellFormed(st')
    ensures !err || !c.manageDns ==> Unowned(st', g.uid)
    ensures forall u | u != g.uid && Unowned(st, u) :: Unowned(st', u)
  {
    hide Normalize, WellFormed, PassRel, Mine, OwnerComment;
    if c.manageDns {
      var p := Pass(c.zones, g.uid, "", []);
      PassIsSafe(st, st', p, err, err);
      OthersStayUnowned(st, st', p, err, err);
      if !err {
        TeardownLeavesNone(st, st', p);
        forall id | id in st' ensures Mine(st'[id], OwnerComment(g.uid)) == map[] {
          var k :| 0 <= k < |c.zones| && c.zones[k].id == id;
        }
      }
    }
  }

  /** `v` differs from `w` in Secret, tunnel and Deployment at most. */
  ghost predicate SameFrame(w: World, v: World) {
    v.gateway == w.gateway && v.ours == w.ours && v.stores == w.stores
  }

  lemma EnsureSecretAgrees(w: World, i: Inputs)
    ensures var (v, s) := EnsureSecret(w, i);
            && SameFrame(w, v) && v.tunnel == w.tunnel
            && (ValidInputs(i) && Consistent(w) ==> Consistent(v))
            && (ValidInputs(i) && s.SecretReady? ==>
                 v.secret.Some? && ValidSecret(v.secret.value) && v.secret.value.data.value.secret == Some(s.secret))
            && (Consistent(w) && s.SecretReady? ==> !s.regenerated)
  {
  }

  lemma EnsureTunnelAgrees(w: World, i: Inputs, secret: seq<int>, regenerated: bool)
    ensures var (v, id) := EnsureTunnel(w, i, secret, regenerated);
            && SameFrame(w, v) && v.secret == w.secret
            && (id.Some? ==> v.tunnel.Some? && v.tunnel.value.id == id.value)
            && (id.Some? && (w.tunnel.Some? && !regenerated ==> w.tunnel.value.secret == secret) ==>
                v.tunnel.value.secret == secret)
            && (Consistent(w) && w.secret.Some? && w.secret.value.data.value.secret == Some(secret) ==> Consistent(v))
            && (w.tunnel.Some? && !regenerated ==> v.tunnel == w.tunnel)
  {
  }

  lemma StoreTokenAgrees(w: World, i: Inputs, t: Token)
    ensures var (v, ok) := StoreToken(w, i, t);
            && SameFrame(w, v) && v.tunnel == w.tunnel && (Consistent(w) ==> Consistent(v))
            && (ok ==> v.secret.Some? && v.secret == Some(WithToken(w.secret.value, t)))
  {
  }

  lemma ApplyDeploymentAgrees(w: World, i: Inputs)
    ensures var (v, ok) := ApplyDeployment(w, i);
            SameFrame(w, v) && v.tunnel == w.tunnel && v.secret == w.secret && (ok ==> v.deployment)
  {
  }

  /** Provisioning touches neither the Gateway nor DNS, and keeps Secret and tunnel in step. */
  lemma ProvisionAgrees(w: World, i: Inputs, account: string)
    requires ValidInputs(i) && Consistent(w)
    ensures var (v, id) := Provision(w, i, account);
            && SameFrame(w, v) && Consistent(v) && (id.Some? ==> Ready(v, account) && v.tunnel.value.id == id.value)
            && (w.tunnel.Some? ==> v.tunnel == w.tunnel)
  {
    hide EnsureSecret, EnsureTunnel, StoreToken, ApplyDeployment;
    EnsureSecretAgrees(w, i);
    var (w1, s) := EnsureSecret(w, i);
    if s.SecretReady? {
      EnsureTunnelAgrees(w1, i, s.secret, s.regenerated);
      var (w2, id) := EnsureTunnel(w1, i, s.secret, s.regenerated);
      if id.Some? {
        var t := Token(account, id.value, s.secret);
        StoreTokenAgrees(w2, i, t);
        ApplyDeploymentAgrees(StoreToken(w2, i, t).0, i);
      }
    }
  }

  /** Tunnel, Secret, token and Deployment all in place and naming each other. */
  ghost predicate Ready(w: World, account: string) {
    && w.tunnel.Some? && w.secret.Some? && ValidSecret(w.secret.value) && w.deployment
    && w.secret.value.data.value.secret == Some(w.tunnel.value.secret)
    && w.secret.value.data.value.token == Some(Token(account, w.tunnel.value.id, w.tunnel.value.secret))
  }

  lemma AppliedKeepsInv(c: Config, own: set<string>, g: GatewayObject, w: World, w': World, i: Inputs, err: bool)
    requires Inv(c, own, w) && Consistent(w) && ValidInputs(i) && Applied(c, g, w, w', i, err)
    requires w.gateway.Some? && w.gateway.value.finalizer && w.gateway.value.uid == g.uid
    ensures Inv(c, own, w') && w'.gateway == w.gateway
    ensures !err ==> Ready(w', c.account)
  {
    hide Normalize, WellFormed, PassRel, Provision, PushedAndPublished, ValidZones, Consistent, PointsAt, Unowned;
    ProvisionAgrees(w, i, c.account);
    var (v, id) := Provision(w, i, c.account);
    ProvisionRouted(own, w, v);
    if !(g.uid == "" || i.classStatus != Fine || id.None? || i.collect != Fine) {
      var assembled :| CanAssemble(i, assembled) &&
        if assembled then PushedAndPublished(c, g, v, w', i, id.value, err) else w' == v && err;
      if assembled {
        PushedKeepsInv(c, own, g, v, w', i, id.value, err);
      }
    }
  }

  /** Provisioning replaces no tunnel that records point at. */
  lemma ProvisionRouted(own: set<string>, w: World, v: World)
    requires SameFrame(w, v) && Routed(w) && NoLeak(own, w) && (w.tunnel.Some? ==> v.tunnel == w.tunnel)
    ensures Routed(v)
  {
    hide OwnerComment, TargetOf;
  }

  lemma PushedKeepsInv(c: Config, own: set<string>, g: GatewayObject, v: World, w': World, i: Inputs, id: string,
                       err: bool)
    requires Inv(c, own, v) && Consistent(v) && Ready(v, c.account) && v.tunnel.value.id == id
    requires PushedAndPublished(c, g, v, w', i, id, err)
    requires v.gateway.Some? && v.gateway.value.finalizer && v.gateway.value.uid == g.uid
    ensures Inv(c, own, w') && w'.gateway == v.gateway
    ensures !err ==> Ready(w', c.account)
    ensures i.push == Fine ==> w'.tunnel.value.config == i.cluster.Config()
  {
    hide Normalize, WellFormed, PassRel, DnsApplied, ValidZones, Consistent, Ready, PointsAt, Unowned, P.PushedList;
    ReadyTunnel(v, c.account);
    var u := PushConfig(v, i, id);
    PushHarmless(v, i, id, c.account);
    if i.push == Fine {
      var dnsErr :| DnsApplied(c, g, id, i.cluster.Hostnames(), u.stores, w'.stores, dnsErr)
                    && w' == u.(stores := w'.stores) && (err <==> dnsErr || i.statuses != Fine);
      DnsAppliedSafe(c, g, id, i.cluster.Hostnames(), u.stores, w'.stores, dnsErr);
      DnsAppliedRouted(c, g, id, i.cluster.Hostnames(), u.stores, w'.stores, dnsErr, u.tunnel);
      ZonesStay(c, u.stores, w'.stores);
      StoresIrrelevant(u, w', c.account);
    }
  }

  /** A pushed configuration ends in the catch-all, and replaces nothing but the one before. */
  lemma PushHarmless(v: World, i: Inputs, id: string, account: string)
    requires v.tunnel.Some? && v.tunnel.value.id == id
    ensures var u := PushConfig(v, i, id);
            && SameFrame(v, u) && u.secret == v.secret && u.deployment == v.deployment
            && u.tunnel.Some? && u.tunnel.value.id == id
            && (Consistent(v) ==> Consistent(u)) && (Ready(v, account) ==> Ready(u, account))
            && (Routed(v) ==> Routed(u))
            && (i.push == Fine ==> u.tunnel.value.config == i.cluster.Config())
            && i.cluster.Config() != []
  {
    hide OwnerComment, TargetOf, P.PushedList;
    ConfigNotEmpty(i.cluster);
  }

  lemma ConfigNotEmpty(r: Reading)
    ensures r.Config() != []
  {
    hide I.Built, P.Dressed, P.L7Rules, P.L7Settings, P.TlsSettings, P.TcpSettings;
  }

  lemma DnsAppliedRouted(c: Config, g: GatewayObject, id: string, hostnames: seq<string>, st: Stores, st': Stores,
                         err: bool, tunnel: Option<Tunnel>)
    requires AllWellFormed(st) && DnsApplied(c, g, id, hostnames, st, st', err)
    requires tunnel.Some? && tunnel.value.id == id && tunnel.value.config != []
    ensures forall z <- st :: z in st' && (PointsAt(st[z], g.uid, tunnel) ==> PointsAt(st'[z], g.uid, tunnel))
  {
    hide Normalize, WellFormed, PassRel, KeptOrContent;
    if c.manageDns && DnsEnabled(DnsOwner(g.uid, g.dnsManaged)) && id != "" {
      var p := PassFor(c, g.uid, id, hostnames);
      var failed :| PassRel(st, st', p, failed, err);
      PassWrites(st, st', p, failed, err);
      forall z | z in st && PointsAt(st[z], g.uid, tunnel) ensures PointsAt(st'[z], g.uid, tunnel) {
        WrittenPointsAt(st[z], st'[z], g.uid, tunnel);
      }
    }
  }

  lemma WrittenPointsAt(s: Store, s': Store, uid: string, tunnel: Option<Tunnel>)
    requires tunnel.Some? && tunnel.value.config != [] && KeptOrContent(s, s', TargetOf(tunnel.value.id))
    requires PointsAt(s, uid, tunnel)
    ensures PointsAt(s', uid, tunnel)
  {
    hide OwnerComment, Normalize;
  }

  lemma StoresIrrelevant(v: World, w: World, account: string)
    requires w == v.(stores := w.stores)
    ensures Consistent(v) ==> Consistent(w)
    ensures Ready(v, account) ==> Ready(w, account)
  {
  }

  lemma CleanedUpFacts(c: Config, own: set<string>, g: GatewayObject, w: World, v: World, i: Inputs, failed: bool)
    requires Inv(c, own, w) && CleanedUp(c, g, w, v, i, failed) && w.gateway == Some(g) && g.deleting && g.finalizer
    ensures Inv(c, own, v) && v.gateway == w.gateway
    ensures !failed ==> v.tunnel.None? && v.secret.None? && !v.deployment && Unowned(v.stores, g.uid)
  {
    hide Normalize, WellFormed, PassRel, ValidZones, DnsTornDown, Unowned;
    var dnsErr :| DnsTornDown(c, g, w.stores, v.stores, dnsErr) &&
                  (failed <== dnsErr) &&
                  v == w.(tunnel := v.tunnel, deployment := v.deployment, secret := v.secret, stores := v.stores);
    DnsTornDownSafe(c, g, w.stores, v.stores, dnsErr);
    ZonesStay(c, w.stores, v.stores);
  }

  /** Every reconcile keeps the invariant, whatever fails. */
  lemma ReconcileKeepsInv(c: Config, own: set<string>, w: World, w': World, i: Inputs, err: bool)
    requires Inv(c, own, w) && ValidInputs(i) && Reconciled(c, w, w', i, err)
    ensures Inv(c, own, w')
  {
    hide Normalize, WellFormed, PassRel, ValidZones, Applied, CleanedUp, Unowned, Mine;
    if i.getGateway == Fine && w.gateway.Some? && i.getClass == Fine && w.ours {
      var g := w.gateway.value;
      if g.deleting {
        if g.finalizer {
          var v, failed :| CleanedUp(c, g, w, v, i, failed) &&
            if failed then w' == v && err
            else
              w' == Write(v, v.(gateway := DropFinalizer(g)), i.removeFinalizer) &&
              (err <==> i.removeFinalizer != Fine);
          CleanedUpFacts(c, own, g, w, v, i, failed);
        }
      } else {
        var w1 := if i.deletedBeforeFinalizer then w.(gateway := UserDeletes(w.gateway)) else w;
        if g.finalizer || (w1.gateway == w.gateway && i.addFinalizer == Fine) {
          var w2 := if g.finalizer then w1 else w1.(gateway := Some(g.(finalizer := true)));
          var w3 := if i.deletedAfterFinalizer then w2.(gateway := UserDeletes(w2.gateway)) else w2;
          AppliedKeepsInv(c, own, g, w3, w', i, err);
        }
      }
    }
  }

  lemma OwnStayUnowned(own: set<string>, w: World, w': World)
    requires Environment(own, w, w')
    ensures forall u <- own :: Unowned(w.stores, u) ==> Unowned(w'.stores, u)
  {
    hide Mine, WellFormed, OwnerComment, GatewayMoves;
  }

  lemma RoutedByOwned(s: Store, s': Store, uid: string, tunnel: Option<Tunnel>)
    ensures Mine(s', OwnerComment(uid)) == Mine(s, OwnerComment(uid)) ==>
              (PointsAt(s', uid, tunnel) <==> PointsAt(s, uid, tunnel))
    ensures Mine(s, OwnerComment(uid)) == map[] ==> PointsAt(s, uid, tunnel)
  {
    hide OwnerComment, TargetOf;
    assert forall i <- s.records :: Owned(s.records[i], OwnerComment(uid)) ==>
        i in Mine(s, OwnerComment(uid)) && Mine(s, OwnerComment(uid))[i] == s.records[i];
    assert forall i <- s'.records :: Owned(s'.records[i], OwnerComment(uid)) ==>
        i in Mine(s', OwnerComment(uid)) && Mine(s', OwnerComment(uid))[i] == s'.records[i];
  }

  lemma EnvironmentRouted(own: set<string>, w: World, w': World)
    requires Environment(own, w, w') && Routed(w) && NoLeak(own, w)
    requires w.gateway.Some? ==> w.gateway.value.uid in own
    ensures Routed(w')
  {
    hide Mine, WellFormed, OwnerComment, PointsAt;
    if w'.gateway.Some? {
      var u := w'.gateway.value.uid;
      forall id | id in w.stores
        ensures PointsAt(w'.stores[id], u, w.tunnel) <==> PointsAt(w.stores[id], u, w.tunnel)
        ensures Mine(w.stores[id], OwnerComment(u)) == map[] ==> PointsAt(w.stores[id], u, w.tunnel)
      {
        RoutedByOwned(w.stores[id], w'.stores[id], u, w.tunnel);
      }
    }
  }

  /** So does whatever others do between passes. */
  lemma EnvironmentKeepsInv(c: Config, own: set<string>, w: World, w': World)
    requires Inv(c, own, w) && Environment(own, w, w')
    ensures Inv(c, own, w')
  {
    hide WellFormed, Mine, OwnerComment, ValidZones, Routed;
    ZonesStay(c, w.stores, w'.stores);
    OwnStayUnowned(own, w, w');
    EnvironmentRouted(own, w, w');
  }

  // ----- Runs -----

  ghost predicate Step(c: Config, own: set<string>, w: World, w': World) {
    Environment(own, w, w') || exists i, err :: ValidInputs(i) && Reconciled(c, w, w', i, err)
  }

  ghost predicate Run(c: Config, own: set<string>, ws: seq<World>) {
    ws != [] && forall k :: 0 <= k < |ws| - 1 ==> Step(c, own, ws[k], ws[k + 1])
  }

  /** Nothing of this Gateway exists yet. */
  ghost predicate Initial(c: Config, own: set<string>, w: World) {
    && w.gateway.None? && w.secret.None? && w.tunnel.None? && !w.deployment
    && AllWellFormed(w.stores) && ZonesCovered(c, w.stores) && forall u <- own :: Unowned(w.stores, u)
  }

  /** In every reachable state the finalizer guards whatever exists, the records of Gateways long gone included, and
      Secret and tunnel agree. */
  lemma {:induction false} ReachableStates(c: Config, own: set<string>, ws: seq<World>)
    requires Run(c, own, ws) && Initial(c, own, ws[0])
    ensures Inv(c, own, ws[|ws| - 1])
    decreases |ws|
  {
    hide Inv, Environment, Reconciled, Initial;
    var n := |ws| - 1;
    if n == 0 {
      InitialInv(c, own, ws[0]);
    } else {
      ReachableStates(c, own, ws[..n]);
      assert Step(c, own, ws[n - 1], ws[n]);
      if Environment(own, ws[n - 1], ws[n]) {
        EnvironmentKeepsInv(c, own, ws[n - 1], ws[n]);
      } else {
        var i, err :| ValidInputs(i) && Reconciled(c, ws[n - 1], ws[n], i, err);
        ReconcileKeepsInv(c, own, ws[n - 1], ws[n], i, err);
      }
    }
  }

  /** No record leads nowhere: in a reachable state with a Gateway that is not being deleted, each of its records points
      at the tunnel there is, and that tunnel has been given rules. */
  lemma RecordsLeadToRules(c: Config, own: set<string>, ws: seq<World>, zoneId: string, i: nat)
    requires Run(c, own, ws) && Initial(c, own, ws[0])
    requires var w := ws[|ws| - 1];
             && w.gateway.Some? && !w.gateway.value.deleting && zoneId in w.stores && i in w.stores[zoneId].records
             && w.stores[zoneId].records[i].comment == OwnerComment(w.gateway.value.uid)
    ensures var w := ws[|ws| - 1];
            && w.tunnel.Some? && w.tunnel.value.config != []
            && w.stores[zoneId].records[i].content == Normalize(w.tunnel.value.id + TARGET_SUFFIX)
  {
    hide Run, Initial, OwnerComment;
    ReachableStates(c, own, ws);
  }

  /** Nothing outlives the Gateway: in a reachable state without it there is no tunnel, Secret or Deployment, and no
      record of any UID a Gateway of this name ever had. */
  lemma NothingOutlivesGateway(c: Config, own: set<string>, ws: seq<World>)
    requires Run(c, own, ws) && Initial(c, own, ws[0]) && ws[|ws| - 1].gateway.None?
    ensures var w := ws[|ws| - 1];
            && w.tunnel.None? && w.secret.None? && !w.deployment && forall u <- own :: Unowned(w.stores, u)
  {
    hide Run, Initial, Unowned;
    ReachableStates(c, own, ws);
  }

  lemma InitialInv(c: Config, own: set<string>, w: World)
    requires Initial(c, own, w)
    ensures Inv(c, own, w)
  {
  }

  /** A reconcile that reports success on a live Gateway of ours ends ready: the stored token names the
      current tunnel and the secret it was created with. */
  lemma SuccessIsReady(c: Config, own: set<string>, w: World, w': World, i: Inputs)
    requires Inv(c, own, w) && ValidInputs(i) && Reconciled(c, w, w', i, false)
    requires w.gateway.Some? && !w.gateway.value.deleting && w.ours
    ensures Ready(w', c.account) && w'.gateway.Some? && w'.gateway.value.finalizer
  {
    hide Normalize, WellFormed, PassRel, ValidZones, Applied, Unowned;
    var g := w.gateway.value;
    var w1 := if i.deletedBeforeFinalizer then w.(gateway := UserDeletes(w.gateway)) else w;
    var w2 := if g.finalizer then w1 else w1.(gateway := Some(g.(finalizer := true)));
    var w3 := if i.deletedAfterFinalizer then w2.(gateway := UserDeletes(w2.gateway)) else w2;
    AppliedKeepsInv(c, own, g, w3, w', i, false);
  }

  /** An apply that reports success made every call, and each went through. */
  lemma AppliedSucceeds(c: Config, own: set<string>, g: GatewayObject, w: World, w': World, i: Inputs)
    requires Inv(c, own, w) && Consistent(w) && ValidInputs(i) && Applied(c, g, w, w', i, false)
    requires w.gateway.Some? && w.gateway.value.finalizer && w.gateway.value.uid == g.uid
    ensures Ready(w', c.account) && w'.tunnel.value.config == i.cluster.Config()
    ensures i.classStatus == i.collect == i.push == i.statuses == Fine
    ensures var (v, id) := Provision(w, i, c.account);
            id.Some? && PushedAndPublished(c, g, v, w', i, id.value, false) && SameFrame(w, v)
            && v.tunnel.Some? && v.tunnel.value.id == id.value && w'.tunnel.value.id == id.value
  {
    hide Normalize, WellFormed, PassRel, Provision, DnsApplied, ValidZones, Consistent, PointsAt, Unowned, Ready,
        P.PushedList;
    ProvisionAgrees(w, i, c.account);
    var (v, id) := Provision(w, i, c.account);
    assert PushedAndPublished(c, g, v, w', i, id.value, false);
    ReadyTunnel(v, c.account);
    PushHarmless(v, i, id.value, c.account);
    var u := PushConfig(v, i, id.value);
    StoresIrrelevant(u, w', c.account);
  }

  lemma ReadyTunnel(w: World, account: string)
    requires Ready(w, account)
    ensures w.tunnel.Some?
  {
  }

  /** What an apply gets to see of the Gateway. */
  function AtApply(w: World, i: Inputs): World
    requires w.gateway.Some?
  {
    var g := w.gateway.value;
    var w1 := if i.deletedBeforeFinalizer then w.(gateway := UserDeletes(w.gateway)) else w;
    var w2 := if g.finalizer then w1 else w1.(gateway := Some(g.(finalizer := true)));
    if i.deletedAfterFinalizer then w2.(gateway := UserDeletes(w2.gateway)) else w2
  }

  lemma AtApplyInv(c: Config, own: set<string>, w: World, i: Inputs)
    requires Inv(c, own, w) && w.gateway.Some? && !w.gateway.value.deleting
    requires w.gateway.value.finalizer || !i.deletedBeforeFinalizer || w.gateway == UserDeletes(w.gateway)
    ensures var v := AtApply(w, i);
            && Inv(c, own, v) && Consistent(v) && v.gateway.Some? && v.gateway.value.finalizer
            && v.gateway.value.uid == w.gateway.value.uid && v.stores == w.stores
  {
    hide WellFormed, ValidZones, PointsAt, Unowned;
  }

  /** A reconcile that reports success on a live Gateway of ours has pushed the configuration its routes and policies
      call for to the tunnel the stored token names, and no call it made failed. */
  lemma SuccessIsPushed(c: Config, own: set<string>, w: World, w': World, i: Inputs)
    requires Inv(c, own, w) && ValidInputs(i) && Reconciled(c, w, w', i, false)
    requires w.gateway.Some? && !w.gateway.value.deleting && w.ours
    ensures w'.tunnel.Some? && w'.tunnel.value.config == i.cluster.Config()
    ensures w'.secret.Some? && w'.secret.value.data.Some?
    ensures var t := w'.secret.value.data.value.token;
            && t.Some? && t.value.account == c.account && t.value.tunnelId == w'.tunnel.value.id
            && t.value.secret == w'.tunnel.value.secret && |t.value.secret| == 32
            && w'.secret.value.data.value.secret == Some(t.value.secret)
    ensures i.getGateway == i.getClass == i.classStatus == i.collect == i.push == i.statuses == Fine
  {
    hide Normalize, WellFormed, PassRel, ValidZones, Applied, Unowned, Inv, P.PushedList;
    AtApplyInv(c, own, w, i);
    AppliedSucceeds(c, own, w.gateway.value, AtApply(w, i), w', i);
  }

  /** DNS waits for the push: a pass on a live Gateway changes a zone only if its configuration went through, and the
      tunnel ends with it. */
  lemma DnsWaitsForPush(c: Config, own: set<string>, w: World, w': World, i: Inputs, err: bool)
    requires Inv(c, own, w) && ValidInputs(i) && Reconciled(c, w, w', i, err)
    requires w.gateway.Some? && !w.gateway.value.deleting && w'.stores != w.stores
    ensures i.push == Fine && w'.tunnel.Some? && w'.tunnel.value.config == i.cluster.Config()
  {
    hide Normalize, WellFormed, PassRel, ValidZones, Applied, Unowned, Inv, P.PushedList;
    AtApplyInv(c, own, w, i);
    AppliedWaits(c, own, w.gateway.value, AtApply(w, i), w', i, err);
  }

  lemma AppliedWaits(c: Config, own: set<string>, g: GatewayObject, w: World, w': World, i: Inputs, err: bool)
    requires Inv(c, own, w) && Consistent(w) && ValidInputs(i) && Applied(c, g, w, w', i, err)
    requires w.gateway.Some? && w.gateway.value.finalizer && w.gateway.value.uid == g.uid
    ensures w'.stores != w.stores ==> i.push == Fine && w'.tunnel.Some? && w'.tunnel.value.config == i.cluster.Config()
  {
    hide Normalize, WellFormed, PassRel, Provision, DnsApplied, ValidZones, Consistent, PointsAt, Unowned, Ready, Inv,
        P.PushedList;
    ProvisionAgrees(w, i, c.account);
    var (v, id) := Provision(w, i, c.account);
    if id.Some? {
      ReadyTunnel(v, c.account);
      PushHarmless(v, i, id.value, c.account);
    }
  }

  /** Success covers DNS too: with DNS managed for the Gateway, a tunnel that has an ID and canonical hostnames, the
      zones have converged on these hostnames and the tunnel at hand, and no wanted name was held by another owner or
      blocked by a record of another type. */
  lemma SuccessIsPublished(c: Config, own: set<string>, w: World, w': World, i: Inputs)
    requires Inv(c, own, w) && ValidInputs(i) && Reconciled(c, w, w', i, false)
    requires w.gateway.Some? && !w.gateway.value.deleting && w.ours
    requires c.manageDns && DnsEnabled(DnsOwner(w.gateway.value.uid, w.gateway.value.dnsManaged))
    requires Canonical(i.cluster.Hostnames())
    ensures w'.tunnel.Some?
    ensures w'.tunnel.value.id != "" ==>
              var p := PassFor(c, w.gateway.value.uid, w'.tunnel.value.id, i.cluster.Hostnames());
              Converged(w'.stores, p) && forall k: nat :: !HeldAt(w.stores, p, k) && !BlockedAt(w.stores, p, k)
  {
    hide Normalize, WellFormed, PassRel, ValidZones, Applied, Unowned, Inv, Converged, Canonical, HeldAt, BlockedAt,
        P.PushedList;
    AtApplyInv(c, own, w, i);
    AppliedPublishes(c, own, w.gateway.value, AtApply(w, i), w', i);
  }

  lemma AppliedPublishes(c: Config, own: set<string>, g: GatewayObject, w: World, w': World, i: Inputs)
    requires Inv(c, own, w) && Consistent(w) && ValidInputs(i) && Applied(c, g, w, w', i, false)
    requires w.gateway.Some? && w.gateway.value.finalizer && w.gateway.value.uid == g.uid
    requires c.manageDns && DnsEnabled(DnsOwner(g.uid, g.dnsManaged)) && Canonical(i.cluster.Hostnames())
    ensures w'.tunnel.Some?
    ensures w'.tunnel.value.id != "" ==>
              var p := PassFor(c, g.uid, w'.tunnel.value.id, i.cluster.Hostnames());
              Converged(w'.stores, p) && forall k: nat :: !HeldAt(w.stores, p, k) && !BlockedAt(w.stores, p, k)
  {
    hide Normalize, WellFormed, PassRel, Provision, Converged, Canonical, HeldAt, BlockedAt, Inv, Consistent, Ready,
        P.PushedList;
    AppliedSucceeds(c, own, g, w, w', i);
    ReadyTunnel(w', c.account);
    var (v, id) := Provision(w, i, c.account);
    if id.value != "" {
      InvStores(c, own, w);
      AppliedPass(c, own, g, w, w', i);
      TargetStable(id.value);
      CleanPassConverges(v.stores, w'.stores, PassFor(c, g.uid, id.value, i.cluster.Hostnames()), false);
    }
  }

  /** The DNS part of a successful apply was one pass without failure. */
  lemma AppliedPass(c: Config, own: set<string>, g: GatewayObject, w: World, w': World, i: Inputs)
    requires Inv(c, own, w) && Consistent(w) && ValidInputs(i) && Applied(c, g, w, w', i, false)
    requires w.gateway.Some? && w.gateway.value.finalizer && w.gateway.value.uid == g.uid
    requires c.manageDns && DnsEnabled(DnsOwner(g.uid, g.dnsManaged))
    ensures w'.tunnel.Some?
    ensures w'.tunnel.value.id != "" ==>
              PassRel(w.stores, w'.stores, PassFor(c, g.uid, w'.tunnel.value.id, i.cluster.Hostnames()), false, false)
  {
    hide Normalize, WellFormed, PassRel, Provision, Inv, Consistent, Ready, P.PushedList, PassFor;
    AppliedSucceeds(c, own, g, w, w', i);
    ReadyTunnel(w', c.account);
    var (v, id) := Provision(w, i, c.account);
    if id.value != "" {
      var p := PassFor(c, g.uid, id.value, i.cluster.Hostnames());
      var failed :| PassRel(v.stores, w'.stores, p, failed, false);
      ErrorFree(v.stores, w'.stores, p, failed);
    }
  }

  /** From the cluster to DNS in one reconcile: with DNS managed and a tunnel ID, success means that a zone holds a
      record of the Gateway for a concrete name exactly when it is the name's longest-suffix zone, some listed route is
      served under the name, and no other owner holds it; the record points at the tunnel just configured. */
  lemma SuccessPublishesExactly(c: Config, own: set<string>, w: World, w': World, i: Inputs, gw: A.Gateway,
                                listed: GatewayApi.Routes, labels: string -> Option<map<string, string>>, x: string,
                                k: nat)
    requires Inv(c, own, w) && ValidInputs(i) && Reconciled(c, w, w', i, false)
    requires w.gateway.Some? && !w.gateway.value.deleting && w.ours
    requires c.manageDns && DnsEnabled(DnsOwner(w.gateway.value.uid, w.gateway.value.dnsManaged))
    requires N.AttachedTo(gw, listed, labels, i.cluster.routes) && N.CleanNames(gw, listed)
    requires S.Proper(x) && Normalize(x) == x && !A.IsWildcard(x) && k < |c.zones|
    ensures w'.tunnel.Some? && w'.tunnel.value.config == i.cluster.Config()
    ensures w'.tunnel.value.id != "" ==>
              && c.zones[k].id in w'.stores
              && var s, owner := w'.stores[c.zones[k].id], OwnerComment(w.gateway.value.uid);
                 && (N.OwnedName(s, x, owner) <==>
                     && MatchZone(x, c.zones) == Some(c.zones[k]) && N.Wanted(gw, listed, labels, x)
                     && !HeldByOther(s, x, owner))
                 && (N.OwnedName(s, x, owner) ==> N.Published(s, x, TargetOf(w'.tunnel.value.id), owner))
  {
    hide Normalize, WellFormed, PassRel, ValidZones, Applied, Unowned, Inv, P.PushedList, HeldByOther, N.OwnedName,
        N.Published, N.Wanted, N.AttachedTo, N.CleanNames, OwnerComment, A.NormalizeHost, N.NamesOf, Collected;
    SuccessIsPushed(c, own, w, w', i);
    AtApplyInv(c, own, w, i);
    AppliedPass(c, own, w.gateway.value, AtApply(w, i), w', i);
    var id := w'.tunnel.value.id;
    if id != "" {
      InvStores(c, own, w);
      N.PublishedIff(gw, listed, labels, i.cluster.routes, w.stores, w'.stores,
                     PassFor(c, w.gateway.value.uid, id, i.cluster.Hostnames()), false, id, x, k);
    }
  }

  lemma InvStores(c: Config, own: set<string>, w: World)
    requires Inv(c, own, w)
    ensures AllWellFormed(w.stores)
  {
  }

  lemma ErrorFree(st: Stores, st': Stores, p: Pass, failed: bool)
    requires PassRel(st, st', p, failed, false)
    ensures !failed
  {
  }

  /** The finalizer goes only in a cleanup pass that leaves no tunnel, Secret, Deployment or record. */
  lemma FinalizerGoesLast(c: Config, own: set<string>, w: World, w': World, i: Inputs, err: bool)
    requires Inv(c, own, w) && ValidInputs(i) && Reconciled(c, w, w', i, err)
    requires w.gateway.Some? && w.gateway.value.finalizer && !(w'.gateway.Some? && w'.gateway.value.finalizer)
    ensures w.gateway.value.deleting
    ensures w'.tunnel.None? && w'.secret.None? && !w'.deployment && Unowned(w'.stores, w.gateway.value.uid)
  {
    hide Normalize, WellFormed, PassRel, ValidZones, Applied, CleanedUp, Unowned;
    var g := w.gateway.value;
    if g.deleting {
      var v, failed :| CleanedUp(c, g, w, v, i, failed) &&
        if failed then w' == v && err
        else w' == Write(v, v.(gateway := DropFinalizer(g)), i.removeFinalizer) && (err <==> i.removeFinalizer != Fine);
      CleanedUpFacts(c, own, g, w, v, i, failed);
    } else {
      var w1 := if i.deletedBeforeFinalizer then w.(gateway := UserDeletes(w.gateway)) else w;
      var w3 := if i.deletedAfterFinalizer then w1.(gateway := UserDeletes(w1.gateway)) else w1;
      AppliedKeepsInv(c, own, g, w3, w', i, err);
    }
  }

  /** A reconcile of a Gateway under deletion that reports success has removed everything and let go. */
  lemma SuccessfulDeletion(c: Config, own: set<string>, w: World, w': World, i: Inputs)
    requires Inv(c, own, w) && ValidInputs(i) && Reconciled(c, w, w', i, false)
    requires w.gateway.Some? && w.gateway.value.deleting && w.gateway.value.finalizer && w.ours
    ensures w'.gateway == if w.gateway.value.others then Some(w.gateway.value.(finalizer := false)) else None
    ensures w'.tunnel.None? && w'.secret.None? && !w'.deployment && Unowned(w'.stores, w.gateway.value.uid)
  {
    hide Normalize, WellFormed, PassRel, ValidZones, CleanedUp, Unowned;
    var g := w.gateway.value;
    var v, failed :| CleanedUp(c, g, w, v, i, failed) &&
      if failed then w' == v && false
      else w' == Write(v, v.(gateway := DropFinalizer(g)), i.removeFinalizer) && i.removeFinalizer == Fine;
    CleanedUpFacts(c, own, g, w, v, i, failed);
  }

  /** A pass leaves everything alone unless it can read the Gateway and its class, the class is ours, and the Gateway is
      alive or still holds our finalizer. */
  lemma OtherwiseUntouched(c: Config, w: World, w': World, i: Inputs, err: bool)
    requires Reconciled(c, w, w', i, err)
    requires || i.getGateway != Fine || i.getClass != Fine || !w.ours || w.gateway.None?
             || (w.gateway.value.deleting && !w.gateway.value.finalizer)
    ensures w' == w
    ensures err <==> i.getGateway != Fine || (w.gateway.Some? && i.getClass != Fine)
  {
    hide Applied, CleanedUp;
  }

  /** Opting out: on a live Gateway annotated so, and on any with DNS switched off, no zone changes. */
  lemma OptedOutOfDns(c: Config, w: World, w': World, i: Inputs, err: bool)
    requires Reconciled(c, w, w', i, err)
    requires || !c.manageDns
             || (w.gateway.Some? && !w.gateway.value.deleting && w.gateway.value.dnsManaged == Some("false"))
    ensures w'.stores == w.stores
  {
    hide Applied, CleanedUp;
    if w.gateway.Some? && w.ours && i.getGateway == i.getClass == Fine {
      var g := w.gateway.value;
      if !g.deleting {
        if Applied(c, g, AtApply(w, i), w', i, err) {
          AppliedOptedOut(c, g, AtApply(w, i), w', i, err);
        }
      } else if v, failed :| CleanedUp(c, g, w, v, i, failed) && w'.stores == v.stores {
        CleanedUpOptedOut(c, g, w, v, i, failed);
      }
    }
  }

  lemma AppliedOptedOut(c: Config, g: GatewayObject, w: World, w': World, i: Inputs, err: bool)
    requires Applied(c, g, w, w', i, err) && (!c.manageDns || g.dnsManaged == Some("false"))
    ensures w'.stores == w.stores
  {
    hide Provision, PassRel, P.PushedList, DnsEnabled;
    ProvisionFrame(w, i, c.account);
    FalseOptsOut(DnsOwner(g.uid, g.dnsManaged));
  }

  lemma FalseOptsOut(o: DnsOwner)
    ensures o.dnsManaged == Some("false") ==> !DnsEnabled(o)
  {
    assert ToLower("false") == "false";
  }

  lemma CleanedUpOptedOut(c: Config, g: GatewayObject, w: World, v: World, i: Inputs, failed: bool)
    requires CleanedUp(c, g, w, v, i, failed) && !c.manageDns
    ensures v.stores == w.stores
  {
    hide PassRel, DeleteIt;
  }

  lemma ProvisionFrame(w: World, i: Inputs, account: string)
    ensures SameFrame(w, Provision(w, i, account).0)
  {
    hide EnsureSecret, EnsureTunnel, StoreToken, ApplyDeployment;
    EnsureSecretAgrees(w, i);
    var (w1, s) := EnsureSecret(w, i);
    if s.SecretReady? {
      EnsureTunnelAgrees(w1, i, s.secret, s.regenerated);
      var (w2, id) := EnsureTunnel(w1, i, s.secret, s.regenerated);
      if id.Some? {
        var t := Token(account, id.value, s.secret);
        StoreTokenAgrees(w2, i, t);
        ApplyDeploymentAgrees(StoreToken(w2, i, t).0, i);
      }
    }
  }

  // ----- Recovery -----

  /** No call outside DNS fails and the user does not interfere. */
  ghost predicate Healthy(i: Inputs) {
    && i.getGateway == i.getClass == i.addFinalizer == i.removeFinalizer == i.classStatus == Fine
    && i.getSecret == i.createSecret == i.updateSecret == i.getTunnel == i.deleteTunnel == i.createTunnel == Fine
    && i.getForToken == i.updateForToken == i.getDeployment == i.writeDeployment == Fine
    && i.collect == i.push == i.statuses == i.deleteDeployment == i.deleteSecret == Fine
    && !i.deletedBeforeFinalizer && !i.deletedAfterFinalizer && forall k :: !i.cluster.listFails(k)
  }

  lemma HealthyProvision(w: World, i: Inputs, account: string)
    requires Consistent(w) && Healthy(i)
    ensures Provision(w, i, account).1.Some?
  {
  }

  /** Recovery: from every state the invariant allows, however it came about, one healthy reconcile of a live
      Gateway ends ready, and the only error it can report is one of DNS. */
  lemma HealthyReconcileIsReady(c: Config, own: set<string>, w: World, w': World, i: Inputs, err: bool)
    requires Inv(c, own, w) && ValidInputs(i) && Healthy(i) && Reconciled(c, w, w', i, err)
    requires w.ours && w.gateway.Some? && !w.gateway.value.deleting && w.gateway.value.uid != ""
    ensures Ready(w', c.account) && w'.gateway == Some(w.gateway.value.(finalizer := true))
    ensures w'.tunnel.value.config == i.cluster.Config()
    ensures err ==> c.manageDns && DnsEnabled(DnsOwner(w.gateway.value.uid, w.gateway.value.dnsManaged))
  {
    hide Normalize, WellFormed, PassRel, ValidZones, Unowned, Provision, EnsureSecret, EnsureTunnel, StoreToken,
        ApplyDeployment;
    var g := w.gateway.value;
    var w3 := if g.finalizer then w else w.(gateway := Some(g.(finalizer := true)));
    ProvisionAgrees(w3, i, c.account);
    HealthyProvision(w3, i, c.account);
  }

  /** Cleanup is best effort: with every call of its own succeeding, a part is gone whatever DNS does, and the
      finalizer stays exactly when DNS reports an error. */
  lemma HealthyCleanup(c: Config, w: World, w': World, i: Inputs, err: bool)
    requires Healthy(i) && Reconciled(c, w, w', i, err)
    requires w.ours && w.gateway.Some? && w.gateway.value.deleting && w.gateway.value.finalizer
    ensures w'.tunnel.None? && w'.secret.None? && !w'.deployment
    ensures w'.gateway == if err then w.gateway else DropFinalizer(w.gateway.value)
    ensures err ==> c.manageDns
  {
  }

  // ----- When somebody else touches the Secret -----

  /** Success of the provisioning steps means agreement exactly when the Secret was not lost or changed
      behind a standing tunnel: it is then missing or valid with another content. A corrupted one is
      noticed and the tunnel recreated. */
  lemma AgreementIff(w: World, i: Inputs, account: string)
    requires ValidInputs(i) && Provision(w, i, account).1.Some?
    requires w.tunnel.Some? ==> w.tunnel.value.secret != i.random
    ensures Ready(Provision(w, i, account).0, account) <==>
            || w.tunnel.None?
            || (w.secret.Some? && !ValidSecret(w.secret.value))
            || (w.secret.Some? && w.secret.value.data.value.secret == Some(w.tunnel.value.secret))
  {
  }

  const NOTHING_READ := Reading(GatewayApi.Routes([], [], [], []), (t: B.Target) => None,
                                P.PolicySet("", [], [], map[]), (k: B.Key) => false)

  const ALL_FINE := Inputs(Fine, Fine, Fine, Fine, Fine, Fine, Fine, Fine, Fine, Fine, Fine, Fine, Fine, Fine, Fine,
                           Fine, Fine, Fine, Fine, Fine,
                           Faults(Fine, k => Fine, (k, c) => Fine), [], "new", NOTHING_READ, false, false)

  /** A Secret deleted behind a standing tunnel is created anew without the tunnel being recreated: the
      pass succeeds and the token carries a secret the tunnel does not know. */
  lemma DeletedSecretDisagrees(w: World, random: seq<int>, account: string)
    requires |random| == SECRET_SIZE && w.secret.None? && w.tunnel.Some? && w.tunnel.value.secret != random
    ensures var (v, id) := Provision(w, ALL_FINE.(random := random), account);
            id.Some? && v.tunnel == w.tunnel && v.secret.value.data.value.secret != Some(v.tunnel.value.secret)
  {
  }

  /** A corrupted Secret is regenerated, but when the pass fails before the tunnel is deleted, the next one
      finds a valid Secret, keeps the old tunnel and succeeds in disagreement. */
  lemma LostRegenerationDisagrees(w: World, random: seq<int>, account: string)
    requires |random| == SECRET_SIZE && w.tunnel.Some? && w.tunnel.value.secret != random
    requires w.secret.Some? && w.secret.value.data.Some? && !ValidSecret(w.secret.value)
    ensures var first := ALL_FINE.(random := random, deleteTunnel := FailsBefore);
            var (v, failed) := Provision(w, first, account);
            var (u, id) := Provision(v, ALL_FINE, account);
            failed.None? && id.Some? && u.tunnel == w.tunnel
                && u.secret.value.data.value.secret != Some(u.tunnel.value.secret)
  {
  }
}
