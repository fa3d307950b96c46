/** The reconcile pass as the controller runs it, call by call, over the state it can reach. */
module LifecyclePasses {
  import opened Text
  import opened DnsStore
  import opened DnsReconcile
  import opened DnsPasses
  import opened Lifecycle
  import opened Seqs
  import GatewayApi
  import N = Publishing
  import P = Push

  class Reconciler {
    const c: Config
    const api: Cloudflare
    var gateway: Option<GatewayObject>
    var ours: bool
    var secret: Option<Secret>
    var tunnel: Option<Tunnel>
    var deployment: bool

    constructor (c: Config, api: Cloudflare)
      ensures this.c == c && this.api == api && gateway.None? && secret.None? && tunnel.None? && !deployment && !ours
    {
      this.c, this.api := c, api;
      gateway, ours, secret, tunnel, deployment := None, false, None, None, false;
    }

    function State(): World
      reads this, api
    {
      World(gateway, ours, secret, tunnel, deployment, api.stores)
    }

    ghost predicate Valid()
      reads this, api
    {
      api.zones == c.zones && api.Valid() && AllWellFormed(api.stores)
    }

    // ----- Secret, tunnel, token, Deployment -----

    static predicate HoldsKey(s: Option<Secret>, key: seq<int>) {
      s.Some? && s.value.data.Some? && s.value.data.value.secret == Some(key)
    }

    /** On success the Secret holds the returned key; a valid Secret is never rewritten, and the flag tells that
        an invalid one was. */
    method EnsureTunnelSecret(i: Inputs) returns (o: SecretOutcome)
      modifies this`secret
      ensures (State(), o) == EnsureSecret(old(State()), i)
      ensures o.SecretReady? ==> HoldsKey(secret, o.secret)
      ensures old(secret).Some? && ValidSecret(old(secret).value) ==> secret == old(secret)
      ensures o.SecretReady? && o.regenerated ==> old(secret).Some? && !ValidSecret(old(secret).value)
      ensures secret != old(secret) ==> HoldsKey(secret, i.random)
    {
      if i.getSecret != Fine {
        return SecretFailed;
      }
      if secret.None? {
        if i.createSecret != FailsBefore {
          secret := Some(FreshSecret(i.random));
        }
        return if i.createSecret == Fine then SecretReady(i.random, false) else SecretFailed;
      }
      var s := secret.value;
      if ValidSecret(s) {
        return SecretReady(s.data.value.secret.value, false);
      }
      if s.data.None? {
        return SecretFailed;
      }
      if i.updateSecret != FailsBefore {
        secret := Some(Regenerated(s, i.random));
      }
      o := if i.updateSecret == Fine then SecretReady(i.random, true) else SecretFailed;
    }

    /** On success the returned ID is the standing tunnel's. A tunnel is replaced only after a regeneration, and
        any new one has the given key. */
    method EnsureGatewayTunnel(i: Inputs, key: seq<int>, regenerated: bool) returns (id: Option<string>)
      modifies this`tunnel
      ensures (State(), id) == EnsureTunnel(old(State()), i, key, regenerated)
      ensures id.Some? ==> tunnel.Some? && tunnel.value.id == id.value
      ensures id.Some? && (regenerated || old(tunnel).None?) ==> tunnel.value.secret == key
      ensures tunnel != old(tunnel) ==>
              (old(tunnel).None? || regenerated) && (tunnel.Some? ==> tunnel.value.secret == key)
    {
      if i.getTunnel != Fine {
        return None;
      }
      var tunnelFound := tunnel.Some?;
      if tunnelFound && regenerated {
        if i.deleteTunnel != FailsBefore {
          tunnel := None;
        }
        if i.deleteTunnel != Fine {
          return None;
        }
        tunnelFound := false;
      }
      if !tunnelFound {
        if i.createTunnel != FailsBefore {
          tunnel := Some(Tunnel(i.newTunnelId, key, []));
        }
        if i.createTunnel != Fine {
          return None;
        }
        return Some(i.newTunnelId);
      }
      id := Some(tunnel.value.id);
    }

    /** On success the Secret holds the token; at most the token changes. */
    method StoreTunnelToken(i: Inputs, t: Token) returns (ok: bool)
      modifies this`secret
      ensures (State(), ok) == StoreToken(old(State()), i, t)
      ensures ok ==> secret.Some? && secret.value.data.Some? && secret.value.data.value.token == Some(t)
      ensures forall key :: HoldsKey(secret, key) <==> HoldsKey(old(secret), key)
    {
      if i.getForToken != Fine || secret.None? {
        return false;
      }
      if i.updateForToken != FailsBefore {
        secret := Some(WithToken(secret.value, t));
      }
      ok := i.updateForToken == Fine;
    }

    method ApplyTunnelDeployment(i: Inputs) returns (ok: bool)
      modifies this`deployment
      ensures (State(), ok) == ApplyDeployment(old(State()), i)
    {
      if i.getDeployment != Fine {
        return false;
      }
      if i.writeDeployment != FailsBefore {
        deployment := true;
      }
      ok := i.writeDeployment == Fine;
    }

    /** Wherever it stops, Secret and tunnel stay in agreement; an ID means that everything is in place. */
    method ProvisionTunnel(i: Inputs) returns (id: Option<string>)
      modifies this`secret, this`tunnel, this`deployment
      ensures (State(), id) == Provision(old(State()), i, c.account)
      ensures ValidInputs(i) && Consistent(old(State())) ==>
                Consistent(State()) && (id.Some? ==> Ready(State(), c.account) && tunnel.value.id == id.value)
    {
      hide EnsureSecret, EnsureTunnel, StoreToken, ApplyDeployment, Consistent, Ready;
      ghost var before := State();
      if ValidInputs(i) && Consistent(before) {
        ProvisionAgrees(before, i, c.account);
      }
      var s := EnsureTunnelSecret(i);
      if s.SecretFailed? {
        return None;
      }
      id := EnsureGatewayTunnel(i, s.secret, s.regenerated);
      if id.None? {
        return;
      }
      var stored := StoreTunnelToken(i, Token(c.account, id.value, s.secret));
      if !stored {
        return None;
      }
      var deployed := ApplyTunnelDeployment(i);
      if !deployed {
        return None;
      }
    }

    // ----- Passes -----

    /** Replaces the configuration of a tunnel. */
    method UpdateTunnelConfiguration(id: string, config: seq<P.IngressRule>, fault: Fault) returns (ok: bool)
      modifies this`tunnel
      ensures tunnel == if fault != FailsBefore && old(tunnel).Some? && old(tunnel).value.id == id
                        then Some(old(tunnel).value.(config := config)) else old(tunnel)
      ensures ok <==> fault == Fine
    {
      if fault != FailsBefore && tunnel.Some? && tunnel.value.id == id {
        tunnel := Some(tunnel.value.(config := config));
      }
      ok := fault == Fine;
    }

    /** The names the attached routes are published under. */
    method RouteHostnames(routes: GatewayApi.Routes) returns (hostnames: seq<string>)
      ensures hostnames == Collected(N.NamesOf(routes))
    {
      var h := N.HostnamesOf();
      MapParts(routes.http, routes.grpc, routes.tls);
      hostnames := CollectRouteHostnames(Map(routes.http, h), Map(routes.grpc, h), Map(routes.tls, h));
    }

    method Apply(g: GatewayObject, i: Inputs) returns (err: bool)
      requires Valid() && ValidInputs(i)
      modifies this`secret, this`tunnel, this`deployment, api`stores
      ensures Valid() && Applied(c, g, old(State()), State(), i, err)
    {
      hide Provision, PassRel, Normalize, WellFormed, DnsApplied, P.PushedList, N.NamesOf, Collected, P.ByKind;
      if g.uid == "" || i.classStatus != Fine {
        return true;
      }
      var id := ProvisionTunnel(i);
      if id.None? || i.collect != Fine {
        return true;
      }
      ghost var v := State();
      var r := i.cluster;
      var assembled, list := P.AssembleConfig(r.routes, r.resolve, r.policies, r.listFails);
      assert CanAssemble(i, assembled);
      if !assembled {
        return true;
      }
      var config := P.ToIngressRules(list);
      var pushed := UpdateTunnelConfiguration(id.value, config, i.push);
      ghost var u := State();
      assert u == PushConfig(v, i, id.value);
      if !pushed {
        assert PushedAndPublished(c, g, v, State(), i, id.value, true);
        return true;
      }
      var hostnames := RouteHostnames(r.routes);
      var dnsErr := PublishDns(g, id.value, hostnames, i.dns);
      err := dnsErr || i.statuses != Fine;
      assert DnsApplied(c, g, id.value, r.Hostnames(), u.stores, State().stores, dnsErr);
      assert PushedAndPublished(c, g, v, State(), i, id.value, err);
    }

    /** The DNS part of an apply. */
    method PublishDns(g: GatewayObject, id: string, hostnames: seq<string>, faults: Faults) returns (err: bool)
      requires Valid()
      modifies api`stores
      ensures Valid() && DnsApplied(c, g, id, hostnames, old(api.stores), api.stores, err)
    {
      hide PassRel, Normalize, WellFormed;
      ghost var failed;
      err, failed := api.ReconcileDns(c.manageDns, DnsOwner(g.uid, g.dnsManaged), id, hostnames, faults);
      if c.manageDns && DnsEnabled(DnsOwner(g.uid, g.dnsManaged)) && id != "" {
        assert PassRel(old(api.stores), api.stores, PassFor(c, g.uid, id, hostnames), failed, err);
      }
    }

    method RemoveTunnel(i: Inputs) returns (ok: bool)
      modifies this`tunnel
      ensures (tunnel.Some?, ok) == DeleteIt(old(tunnel).Some?, i.getTunnel, i.deleteTunnel)
      ensures tunnel.Some? ==> tunnel == old(tunnel)
    {
      if i.getTunnel != Fine {
        return false;
      }
      if tunnel.Some? {
        if i.deleteTunnel != FailsBefore {
          tunnel := None;
        }
        return i.deleteTunnel == Fine;
      }
      ok := true;
    }

    method RemoveDeployment(i: Inputs) returns (ok: bool)
      modifies this`deployment
      ensures (deployment, ok) == DeleteIt(old(deployment), i.getDeployment, i.deleteDeployment)
    {
      if i.getDeployment != Fine {
        return false;
      }
      if deployment {
        deployment := i.deleteDeployment == FailsBefore;
        return i.deleteDeployment == Fine;
      }
      ok := true;
    }

    method RemoveSecret(i: Inputs) returns (ok: bool)
      modifies this`secret
      ensures (secret.Some?, ok) == DeleteIt(old(secret).Some?, i.getSecret, i.deleteSecret)
      ensures secret.Some? ==> secret == old(secret)
    {
      if i.getSecret != Fine {
        return false;
      }
      if secret.Some? {
        if i.deleteSecret != FailsBefore {
          secret := None;
        }
        return i.deleteSecret == Fine;
      }
      ok := true;
    }

    method Cleanup(g: GatewayObject, i: Inputs) returns (err: bool)
      requires Valid()
      modifies this`secret, this`tunnel, this`deployment, api`stores
      ensures Valid() && CleanedUp(c, g, old(State()), State(), i, err)
    {
      hide PassRel, Normalize, WellFormed, DeleteIt;
      var tunnelGone := RemoveTunnel(i);
      var deploymentGone := RemoveDeployment(i);
      var secretGone := RemoveSecret(i);
      var dnsErr := api.TeardownDns(c.manageDns, DnsOwner(g.uid, g.dnsManaged), i.dns);
      assert DnsTornDown(c, g, old(State()).stores, State().stores, dnsErr);
      err := !tunnelGone || !deploymentGone || !secretGone || dnsErr;
    }

    /** What the user does to the Gateway while the pass runs. */
    method Interrupt(deletes: bool)
      modifies this`gateway
      ensures gateway == if deletes then UserDeletes(old(gateway)) else old(gateway)
    {
      if deletes {
        gateway := UserDeletes(gateway);
      }
    }

    method Reconcile(i: Inputs) returns (err: bool)
      requires Valid() && ValidInputs(i)
      modifies this, api`stores
      ensures Valid() && Reconciled(c, old(State()), State(), i, err)
    {
      hide Applied, CleanedUp, WellFormed;
      if i.getGateway != Fine {
        return true;
      }
      if gateway.None? {
        return false;
      }
      if i.getClass != Fine {
        return true;
      }
      if !ours {
        return false;
      }
      var g := gateway.value;
      if g.deleting {
        if g.finalizer {
          var failed := Cleanup(g, i);
          ghost var v := State();
          assert CleanedUp(c, g, old(State()), v, i, failed);
          if failed {
            return true;
          }
          if i.removeFinalizer != FailsBefore {
            gateway := DropFinalizer(g);
          }
          return i.removeFinalizer != Fine;
        }
        return false;
      }
      Interrupt(i.deletedBeforeFinalizer);
      if !g.finalizer {
        if gateway != Some(g) || i.addFinalizer == FailsBefore {
          return true;
        }
        gateway := Some(g.(finalizer := true));
        if i.addFinalizer != Fine {
          return true;
        }
      }
      Interrupt(i.deletedAfterFinalizer);
      err := Apply(g, i);
    }
  }

  lemma MapParts(a: seq<GatewayApi.Route>, b: seq<GatewayApi.Route>, c: seq<GatewayApi.Route>)
    ensures Map(a + b + c, N.HostnamesOf()) ==
            Map(a, N.HostnamesOf()) + Map(b, N.HostnamesOf()) + Map(c, N.HostnamesOf())
  {
  }
}
