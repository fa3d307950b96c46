/** Policy attachment: which policy wins on a target, and which one status reports as accepted. */
module Policies {
  import opened Text
  import opened GatewayApi
  import opened Seqs

  datatype TargetRef = TargetRef(group: string, kind: string, name: string)

  datatype Policy<S> = Policy(created: int, ns: string, name: string, refs: seq<TargetRef>, spec: S)

  /** Oldest first, then by namespace and name. */
  predicate OlderThan<S>(a: Policy<S>, b: Policy<S>) {
    if a.created != b.created then a.created < b.created
    else if a.ns != b.ns then Less(a.ns, b.ns)
    else Less(a.name, b.name)
  }

  predicate SameObject<S>(a: Policy<S>, b: Policy<S>) {
    a.name == b.name && a.ns == b.ns
  }

  /** No two policies of a list are the same object. */
  ghost predicate DistinctObjects<S>(ps: seq<Policy<S>>) {
    forall p, q :: p in ps && q in ps && SameObject(p, q) ==> p == q
  }

  /** OlderThan is a strict total order on distinct objects. */
  lemma OlderTotal<S>(a: Policy<S>, b: Policy<S>)
    ensures !(OlderThan(a, b) && OlderThan(b, a))
    ensures !SameObject(a, b) ==> OlderThan(a, b) || OlderThan(b, a)
  {
    LessTotal(a.ns, b.ns);
    LessTotal(a.name, b.name);
    LessAsymmetric(a.ns, b.ns);
    LessAsymmetric(a.name, b.name);
  }

  lemma OlderTransitive<S>(a: Policy<S>, b: Policy<S>, c: Policy<S>)
    requires OlderThan(a, b) && OlderThan(b, c)
    ensures OlderThan(a, c)
  {
    hide Less;
    LessAsymmetric(a.ns, b.ns);
    if Less(a.ns, b.ns) && Less(b.ns, c.ns) {
      LessTransitive(a.ns, b.ns, c.ns);
    }
    if Less(a.name, b.name) && Less(b.name, c.name) {
      LessTransitive(a.name, b.name, c.name);
    }
    LessAsymmetric(a.ns, c.ns);
    LessAsymmetric(b.ns, c.ns);
  }

  predicate Targets(refs: seq<TargetRef>, group: string, kind: string, name: string) {
    exists r <- refs :: r == TargetRef(group, kind, name)
  }

  // ----- The applied winner -----

  function Winner<S>(ps: seq<Policy<S>>, kind: string, name: string): Option<Policy<S>> {
    if ps == [] then None
    else
      var w, p := Winner(ps[..|ps| - 1], kind, name), ps[|ps| - 1];
      if Targets(p.refs, GATEWAY_GROUP, kind, name) && (w.None? || OlderThan(p, w.value)) then Some(p) else w
  }

  /** The search loop behind both the access and the origin policy. */
  method PolicyForTarget<S>(ps: seq<Policy<S>>, kind: string, name: string) returns (winner: Option<Policy<S>>)
    ensures winner == Winner(ps, kind, name)
  {
    hide Targets, OlderThan;
    winner := None;
    for i := 0 to |ps|
      invariant winner == Winner(ps[..i], kind, name)
    {
      assert ps[..i + 1][..i] == ps[..i];
      if !Targets(ps[i].refs, GATEWAY_GROUP, kind, name) {
        continue;
      }
      if winner.None? || OlderThan(ps[i], winner.value) {
        winner := Some(ps[i]);
      }
    }
    assert ps[..|ps|] == ps;
  }

  /** The winner is the one policy targeting the resource that is older than all others doing so. */
  lemma {:induction false} WinnerIsOldest<S>(ps: seq<Policy<S>>, kind: string, name: string)
    requires DistinctObjects(ps)
    ensures var w := Winner(ps, kind, name);
            && (w.None? <==> forall p <- ps :: !Targets(p.refs, GATEWAY_GROUP, kind, name))
            && (w.Some? ==> w.value in ps && Targets(w.value.refs, GATEWAY_GROUP, kind, name))
            && (w.Some? ==> forall p <- ps :: Targets(p.refs, GATEWAY_GROUP, kind, name) ==>
                p == w.value || OlderThan(w.value, p))
  {
    hide Targets, OlderThan;
    if ps != [] {
      var front, p := ps[..|ps| - 1], ps[|ps| - 1];
      assert ps == front + [p] && p in ps;
      WinnerIsOldest(front, kind, name);
      var v := Winner(front, kind, name);
      if Targets(p.refs, GATEWAY_GROUP, kind, name) && v.Some? {
        OlderTotal(p, v.value);
        if OlderThan(p, v.value) {
          forall q | q in front && Targets(q.refs, GATEWAY_GROUP, kind, name) ensures OlderThan(p, q) {
            if q != v.value {
              OlderTransitive(p, v.value, q);
            }
          }
        }
      }
    }
  }

  /** Said on the objects: the winner has a reference to the target in the Gateway API group, and every other policy
      that has one was created later, or at the same time in a later Namespace, or there under a later name. */
  lemma WinnerIsFirst<S>(ps: seq<Policy<S>>, kind: string, name: string)
    requires DistinctObjects(ps)
    ensures var w := Winner(ps, kind, name);
            && (w.None? <==> forall p <- ps, r <- p.refs ::
                 !(r.group == "gateway.networking.k8s.io" && r.kind == kind && r.name == name))
            && (w.Some? ==>
                 && w.value in ps
                 && (exists r <- w.value.refs ::
                      r.group == "gateway.networking.k8s.io" && r.kind == kind && r.name == name)
                 && forall p <- ps, r <- p.refs ::
                      r.group == "gateway.networking.k8s.io" && r.kind == kind && r.name == name && p != w.value ==>
                        || w.value.created < p.created
                        || (w.value.created == p.created && Less(w.value.ns, p.ns))
                        || (w.value.created == p.created && w.value.ns == p.ns && Less(w.value.name, p.name)))
  {
    hide Winner, Less;
    WinnerIsOldest(ps, kind, name);
    forall p <- ps
      ensures Targets(p.refs, GATEWAY_GROUP, kind, name) <==>
              exists r <- p.refs :: r.group == "gateway.networking.k8s.io" && r.kind == kind && r.name == name
    {
    }
  }

  /** Listing order is irrelevant: the same policies in any order have the same winner. */
  lemma WinnerIgnoresOrder<S>(ps: seq<Policy<S>>, qs: seq<Policy<S>>, kind: string, name: string)
    requires DistinctObjects(ps) && forall p :: p in ps <==> p in qs
    ensures Winner(ps, kind, name) == Winner(qs, kind, name)
  {
    hide Targets, OlderThan, Winner;
    WinnerIsOldest(ps, kind, name);
    WinnerIsOldest(qs, kind, name);
    var v, w := Winner(ps, kind, name), Winner(qs, kind, name);
    if v.Some? && w.Some? {
      OlderTotal(v.value, w.value);
    }
  }

  lemma WinnerOfOne<S>(p: Policy<S>, kind: string, name: string)
    ensures Winner([p], kind, name) == if Targets(p.refs, GATEWAY_GROUP, kind, name) then Some(p) else None
  {
  }

  // ----- Namespaces -----

  /** The policies of one Namespace. A policy can only mean objects of its own. */
  function Of<S>(ps: seq<Policy<S>>, ns: string): seq<Policy<S>> {
    Filter(ps, (p: Policy<S>) => p.ns == ns)
  }

  ghost predicate AllIn<S>(ps: seq<Policy<S>>, ns: string) {
    forall p <- ps :: p.ns == ns
  }

  lemma OfOne<S>(ps: seq<Policy<S>>, ns: string, other: string)
    requires AllIn(ps, ns)
    ensures Of(ps, other) == if other == ns then ps else []
  {
    assert forall k :: 0 <= k < |ps| ==> ps[k] in ps;
    if other == ns {
      FilterEverything(ps, (p: Policy<S>) => p.ns == other);
    } else {
      FilterNothing(ps, (p: Policy<S>) => p.ns == other);
    }
  }

  /** Targets are looked up by kind and name alone: with the policies of one Namespace, the winner for a route is the
      one a policy of the route's own Namespace would be exactly when the route lies in that Namespace or nothing
      targets its kind and name. */
  lemma WinnerIsOwnIff<S>(ps: seq<Policy<S>>, ns: string, kind: string, routeNs: string, name: string)
    requires AllIn(ps, ns)
    ensures Winner(ps, kind, name) == Winner(Of(ps, routeNs), kind, name) <==>
            routeNs == ns || Winner(ps, kind, name).None?
  {
    hide Of;
    OfOne(ps, ns, routeNs);
  }

  // ----- Acceptance -----

  function TargetKey(kind: string, name: string): string {
    kind + "/" + name
  }

  /** A kind never contains a slash, so distinct targets have distinct keys. */
  lemma {:induction false} TargetKeyInjective(k1: string, n1: string, k2: string, n2: string)
    requires '/' !in k1 && '/' !in k2 && TargetKey(k1, n1) == TargetKey(k2, n2)
    ensures k1 == k2 && n1 == n2
  {
    var a, b := TargetKey(k1, n1), TargetKey(k2, n2);
    assert a[|k1|] == '/' && b[|k2|] == '/';
    assert forall i :: 0 <= i < |k1| ==> a[i] == k1[i];
    assert forall i :: 0 <= i < |k2| ==> b[i] == k2[i];
    assert |k1| >= |k2| && |k2| >= |k1|;
    assert k1 == a[..|k1|] && k2 == b[..|k2|];
    assert n1 == a[|k1| + 1..] && n2 == b[|k2| + 1..];
  }

  /** What a policy may validly attach to for one Gateway: itself and its attached routes. */
  function ValidTargets(gwName: string, routes: seq<Route>): set<string> {
    {TargetKey("Gateway", gwName)} + set r <- routes :: TargetKey(r.kind, r.name)
  }

  lemma ValidTargetsExact(gwName: string, routes: seq<Route>, kind: string, name: string)
    requires '/' !in kind && forall r <- routes :: '/' !in r.kind
    ensures TargetKey(kind, name) in ValidTargets(gwName, routes) <==>
            (kind == "Gateway" && name == gwName) || exists r <- routes :: r.kind == kind && r.name == name
  {
    hide TargetKey;
    if TargetKey(kind, name) == TargetKey("Gateway", gwName) {
      TargetKeyInjective(kind, name, "Gateway", gwName);
    }
    forall r | r in routes && TargetKey(r.kind, r.name) == TargetKey(kind, name)
      ensures r.kind == kind && r.name == name {
      TargetKeyInjective(kind, name, r.kind, r.name);
    }
  }

  datatype Acceptance = Accepted | TargetNotFound | Conflicted(key: string)

  /** Another policy in the list, older and targeting the same resource. */
  predicate Beaten<S(==)>(self: Policy<S>, all: seq<Policy<S>>, kind: string, name: string) {
    exists other <- all ::
      !SameObject(other, self) && Targets(other.refs, GATEWAY_GROUP, kind, name) && OlderThan(other, self)
  }

  /** The reference's own group plays no part in whether it is valid. */
  function EvaluateFrom<S(==)>(refs: seq<TargetRef>, self: Policy<S>, all: seq<Policy<S>>, valid: set<string>,
                               matched: bool): Acceptance {
    if refs == [] then if matched then Accepted else TargetNotFound
    else
      var key := TargetKey(refs[0].kind, refs[0].name);
      if key !in valid then EvaluateFrom(refs[1..], self, all, valid, matched)
      else if Beaten(self, all, refs[0].kind, refs[0].name) then Conflicted(key)
      else EvaluateFrom(refs[1..], self, all, valid, true)
  }

  function Evaluate<S(==)>(self: Policy<S>, all: seq<Policy<S>>, valid: set<string>): Acceptance {
    EvaluateFrom(self.refs, self, all, valid, false)
  }

  predicate Valid(r: TargetRef, valid: set<string>) {
    TargetKey(r.kind, r.name) in valid
  }

  lemma {:induction false} EvaluateFromMeaning<S>(refs: seq<TargetRef>, self: Policy<S>, all: seq<Policy<S>>,
                                                  valid: set<string>, matched: bool)
    ensures var e := EvaluateFrom(refs, self, all, valid, matched);
            && (e.Conflicted? <==> exists r <- refs :: Valid(r, valid) && Beaten(self, all, r.kind, r.name))
            && (e.TargetNotFound? <==> !matched && forall r <- refs :: !Valid(r, valid))
  {
    hide Beaten;
    if refs != [] {
      assert refs == [refs[0]] + refs[1..];
      EvaluateFromMeaning(refs[1..], self, all, valid, matched || Valid(refs[0], valid));
    }
  }

  /** Accepted means: some target is valid, and on no valid target is an older policy in the way. */
  lemma AcceptedIff<S>(self: Policy<S>, all: seq<Policy<S>>, valid: set<string>)
    ensures Evaluate(self, all, valid) == Accepted <==>
            && (exists r <- self.refs :: Valid(r, valid))
            && forall r <- self.refs :: Valid(r, valid) ==> !Beaten(self, all, r.kind, r.name)
  {
    hide Beaten, Valid;
    EvaluateFromMeaning(self.refs, self, all, valid, false);
  }

  /** A policy of the list is applied on a target exactly when it targets it in the Gateway API group and no
      older policy is in the way there, whatever status says. */
  lemma AppliedIff<S>(self: Policy<S>, all: seq<Policy<S>>, kind: string, name: string)
    requires DistinctObjects(all) && self in all
    ensures Winner(all, kind, name) == Some(self) <==>
            Targets(self.refs, GATEWAY_GROUP, kind, name) && !Beaten(self, all, kind, name)
  {
    hide Targets, OlderThan, Winner;
    WinnerIsOldest(all, kind, name);
    if Targets(self.refs, GATEWAY_GROUP, kind, name) {
      var w := Winner(all, kind, name).value;
      OlderTotal(self, w);
      forall other | other in all && Targets(other.refs, GATEWAY_GROUP, kind, name) && OlderThan(other, self)
          && w == self
        ensures SameObject(other, self)
      {
        OlderTotal(other, self);
      }
    }
  }

  /** An accepted policy is applied on each of its valid targets exactly when some reference of its names that
      target in the Gateway API group. */
  lemma AcceptedIsApplied<S>(self: Policy<S>, all: seq<Policy<S>>, valid: set<string>, r: TargetRef)
    requires DistinctObjects(all) && self in all && Evaluate(self, all, valid) == Accepted
    requires r in self.refs && Valid(r, valid)
    ensures Winner(all, r.kind, r.name) == Some(self) <==> Targets(self.refs, GATEWAY_GROUP, r.kind, r.name)
  {
    hide Beaten, Winner, Evaluate, Targets;
    AcceptedIff(self, all, valid);
    AppliedIff(self, all, r.kind, r.name);
  }

  /** A conflicted policy is still applied on a valid target exactly when it names it in the group and is not
      beaten there; it is beaten on at least one. */
  lemma ConflictedIsApplied<S>(self: Policy<S>, all: seq<Policy<S>>, valid: set<string>, r: TargetRef)
    requires DistinctObjects(all) && self in all && Evaluate(self, all, valid).Conflicted?
    requires r in self.refs && Valid(r, valid)
    ensures Winner(all, r.kind, r.name) == Some(self) <==>
            Targets(self.refs, GATEWAY_GROUP, r.kind, r.name) && !Beaten(self, all, r.kind, r.name)
    ensures exists q <- self.refs :: Valid(q, valid) && Winner(all, q.kind, q.name) != Some(self)
  {
    hide Beaten, Winner, Targets;
    EvaluateFromMeaning(self.refs, self, all, valid, false);
    AppliedIff(self, all, r.kind, r.name);
    var q :| q in self.refs && Valid(q, valid) && Beaten(self, all, q.kind, q.name);
    AppliedIff(self, all, q.kind, q.name);
  }

  /** Status and effect agree: a policy has a valid target and wins on all of them if and only if it is accepted
      and names each of them in the Gateway API group. */
  lemma AcceptedIffAppliedEverywhere<S>(self: Policy<S>, all: seq<Policy<S>>, valid: set<string>)
    requires DistinctObjects(all) && self in all
    ensures (exists r <- self.refs :: Valid(r, valid))
            && (forall r <- self.refs :: Valid(r, valid) ==> Winner(all, r.kind, r.name) == Some(self)) <==>
            && Evaluate(self, all, valid) == Accepted
            && forall r <- self.refs :: Valid(r, valid) ==> Targets(self.refs, GATEWAY_GROUP, r.kind, r.name)
  {
    hide Beaten, Winner, Evaluate, Valid, Targets;
    AcceptedIff(self, all, valid);
    forall r | r in self.refs
      ensures Winner(all, r.kind, r.name) == Some(self) <==>
              Targets(self.refs, GATEWAY_GROUP, r.kind, r.name) && !Beaten(self, all, r.kind, r.name)
    {
      AppliedIff(self, all, r.kind, r.name);
    }
  }

  /** At most one policy is accepted per target. */
  lemma AcceptedUnique<S>(p: Policy<S>, q: Policy<S>, all: seq<Policy<S>>, valid: set<string>, r: TargetRef)
    requires DistinctObjects(all) && p in all && q in all && r.group == GATEWAY_GROUP && Valid(r, valid)
    requires r in p.refs && r in q.refs && Evaluate(p, all, valid) == Accepted && Evaluate(q, all, valid) == Accepted
    ensures p == q
  {
    hide Evaluate, Winner;
    AcceptedIsApplied(p, all, valid, r);
    AcceptedIsApplied(q, all, valid, r);
  }

  /** The policy has a valid target in the Gateway API group. */
  predicate Candidate<S>(p: Policy<S>, valid: set<string>) {
    exists r <- p.refs :: r.group == GATEWAY_GROUP && Valid(r, valid)
  }

  lemma {:induction false} OldestCandidate<S>(all: seq<Policy<S>>, valid: set<string>) returns (o: Policy<S>)
    requires DistinctObjects(all) && exists p <- all :: Candidate(p, valid)
    ensures o in all && Candidate(o, valid)
    ensures forall p <- all :: Candidate(p, valid) ==> p == o || OlderThan(o, p)
  {
    hide Candidate, OlderThan;
    var front, last := all[..|all| - 1], all[|all| - 1];
    assert all == front + [last] && last in all;
    if exists p <- front :: Candidate(p, valid) {
      o := OldestCandidate(front, valid);
      if Candidate(last, valid) {
        OlderTotal(last, o);
        if OlderThan(last, o) {
          forall p | p in front && Candidate(p, valid) ensures OlderThan(last, p) {
            if p != o {
              OlderTransitive(last, o, p);
            }
          }
          o := last;
        }
      }
    } else {
      o := last;
    }
  }

  /** As soon as some policy has a valid target in the Gateway API group, one is accepted. */
  lemma SomeoneIsAccepted<S>(all: seq<Policy<S>>, valid: set<string>)
    requires DistinctObjects(all) && exists p <- all :: Candidate(p, valid)
    ensures exists p <- all :: Candidate(p, valid) && Evaluate(p, all, valid) == Accepted
  {
    hide OlderThan, Evaluate;
    var o := OldestCandidate(all, valid);
    forall r, other | r in o.refs && Valid(r, valid) && other in all
                      && Targets(other.refs, GATEWAY_GROUP, r.kind, r.name) && OlderThan(other, o)
      ensures SameObject(other, o)
    {
      assert Candidate(other, valid);
      OlderTotal(other, o);
    }
    AcceptedIff(o, all, valid);
  }

  /** Being applied does not imply being accepted: a policy that loses one target is reported as conflicted
      and still applied on another. */
  lemma ConflictedMayStillApply<S>(spec: S)
    ensures var a, b := TargetRef(GATEWAY_GROUP, HTTP_ROUTE, "a"), TargetRef(GATEWAY_GROUP, HTTP_ROUTE, "b");
            var old', new' := Policy(1, "ns", "old", [a], spec), Policy(2, "ns", "new", [a, b], spec);
            && Evaluate(new', [old', new'], {"HTTPRoute/a", "HTTPRoute/b"}).Conflicted?
            && Winner([old', new'], HTTP_ROUTE, "b") == Some(new')
  {
    var a, b := TargetRef(GATEWAY_GROUP, HTTP_ROUTE, "a"), TargetRef(GATEWAY_GROUP, HTTP_ROUTE, "b");
    var old', new' := Policy(1, "ns", "old", [a], spec), Policy(2, "ns", "new", [a, b], spec);
    var all, valid := [old', new'], {"HTTPRoute/a", "HTTPRoute/b"};
    assert a in old'.refs && old' in all;
    assert TargetKey(HTTP_ROUTE, "a") == "HTTPRoute/a";
    EvaluateFromMeaning(new'.refs, new', all, valid, false);
    assert a in new'.refs && Valid(a, valid) && Beaten(new', all, HTTP_ROUTE, "a");
    assert b in new'.refs && new' in all;
    assert DistinctObjects(all);
    WinnerIsOldest(all, HTTP_ROUTE, "b");
    assert !Targets(old'.refs, GATEWAY_GROUP, HTTP_ROUTE, "b");
  }

  /** Acceptance ignores the reference's group, application does not: a policy aimed at a foreign group
      is reported as accepted and never applied. */
  lemma ForeignGroupAcceptedNotApplied<S>(spec: S)
    ensures var p := Policy(1, "ns", "p", [TargetRef("other.io", "Gateway", "gw")], spec);
            && Evaluate(p, [p], {"Gateway/gw"}) == Accepted
            && Winner([p], "Gateway", "gw") == None
  {
    var r := TargetRef("other.io", "Gateway", "gw");
    var p := Policy(1, "ns", "p", [r], spec);
    assert TargetKey("Gateway", "gw") == "Gateway/gw" && r in p.refs && Valid(r, {"Gateway/gw"});
    AcceptedIff(p, [p], {"Gateway/gw"});
    assert !Targets(p.refs, GATEWAY_GROUP, "Gateway", "gw");
    assert DistinctObjects([p]);
    WinnerIsOldest([p], "Gateway", "gw");
  }
}
