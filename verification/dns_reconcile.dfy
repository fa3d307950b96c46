/** DNS passes over all zones of the account, by any number of Gateways, under partial failure. */
module DnsReconcile {
  import opened Text
  import opened Seqs
  import opened DnsStore
  import opened DnsPlan

  datatype Zone = Zone(id: string, name: string)

  type Stores = map<string, Store>

  const OWNER_PREFIX := "cloudflared-gateway:owner="

  /** The ownership marker of a Gateway's records. */
  function OwnerComment(uid: string): string {
    OWNER_PREFIX + uid
  }

  lemma OwnerCommentInjective(a: string, b: string)
    ensures OwnerComment(a) == OwnerComment(b) ==> a == b
    ensures OwnerComment(a) != ""
  {
    assert OwnerComment(a)[|OWNER_PREFIX|..] == a;
    assert OwnerComment(b)[|OWNER_PREFIX|..] == b;
  }

  // ----- Which zone holds a hostname -----

  predicate Covers(z: Zone, host: string) {
    z.name != "" && (host == z.name || HasSuffix(host, "." + z.name))
  }

  function MatchZone(host: string, zones: seq<Zone>): Option<Zone> {
    if zones == [] then None
    else
      var best, z := MatchZone(host, zones[..|zones| - 1]), zones[|zones| - 1];
      if Covers(z, host) && (best.None? || |z.name| > |best.value.name|) then Some(z) else best
  }

  method FindZone(host: string, zones: seq<Zone>) returns (best: Option<Zone>)
    ensures best == MatchZone(host, zones)
  {
    best := None;
    for i := 0 to |zones|
      invariant best == MatchZone(host, zones[..i])
    {
      var z := zones[i];
      assert zones[..i + 1][..i] == zones[..i];
      if z.name == "" {
        continue;
      }
      if host == z.name || HasSuffix(host, "." + z.name) {
        if best.None? || |z.name| > |best.value.name| {
          best := Some(z);
        }
      }
    }
    assert zones[..|zones|] == zones;
  }

  /** Said without `Covers`: some zone is found exactly when one has the very name, or a name the host ends in behind
      a dot; it is such a zone, with the longest name there is, the first of that length in the list. */
  lemma ZoneFoundIff(host: string, zones: seq<Zone>)
    ensures MatchZone(host, zones).Some? <==>
            exists z <- zones :: z.name != "" && (host == z.name || exists l :: host == l + "." + z.name)
    ensures var m := MatchZone(host, zones);
            m.Some? ==>
              && m.value in zones && m.value.name != ""
              && (host == m.value.name || exists l :: host == l + "." + m.value.name)
              && (forall z <- zones :: z.name != "" && (host == z.name || exists l :: host == l + "." + z.name) ==>
                   |z.name| < |m.value.name| || z.name == m.value.name)
              && exists j :: 0 <= j < |zones| && zones[j] == m.value && forall i :: 0 <= i < j ==>
                   zones[i].name != m.value.name
  {
    hide MatchZone;
    MatchZoneLengths(host, zones);
    MatchZoneIsFirst(host, zones);
    forall z | z in zones
      ensures Covers(z, host) <==> z.name != "" && (host == z.name || exists l :: host == l + "." + z.name)
    {
      CoversMeans(z, host);
    }
    var m := MatchZone(host, zones);
    forall z | z in zones && m.Some? && Covers(z, host) ensures |z.name| < |m.value.name| || z.name == m.value.name {
      CoveringZonesNest(host, z, m.value);
    }
  }

  lemma {:induction false} MatchZoneIsFirst(host: string, zones: seq<Zone>)
    ensures var m := MatchZone(host, zones);
            m.Some? ==> exists j :: 0 <= j < |zones| && zones[j] == m.value && forall i :: 0 <= i < j ==>
                          zones[i].name != m.value.name
  {
    if zones != [] {
      var n := |zones| - 1;
      var best := MatchZone(host, zones[..n]);
      MatchZoneIsFirst(host, zones[..n]);
      MatchZoneLengths(host, zones[..n]);
      if best.Some? {
        var j :| 0 <= j < n && zones[..n][j] == best.value && forall i :: 0 <= i < j ==>
          zones[..n][i].name != best.value.name;
        assert zones[j] == best.value && forall i :: 0 <= i < j ==> zones[i] == zones[..n][i];
      }
      if MatchZone(host, zones) != best {
        forall i | 0 <= i < n ensures zones[i].name != zones[n].name {
          assert zones[..n][i] == zones[i] && zones[i] in zones[..n];
          assert zones[i].name == zones[n].name ==> Covers(zones[i], host);
        }
      }
    }
  }

  lemma CoversMeans(z: Zone, host: string)
    ensures Covers(z, host) <==> z.name != "" && (host == z.name || exists l :: host == l + "." + z.name)
  {
    if HasSuffix(host, "." + z.name) {
      var l := host[..|host| - |"." + z.name|];
      assert host == l + ("." + z.name) == l + "." + z.name;
    }
    if l :| host == l + "." + z.name {
      assert host[|host| - |"." + z.name|..] == "." + z.name;
    }
  }

  /** The zone found covers the name and every other covering zone is one of its parents. */
  lemma {:induction false} MatchZoneIsLongest(host: string, zones: seq<Zone>)
    ensures var m := MatchZone(host, zones);
            && (m.None? <==> forall z <- zones :: !Covers(z, host))
            && (m.Some? ==> m.value in zones && Covers(m.value, host))
            && (m.Some? ==> forall z <- zones :: Covers(z, host) ==>
                 z.name == m.value.name || HasSuffix(m.value.name, "." + z.name))
  {
    MatchZoneLengths(host, zones);
    var m := MatchZone(host, zones);
    if m.Some? {
      forall z | z in zones && Covers(z, host)
        ensures z.name == m.value.name || HasSuffix(m.value.name, "." + z.name)
      {
        CoveringZonesNest(host, z, m.value);
      }
    }
  }

  lemma {:induction false} MatchZoneLengths(host: string, zones: seq<Zone>)
    ensures var m := MatchZone(host, zones);
            && (m.None? <==> forall z <- zones :: !Covers(z, host))
            && (m.Some? ==> m.value in zones && Covers(m.value, host))
            && (m.Some? ==> forall z <- zones :: Covers(z, host) ==> |z.name| <= |m.value.name|)
  {
    if zones != [] {
      MatchZoneLengths(host, zones[..|zones| - 1]);
      assert zones == zones[..|zones| - 1] + [zones[|zones| - 1]];
    }
  }

  lemma CoveringZonesNest(host: string, a: Zone, b: Zone)
    requires Covers(a, host) && Covers(b, host) && |a.name| <= |b.name|
    ensures a.name == b.name || HasSuffix(b.name, "." + a.name)
  {
    if host != a.name {
      if host != b.name {
        SuffixesNest(host, "." + a.name, "." + b.name);
        assert ("." + b.name)[1..] == b.name && ("." + a.name)[1..] == a.name;
        if |a.name| < |b.name| {
          var s := "." + b.name;
          assert s[|s| - |"." + a.name|..] == b.name[|b.name| - |"." + a.name|..];
        }
      }
    }
  }

  // ----- Desired records -----

  predicate Concrete(name: string) {
    name != "" && !("*." <= name)
  }

  /** Hostnames whose record belongs in the given zone. */
  function BelongsIn(zones: seq<Zone>, zoneId: string): string -> bool {
    (h: string) => var n := Normalize(h);
      Concrete(n) && MatchZone(n, zones).Some? && MatchZone(n, zones).value.id == zoneId
  }

  function RecordFor(target: string, owner: string): string -> Record {
    (h: string) => Record(0, Normalize(h), target, true, owner)
  }

  /** The records one zone should hold. */
  function DesiredIn(zones: seq<Zone>, zoneId: string, hostnames: seq<string>, target: string,
                     owner: string): seq<Record> {
    Map(Filter(hostnames, BelongsIn(zones, zoneId)), RecordFor(target, owner))
  }

  lemma DesiredStep(zones: seq<Zone>, hostnames: seq<string>, i: nat, target: string, owner: string, id: string)
    requires i < |hostnames|
    ensures DesiredIn(zones, id, hostnames[..i + 1], target, owner) ==
            DesiredIn(zones, id, hostnames[..i], target, owner) +
            (if BelongsIn(zones, id)(hostnames[i]) then [RecordFor(target, owner)(hostnames[i])] else [])
  {
    hide Normalize, MatchZone;
    FilterStep(hostnames, i, BelongsIn(zones, id));
  }

  /** Groups the desired records by zone. */
  method GroupByZone(zones: seq<Zone>, hostnames: seq<string>, target: string, owner: string)
    returns (desiredByZone: map<string, seq<Record>>)
    ensures forall id :: Lookup(desiredByZone, id, []) == DesiredIn(zones, id, hostnames, target, owner)
  {
    hide Normalize, MatchZone;
    desiredByZone := map[];
    for i := 0 to |hostnames|
      invariant forall id :: Lookup(desiredByZone, id, []) == DesiredIn(zones, id, hostnames[..i], target, owner)
    {
      var name := Normalize(hostnames[i]);
      forall id {
        DesiredStep(zones, hostnames, i, target, owner, id);
      }
      if name == "" || "*." <= name {
        continue;
      }
      var zone := FindZone(name, zones);
      if zone.None? {
        continue;
      }
      var id := zone.value.id;
      desiredByZone := desiredByZone[id := Lookup(desiredByZone, id, []) + [Record(0, name, target, true, owner)]];
    }
    assert hostnames[..|hostnames|] == hostnames;
  }

  // ----- Route hostnames -----

  /** Canonical names in order of first appearance. */
  function Collected(hostnames: seq<string>): seq<string> {
    if hostnames == [] then []
    else
      var before, n := Collected(hostnames[..|hostnames| - 1]), Normalize(hostnames[|hostnames| - 1]);
      if n == "" || n in before then before else before + [n]
  }

  function Joined(lists: seq<seq<string>>): seq<string> {
    if lists == [] then [] else Joined(lists[..|lists| - 1]) + lists[|lists| - 1]
  }

  lemma CollectedStep(done: seq<string>, h: string)
    ensures Collected([]) == []
    ensures var before, n := Collected(done), Normalize(h);
            Collected(done + [h]) == if n == "" || n in before then before else before + [n]
  {
  }

  /** The hostnames of all attached HTTP, gRPC and TLS routes, each list one route. */
  method CollectRouteHostnames(http: seq<seq<string>>, grpc: seq<seq<string>>, tls: seq<seq<string>>)
    returns (out: seq<string>)
    ensures out == Collected(Joined(http + grpc + tls))
  {
    hide Normalize, Collected;
    var seen: set<string> := {};
    out := [];
    var routes := http + grpc + tls;
    CollectedStep([], "");
    for i := 0 to |routes|
      invariant out == Collected(Joined(routes[..i]))
      invariant forall n :: n in seen <==> n in out
    {
      seen, out := AddHostnames(seen, out, Joined(routes[..i]), routes[i]);
      assert routes[..i + 1][..i] == routes[..i];
    }
    assert routes[..|routes|] == routes;
  }

  /** The hostnames of one route, added to those of the routes before it. */
  method AddHostnames(seen: set<string>, out: seq<string>, ghost done: seq<string>, names: seq<string>)
    returns (seen': set<string>, out': seq<string>)
    requires out == Collected(done) && forall n :: n in seen <==> n in out
    ensures out' == Collected(done + names) && forall n :: n in seen' <==> n in out'
  {
    hide Normalize, Collected;
    seen', out' := seen, out;
    assert done + names[..0] == done;
    for j := 0 to |names|
      invariant out' == Collected(done + names[..j])
      invariant forall n :: n in seen' <==> n in out'
    {
      var name := Normalize(names[j]);
      CollectedStep(done + names[..j], names[j]);
      assert done + names[..j + 1] == done + names[..j] + [names[j]];
      if name == "" || name in seen' {
        continue;
      }
      seen' := seen' + {name};
      out' := out' + [name];
    }
    assert done + names[..|names|] == done + names;
  }

  /** Names that are in canonical form and listed once. */
  ghost predicate Canonical(hostnames: seq<string>) {
    && (forall h <- hostnames :: Normalize(h) == h)
    && Distinct(hostnames)
  }

  /** Nothing is lost, nothing invented, nothing listed twice; and the list is canonical exactly when one
      normalisation was enough for every name. */
  lemma {:induction false} CollectedMeaning(hostnames: seq<string>)
    ensures forall n :: n in Collected(hostnames) <==> n != "" && exists h <- hostnames :: Normalize(h) == n
    ensures Distinct(Collected(hostnames))
    ensures (forall h <- hostnames :: Normalize(Normalize(h)) == Normalize(h)) <==> Canonical(Collected(hostnames))
  {
    NormalizeEmpty();
    hide Normalize;
    if hostnames != [] {
      var before, h := hostnames[..|hostnames| - 1], hostnames[|hostnames| - 1];
      CollectedMeaning(before);
      assert hostnames == before + [h];
    }
  }

  lemma NormalizeEmpty()
    ensures Normalize("") == ""
  {
  }

  lemma DesiredSound(zones: seq<Zone>, zoneId: string, hostnames: seq<string>, target: string, owner: string)
    requires Canonical(hostnames) && Normalize(target) == target && owner != ""
    ensures Sound(DesiredIn(zones, zoneId, hostnames, target, owner), owner)
  {
    hide Normalize, MatchZone, Filter;
    var f := BelongsIn(zones, zoneId);
    var at := FilterPositions(hostnames, f);
    var names, ds := Filter(hostnames, f), DesiredIn(zones, zoneId, hostnames, target, owner);
    forall k | 0 <= k < |ds| ensures names[k] in hostnames && ds[k].name == names[k] {
      assert names[k] == hostnames[at[k]];
    }
    forall k, l | 0 <= k < l < |ds| ensures NameOf()(ds[k]) != NameOf()(ds[l]) {
      assert names[k] == hostnames[at[k]] && names[l] == hostnames[at[l]];
    }
  }

  lemma DesiredMember(zones: seq<Zone>, zoneId: string, hostnames: seq<string>, target: string, owner: string,
                      d: Record)
    ensures d in DesiredIn(zones, zoneId, hostnames, target, owner) <==>
            exists h <- hostnames :: BelongsIn(zones, zoneId)(h) && d == RecordFor(target, owner)(h)
  {
    hide Normalize, MatchZone;
    var f := BelongsIn(zones, zoneId);
    FilterMember(hostnames, f);
    var names, ds := Filter(hostnames, f), DesiredIn(zones, zoneId, hostnames, target, owner);
    if d in ds {
      var k :| 0 <= k < |ds| && ds[k] == d;
      assert names[k] in hostnames;
    }
    if h :| h in hostnames && f(h) && d == RecordFor(target, owner)(h) {
      var k :| 0 <= k < |names| && names[k] == h;
      assert ds[k] == d;
    }
  }

  // ----- One zone in one pass -----

  const BATCH_SIZE := 100

  /** The mutations that went through are the first m, m at a batch boundary; no error means all. */
  ghost predicate Progress(s: Store, changes: Changes, s': Store, ok: bool) {
    exists m: nat :: Reached(s, changes, s', m) && (ok ==> m == |Ops(changes)|)
  }

  ghost predicate Reached(s: Store, changes: Changes, s': Store, m: nat) {
    && m <= |Ops(changes)|
    && (m % BATCH_SIZE == 0 || m == |Ops(changes)|)
    && ApplyOps(s, Ops(changes)[..m]) == Some(s')
  }

  /** One zone's turn: the listing fails, or the plan is worked off as far as the API lets it.
      `failed` reports an API failure or refusal, `conflict` a desired name held by another owner. */
  ghost predicate ZoneSync(s: Store, s': Store, desired: seq<Record>, owner: string, failed: bool, conflict: bool) {
    || (s' == s && failed && !conflict)
    || exists current :: IsListing(current, s) && Synced(s, s', current, desired, owner, failed, conflict)
  }

  ghost predicate Synced(s: Store, s': Store, current: seq<Record>, desired: seq<Record>, owner: string,
                         failed: bool, conflict: bool) {
    && (conflict <==> Conflicting(desired, current, owner) != [])
    && Progress(s, Plan(desired, current, owner), s', !failed)
  }

  lemma ZoneSyncIsSafe(s: Store, s': Store, desired: seq<Record>, owner: string, failed: bool, conflict: bool)
    requires WellFormed(s) && owner != "" && ZoneSync(s, s', desired, owner, failed, conflict)
    requires forall d <- desired :: Owned(d, owner)
    ensures WellFormed(s') && Foreign(s', owner) == Foreign(s, owner) && s'.blocked == s.blocked
  {
    hide WellFormed, Foreign, IsListing, Plan;
    if current :| IsListing(current, s) && Synced(s, s', current, desired, owner, failed, conflict) {
      var m: nat :| Reached(s, Plan(desired, current, owner), s', m);
      PlanSparesForeign(s, current, desired, owner, m);
    }
  }

  lemma ZoneSyncSettles(s: Store, s': Store, desired: seq<Record>, owner: string, conflict: bool)
    requires WellFormed(s) && Sound(desired, owner) && ZoneSync(s, s', desired, owner, false, conflict)
    ensures Settled(s', desired, owner) && !Blocked(s, desired)
    ensures conflict <==> exists d <- desired :: HeldByOther(s, d.name, owner)
  {
    hide WellFormed, IsListing, Plan, Settled, Sound, HeldByOther, Conflicting, Blocked;
    var current :| IsListing(current, s) && Synced(s, s', current, desired, owner, false, conflict);
    var p := Plan(desired, current, owner);
    var m: nat :| Reached(s, p, s', m) && m == |Ops(p)|;
    assert Ops(p)[..m] == Ops(p);
    PlanSettles(s, current, desired, owner);
    var names := Conflicting(desired, current, owner);
    forall n ensures n in names <==> Named(desired, n) && HeldByOther(s, n, owner) {
      ConflictMember(s, current, desired, owner, n);
    }
    if conflict {
      assert names[0] in names;
      var d :| d in desired && d.name == names[0];
    }
    if d :| d in desired && HeldByOther(s, d.name, owner) {
      assert d.name in names;
    }
  }

  /** A blocked name stops its whole zone: when the plan fits into one batch nothing in the zone changes, for the
      hostnames that are free as little as for the blocked one. */
  lemma BlockedStopsZone(s: Store, s': Store, desired: seq<Record>, owner: string, failed: bool, conflict: bool)
    requires WellFormed(s) && Sound(desired, owner) && ZoneSync(s, s', desired, owner, failed, conflict)
    requires Blocked(s, desired)
    requires forall current :: IsListing(current, s) ==> |Ops(Plan(desired, current, owner))| <= BATCH_SIZE
    ensures failed && s' == s
  {
    hide WellFormed, IsListing, Plan, Settled, Sound, Conflicting, Blocked, Reached, Ops;
    if current :| IsListing(current, s) && Synced(s, s', current, desired, owner, failed, conflict) {
      var p := Plan(desired, current, owner);
      var m: nat :| Reached(s, p, s', m) && (!failed ==> m == |Ops(p)|);
      PlanSettles(s, current, desired, owner);
      RefusedInOneBatch(s, p, s', m);
    }
  }

  lemma RefusedInOneBatch(s: Store, p: Changes, s': Store, m: nat)
    requires Reached(s, p, s', m) && ApplyOps(s, Ops(p)).None? && |Ops(p)| <= BATCH_SIZE
    ensures m < |Ops(p)| && s' == s
  {
    hide Ops;
    assert Ops(p)[..|Ops(p)|] == Ops(p);
    assert m == 0 && Ops(p)[..0] == [];
  }

  // ----- One pass over all zones -----

  /** A Gateway's pass; a teardown is a pass that wants no hostname. */
  datatype Pass = Pass(zones: seq<Zone>, uid: string, target: string, hostnames: seq<string>)

  function ZoneIdOf(): Zone -> string { (z: Zone) => z.id }

  ghost predicate ValidZones(zones: seq<Zone>, st: Stores) {
    && DistinctBy(zones, ZoneIdOf())
    && forall k :: 0 <= k < |zones| ==> zones[k].id in st
  }

  function DesiredOf(p: Pass, k: nat): seq<Record>
    requires k < |p.zones|
  {
    DesiredIn(p.zones, p.zones[k].id, p.hostnames, p.target, OwnerComment(p.uid))
  }

  lemma ZoneSyncWrites(s: Store, s': Store, desired: seq<Record>, owner: string, failed: bool, conflict: bool,
                       content: string)
    requires ZoneSync(s, s', desired, owner, failed, conflict) && forall d <- desired :: d.content == content
    ensures KeptOrContent(s, s', content)
  {
    hide IsListing, Plan, Ops, Conflicting;
    if current :| IsListing(current, s) && Synced(s, s', current, desired, owner, failed, conflict) {
      var ops := Ops(Plan(desired, current, owner));
      var m: nat :| Reached(s, Plan(desired, current, owner), s', m);
      PlanWrites(desired, current, owner, content);
      KeptOrWritten(s, ops[..m]);
    }
  }

  /** Every record was there before or has this content. */
  ghost predicate KeptOrContent(s: Store, s': Store, content: string) {
    forall i <- s'.records :: (i in s.records && s'.records[i] == s.records[i]) || s'.records[i].content == content
  }

  /** What happened to zone k. */
  ghost predicate ZoneTurn(st: Stores, st': Stores, p: Pass, k: nat, failed: bool, conflict: bool) {
    && k < |p.zones| && p.zones[k].id in st && p.zones[k].id in st'
    && ZoneSync(st[p.zones[k].id], st'[p.zones[k].id], DesiredOf(p, k), OwnerComment(p.uid), failed, conflict)
  }

  /** What happened in each zone: `fs` marks API failures, `cs` conflicts. */
  ghost predicate PassDetail(st: Stores, st': Stores, p: Pass, fs: seq<bool>, cs: seq<bool>) {
    && ValidZones(p.zones, st)
    && st'.Keys == st.Keys
    && (forall id <- st :: (forall k :: 0 <= k < |p.zones| ==> p.zones[k].id != id) ==> st'[id] == st[id])
    && |fs| == |cs| == |p.zones|
    && forall k :: 0 <= k < |p.zones| ==> ZoneTurn(st, st', p, k, fs[k], cs[k])
  }

  /** A whole pass: the zones cannot be listed, or every zone gets its turn whatever happens in the others. */
  ghost predicate PassRel(st: Stores, st': Stores, p: Pass, failed: bool, err: bool) {
    || (st' == st && failed && err)
    || exists fs, cs :: PassDetail(st, st', p, fs, cs) && (failed <==> true in fs) && (err <==> failed || true in cs)
  }

  ghost predicate AllWellFormed(st: Stores) {
    forall id <- st :: WellFormed(st[id])
  }

  lemma DesiredOwned(p: Pass, k: nat)
    requires k < |p.zones|
    ensures forall d <- DesiredOf(p, k) :: Owned(d, OwnerComment(p.uid))
  {
  }

  /** Whatever fails, a pass keeps every zone well formed and touches no record of another owner. */
  lemma PassIsSafe(st: Stores, st': Stores, p: Pass, failed: bool, err: bool)
    requires AllWellFormed(st) && PassRel(st, st', p, failed, err)
    ensures st'.Keys == st.Keys && AllWellFormed(st')
    ensures forall id <- st :: st'[id].blocked == st[id].blocked
                               && Foreign(st'[id], OwnerComment(p.uid)) == Foreign(st[id], OwnerComment(p.uid))
  {
    hide WellFormed, Foreign, ZoneSync, DesiredOf, OwnerComment, DistinctBy;
    if fs, cs :| PassDetail(st, st', p, fs, cs) {
      forall id | id in st
        ensures WellFormed(st'[id]) && st'[id].blocked == st[id].blocked
        ensures Foreign(st'[id], OwnerComment(p.uid)) == Foreign(st[id], OwnerComment(p.uid))
      {
        if k :| 0 <= k < |p.zones| && p.zones[k].id == id {
          DesiredOwned(p, k);
          OwnerCommentInjective(p.uid, p.uid);
          ZoneSyncIsSafe(st[id], st'[id], DesiredOf(p, k), OwnerComment(p.uid), fs[k], cs[k]);
        }
      }
    }
  }

  ghost predicate SettledAt(st: Stores, p: Pass, k: nat) {
    k < |p.zones| && p.zones[k].id in st && Settled(st[p.zones[k].id], DesiredOf(p, k), OwnerComment(p.uid))
  }

  /** Every zone is settled. */
  ghost predicate Converged(st: Stores, p: Pass) {
    forall k :: 0 <= k < |p.zones| && p.zones[k].id in st ==> SettledAt(st, p, k)
  }

  /** Whatever fails, what a pass writes points at its target. */
  lemma PassWrites(st: Stores, st': Stores, p: Pass, failed: bool, err: bool)
    requires PassRel(st, st', p, failed, err)
    ensures st'.Keys == st.Keys && forall id <- st :: KeptOrContent(st[id], st'[id], p.target)
  {
    hide ZoneTurn, KeptOrContent, DistinctBy;
    forall s: Store ensures KeptOrContent(s, s, p.target) {
      NothingWritten(s, p.target);
    }
    if fs, cs :| PassDetail(st, st', p, fs, cs) {
      forall id | id in st ensures KeptOrContent(st[id], st'[id], p.target) {
        if k :| 0 <= k < |p.zones| && p.zones[k].id == id {
          ZoneTurnWrites(st, st', p, k, fs[k], cs[k]);
        }
      }
    }
  }

  lemma NothingWritten(s: Store, content: string)
    ensures KeptOrContent(s, s, content)
  {
  }

  lemma DesiredContent(p: Pass, k: nat)
    requires k < |p.zones|
    ensures forall d <- DesiredOf(p, k) :: d.content == p.target
  {
    hide Normalize, BelongsIn, OwnerComment;
  }

  lemma ZoneTurnWrites(st: Stores, st': Stores, p: Pass, k: nat, failed: bool, conflict: bool)
    requires ZoneTurn(st, st', p, k, failed, conflict)
    ensures KeptOrContent(st[p.zones[k].id], st'[p.zones[k].id], p.target)
  {
    hide ZoneSync, KeptOrContent, OwnerComment, DesiredOf;
    DesiredContent(p, k);
    ZoneSyncWrites(st[p.zones[k].id], st'[p.zones[k].id], DesiredOf(p, k), OwnerComment(p.uid), failed, conflict,
                   p.target);
  }

  /** A record of another type stands at a name wanted in zone k. */
  ghost predicate BlockedAt(st: Stores, p: Pass, k: nat) {
    k < |p.zones| && p.zones[k].id in st && Blocked(st[p.zones[k].id], DesiredOf(p, k))
  }

  /** Another owner holds a name wanted in zone k. */
  ghost predicate HeldAt(st: Stores, p: Pass, k: nat) {
    && k < |p.zones| && p.zones[k].id in st
    && exists d <- DesiredOf(p, k) :: HeldByOther(st[p.zones[k].id], d.name, OwnerComment(p.uid))
  }

  /** A pass without an API failure or refusal converges, with no wanted name blocked by a record of another type; it
      then reports an error exactly when some wanted name is held by another owner. */
  lemma CleanPassConverges(st: Stores, st': Stores, p: Pass, err: bool)
    requires AllWellFormed(st) && PassRel(st, st', p, false, err)
    requires Canonical(p.hostnames) && Normalize(p.target) == p.target
    ensures ValidZones(p.zones, st) && Converged(st', p)
    ensures forall k: nat :: !BlockedAt(st, p, k)
    ensures err <==> exists k: nat :: HeldAt(st, p, k)
  {
    hide Normalize, WellFormed, SettledAt, HeldAt, BlockedAt, ZoneTurn, Sound, Canonical, DistinctBy;
    var fs, cs :| PassDetail(st, st', p, fs, cs) && true !in fs && (err <==> true in cs);
    forall k | 0 <= k < |p.zones|
      ensures SettledAt(st', p, k) && !BlockedAt(st, p, k) && (cs[k] <==> HeldAt(st, p, k))
    {
      assert !fs[k] by { assert fs[k] in fs; }
      ZoneTurnSettles(st, st', p, k, cs[k]);
    }
    forall k: nat ensures !BlockedAt(st, p, k) && (HeldAt(st, p, k) ==> k < |p.zones|) {
      WithinZones(st, p, k);
    }
  }

  lemma WithinZones(st: Stores, p: Pass, k: nat)
    ensures BlockedAt(st, p, k) || HeldAt(st, p, k) ==> k < |p.zones|
  {
  }

  lemma ZoneTurnSettles(st: Stores, st': Stores, p: Pass, k: nat, conflict: bool)
    requires AllWellFormed(st) && ZoneTurn(st, st', p, k, false, conflict)
    requires Canonical(p.hostnames) && Normalize(p.target) == p.target
    ensures SettledAt(st', p, k) && !BlockedAt(st, p, k) && (conflict <==> HeldAt(st, p, k))
  {
    hide Normalize, WellFormed, Settled, HeldByOther, ZoneSync, DesiredOf, OwnerComment, Sound, Canonical, Blocked;
    PassDesiredSound(p, k);
    ZoneSyncSettles(st[p.zones[k].id], st'[p.zones[k].id], DesiredOf(p, k), OwnerComment(p.uid), conflict);
  }

  lemma PassDesiredSound(p: Pass, k: nat)
    requires k < |p.zones| && Canonical(p.hostnames) && Normalize(p.target) == p.target
    ensures Sound(DesiredOf(p, k), OwnerComment(p.uid))
  {
    OwnerCommentInjective(p.uid, p.uid);
    DesiredSound(p.zones, p.zones[k].id, p.hostnames, p.target, OwnerComment(p.uid));
  }

  /** Convergence in terms of hostnames: each concrete one is served from its longest-suffix zone by
      exactly one owned record, or its name is held by another owner there. */
  lemma HostnameServed(st: Stores, p: Pass, h: string, k: nat)
    requires AllWellFormed(st) && ValidZones(p.zones, st) && Converged(st, p) && Canonical(p.hostnames)
    requires h in p.hostnames && Concrete(h) && k < |p.zones| && MatchZone(h, p.zones) == Some(p.zones[k])
    ensures var s, owner := st[p.zones[k].id], OwnerComment(p.uid);
            || HeldByOther(s, h, owner)
            || exists i <- s.records :: Listed(s.records[i]) == Record(i, h, p.target, true, owner) &&
                 forall j <- s.records :: Normalize(s.records[j].name) == h ==> j == i
  {
    hide Normalize, MatchZone, OwnerComment;
    var s, owner := st[p.zones[k].id], OwnerComment(p.uid);
    var d := RecordFor(p.target, owner)(h);
    assert BelongsIn(p.zones, p.zones[k].id)(h);
    DesiredMember(p.zones, p.zones[k].id, p.hostnames, p.target, owner, d);
    if Holds(s, d) {
      var i :| i in s.records && Listed(s.records[i]) == d.(id := i);
      assert WellFormed(s);
    }
  }

  /** From routes to records: after a pass without an API failure, every concrete hostname of an attached
      route whose zone the account has is published there, or its name is held by another owner. */
  lemma RouteHostnamePublished(st: Stores, st': Stores, p: Pass, err: bool, lists: seq<seq<string>>,
                               tunnelId: string, h: string, k: nat)
    requires AllWellFormed(st) && PassRel(st, st', p, false, err)
    requires p.hostnames == Collected(Joined(lists)) && p.target == Normalize(tunnelId + TARGET_SUFFIX)
    requires forall n <- Joined(lists) :: Normalize(Normalize(n)) == Normalize(n)
    requires h in Joined(lists) && Concrete(Normalize(h)) && k < |p.zones|
             && MatchZone(Normalize(h), p.zones) == Some(p.zones[k])
    ensures p.zones[k].id in st'
    ensures var s, owner, n := st'[p.zones[k].id], OwnerComment(p.uid), Normalize(h);
            || HeldByOther(s, n, owner)
            || exists i <- s.records :: Listed(s.records[i]) == Record(i, n, p.target, true, owner) &&
                 forall j <- s.records :: Normalize(s.records[j].name) == n ==> j == i
  {
    hide Normalize, MatchZone, OwnerComment, Collected, Joined, PassRel, WellFormed, Converged;
    CollectedMeaning(Joined(lists));
    TargetStable(tunnelId);
    CleanPassConverges(st, st', p, err);
    PassIsSafe(st, st', p, false, err);
    HostnameServed(st', p, Normalize(h), k);
  }

  /** Nothing else is owned: every owned record serves a wanted hostname whose longest-suffix zone this is. */
  lemma OwnedIsWanted(st: Stores, p: Pass, k: nat, i: nat)
    requires ValidZones(p.zones, st) && Converged(st, p) && Canonical(p.hostnames)
    requires k < |p.zones| && i in st[p.zones[k].id].records
    requires Owned(st[p.zones[k].id].records[i], OwnerComment(p.uid))
    ensures exists h <- p.hostnames ::
              && Concrete(h) && MatchZone(h, p.zones) == Some(p.zones[k])
              && Listed(st[p.zones[k].id].records[i]) == Record(i, h, p.target, true, OwnerComment(p.uid))
  {
    hide Normalize, MatchZone, OwnerComment, DesiredIn;
    var s, owner := st[p.zones[k].id], OwnerComment(p.uid);
    var d :| d in DesiredOf(p, k) && Listed(s.records[i]) == d.(id := i);
    DesiredMember(p.zones, p.zones[k].id, p.hostnames, p.target, owner, d);
    var h :| h in p.hostnames && BelongsIn(p.zones, p.zones[k].id)(h) && d == RecordFor(p.target, owner)(h);
    MatchZoneLengths(h, p.zones);
    var z := MatchZone(h, p.zones).value;
    DistinctEqual(p.zones, ZoneIdOf(), z, p.zones[k]);
  }

  /** Converged is a fixpoint: the next plan of every zone is empty. */
  lemma ConvergedPlansNothing(st: Stores, p: Pass, k: nat, current: seq<Record>)
    requires AllWellFormed(st) && ValidZones(p.zones, st) && Converged(st, p)
    requires Canonical(p.hostnames) && Normalize(p.target) == p.target
    requires k < |p.zones| && IsListing(current, st[p.zones[k].id])
    ensures Plan(DesiredOf(p, k), current, OwnerComment(p.uid)).Empty()
  {
    hide Normalize, DesiredOf, OwnerComment, Plan, Settled, IsListing, Sound, Canonical;
    PassDesiredSound(p, k);
    SettledIsFixpoint(st[p.zones[k].id], current, DesiredOf(p, k), OwnerComment(p.uid));
  }

  // ----- Runs -----

  /** Any interleaving of passes by any Gateways, each stopping wherever the API made it stop. */
  ghost predicate Run(states: seq<Stores>, passes: seq<Pass>) {
    && |states| == |passes| + 1
    && forall k :: 0 <= k < |passes| ==> PassHappened(states[k], states[k + 1], passes[k])
  }

  ghost predicate PassHappened(st: Stores, st': Stores, p: Pass) {
    exists failed, err :: PassRel(st, st', p, failed, err)
  }

  /** The records of one owner in a zone. */
  ghost function Mine(s: Store, owner: string): map<nat, Record> {
    map i | i in s.records && Owned(s.records[i], owner) :: s.records[i]
  }

  lemma ForeignCoversOthers(s: Store, s': Store, owner: string, other: string)
    requires owner != other && Foreign(s, owner) == Foreign(s', owner)
    ensures Mine(s, other) == Mine(s', other)
  {
    forall i ensures i in Mine(s, other) <==> i in Mine(s', other)
      ensures i in Mine(s, other) ==> Mine(s, other)[i] == Mine(s', other)[i]
    {
      assert i in Foreign(s, owner) <==> i in Foreign(s', owner);
      assert i in Mine(s, other) ==> i in Foreign(s, owner);
      assert i in Mine(s', other) ==> i in Foreign(s', owner);
    }
  }

  /** Over any run the zones stay well formed, and the records of a Gateway that made none of the
      passes are exactly what they were. */
  lemma {:induction false} RunIsSafe(states: seq<Stores>, passes: seq<Pass>, uid: string)
    requires Run(states, passes) && AllWellFormed(states[0])
    ensures var last := states[|passes|];
            last.Keys == states[0].Keys && AllWellFormed(last)
    ensures (forall k :: 0 <= k < |passes| ==> passes[k].uid != uid) ==>
              forall id <- states[0] ::
                  Mine(states[|passes|][id], OwnerComment(uid)) == Mine(states[0][id], OwnerComment(uid))
    decreases |passes|
  {
    hide WellFormed, Foreign, Mine, PassRel, OwnerComment;
    if passes != [] {
      var n := |passes| - 1;
      var p := passes[n];
      RunIsSafe(states[..|states| - 1], passes[..n], uid);
      assert PassHappened(states[n], states[n + 1], p);
      var failed, err :| PassRel(states[n], states[n + 1], p, failed, err);
      PassIsSafe(states[n], states[n + 1], p, failed, err);
      OwnerCommentInjective(p.uid, uid);
      if p.uid != uid {
        forall id | id in states[0]
          ensures Mine(states[n + 1][id], OwnerComment(uid)) == Mine(states[n][id], OwnerComment(uid))
        {
          ForeignCoversOthers(states[n][id], states[n + 1][id], OwnerComment(p.uid), OwnerComment(uid));
        }
      }
    }
  }

  /** Crash recovery: after any run whatsoever, one pass without an API failure converges. */
  lemma CrashRecovery(states: seq<Stores>, passes: seq<Pass>, st': Stores, p: Pass, err: bool)
    requires Run(states, passes) && AllWellFormed(states[0])
    requires PassRel(states[|passes|], st', p, false, err)
    requires Canonical(p.hostnames) && Normalize(p.target) == p.target
    ensures AllWellFormed(st') && ValidZones(p.zones, st') && Converged(st', p)
  {
    hide Normalize, PassRel, WellFormed, Canonical, Converged;
    RunIsSafe(states, passes, p.uid);
    PassIsSafe(states[|passes|], st', p, false, err);
    CleanPassConverges(states[|passes|], st', p, err);
  }

  /** A teardown without error leaves no record of its Gateway in any zone. */
  lemma TeardownLeavesNone(st: Stores, st': Stores, p: Pass)
    requires AllWellFormed(st) && PassRel(st, st', p, false, false) && p.hostnames == []
    ensures forall k :: 0 <= k < |p.zones| ==>
              p.zones[k].id in st' && Mine(st'[p.zones[k].id], OwnerComment(p.uid)) == map[]
  {
    hide Normalize, WellFormed, OwnerComment, ZoneTurn, DistinctBy, Mine;
    var fs, cs :| PassDetail(st, st', p, fs, cs) && true !in fs;
    forall k | 0 <= k < |p.zones| ensures Mine(st'[p.zones[k].id], OwnerComment(p.uid)) == map[] {
      assert !fs[k] by { assert fs[k] in fs; }
      ZoneTurnClears(st, st', p, k, cs[k]);
    }
  }

  lemma ZoneTurnClears(st: Stores, st': Stores, p: Pass, k: nat, conflict: bool)
    requires AllWellFormed(st) && ZoneTurn(st, st', p, k, false, conflict) && p.hostnames == []
    ensures Mine(st'[p.zones[k].id], OwnerComment(p.uid)) == map[]
  {
    hide Normalize, WellFormed, OwnerComment, MatchZone, ZoneSync;
    assert DesiredOf(p, k) == [];
    OwnerCommentInjective(p.uid, p.uid);
    var s' := st'[p.zones[k].id];
    ZoneSyncSettles(st[p.zones[k].id], s', [], OwnerComment(p.uid), conflict);
    assert forall i <- s'.records :: !Owned(s'.records[i], OwnerComment(p.uid));
  }

  /** Why canonical names matter: two spellings that only a second normalisation identifies survive
      the deduplication and ask for the same record twice, which the batch endpoint refuses for good. API
      validation admits no hostname that ends in a dot, so this takes names from elsewhere. */
  lemma UnstableNamesCollide(owner: string, target: string)
    ensures Collected(["a..", "a"]) == ["a.", "a"]
    ensures var r := Record(0, "a", target, true, owner);
            DesiredIn([Zone("z", "a")], "z", ["a.", "a"], target, owner) == [r, r]
  {
    hide Normalize, MatchZone, BelongsIn, Collected;
    SpellingsSurvive();
    NormalizeExamples();
    SpellingsBelong();
    var f := BelongsIn([Zone("z", "a")], "z");
    assert ["a.", "a"][..1] == ["a."] && ["a."][..0] == [];
    assert Filter(["a.", "a"], f) == ["a.", "a"];
  }

  lemma SpellingsBelong()
    ensures var f := BelongsIn([Zone("z", "a")], "z"); f("a.") && f("a")
  {
    hide Normalize;
    NormalizeExamples();
    var z := Zone("z", "a");
    assert [z][..0] == [] && MatchZone("a", [z]) == Some(z);
  }

  lemma SpellingsSurvive()
    ensures Collected(["a..", "a"]) == ["a.", "a"]
  {
    hide Normalize;
    NormalizeExamples();
    assert ["a..", "a"][..1] == ["a.."] && ["a.."][..0] == [];
    assert Collected(["a.."]) == ["a."];
  }

  lemma NormalizeExamples()
    ensures Normalize("a..") == "a." && Normalize("a.") == "a" && Normalize("a") == "a"
  {
    assert TrimSpace("a..") == "a.." && TrimSpace("a.") == "a." && TrimSpace("a") == "a";
    assert TrimSuffix("a..", ".") == "a." && TrimSuffix("a.", ".") == "a" && TrimSuffix("a", ".") == "a";
  }

  lemma CreatingTwiceIsRefused(s: Store, r: Record)
    requires s.next > 0
    ensures ApplyOps(s, [Create(r), Create(r)]) == None
  {
    hide Normalize;
    var once := [Create(r)];
    assert [Create(r), Create(r)] == once + once && once[..0] == [];
    ApplyConcat(s, once, once);
    if NameFree(s, r.name, 0) {
      var t := ApplyOp(s, Create(r)).value;
      assert ApplyOps(s, []) == Some(s) && ApplyOps(s, once) == Some(t);
      assert s.next in t.records && Normalize(t.records[s.next].name) == Normalize(r.name);
      assert ApplyOps(t, []) == Some(t) && ApplyOps(t, once) == None;
    }
  }
}
