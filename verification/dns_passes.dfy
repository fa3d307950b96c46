/** The DNS passes as the controller runs them against an API in which any call may fail, before or
    after it took effect. */
module DnsPasses {
  import opened Text
  import opened Seqs
  import opened DnsStore
  import opened DnsPlan
  import opened DnsReconcile

  /** Outcome the environment picks for one call. */
  datatype Fault = Fine | FailsBefore | FailsAfter

  /** `out` lists the store except the records still to do. */
  ghost predicate PartListing(out: seq<Record>, s: Store, todo: set<nat>) {
    && todo <= s.records.Keys && DistinctBy(out, IdOf())
    && (forall k :: 0 <= k < |out| ==>
        out[k].id in s.records && out[k].id !in todo && out[k] == Listed(s.records[out[k].id]))
    && (forall i <- s.records :: i in todo || exists k :: 0 <= k < |out| && out[k].id == i)
  }

  lemma ListOneMore(out: seq<Record>, s: Store, todo: set<nat>, i: nat)
    requires PartListing(out, s, todo) && i in todo && s.records[i].id == i
    ensures PartListing(out + [Listed(s.records[i])], s, todo - {i})
  {
    hide Normalize;
    var out' := out + [Listed(s.records[i])];
    forall j | j in s.records && j !in todo - {i} ensures exists k :: 0 <= k < |out'| && out'[k].id == j {
      if j == i {
        assert out'[|out|].id == i;
      } else {
        var k :| 0 <= k < |out| && out[k].id == j;
        assert out'[k].id == j;
      }
    }
  }

  /** The account as seen through the API. */
  class Cloudflare {
    const zones: seq<Zone>
    var stores: Stores

    ghost predicate Valid()
      reads this
    {
      ValidZones(zones, stores)
    }

    constructor (zones: seq<Zone>, stores: Stores)
      requires ValidZones(zones, stores)
      ensures Valid() && this.zones == zones && this.stores == stores
    {
      this.zones := zones;
      this.stores := stores;
    }

    method ListZones(fault: Fault) returns (r: Option<seq<Zone>>)
      ensures r == if fault == Fine then Some(zones) else None
    {
      r := if fault == Fine then Some(zones) else None;
    }

    /** Reports all records of a zone, normalised, in an order of the API's choosing. */
    method ListDnsRecords(zoneId: string, fault: Fault) returns (r: Option<seq<Record>>)
      requires zoneId in stores && WellFormed(stores[zoneId])
      ensures fault == Fine <==> r.Some?
      ensures r.Some? ==> IsListing(r.value, stores[zoneId])
    {
      hide Normalize;
      if fault != Fine {
        return None;
      }
      var s := stores[zoneId];
      var todo, out: seq<Record> := s.records.Keys, [];
      while todo != {}
        invariant PartListing(out, s, todo)
        decreases |todo|
      {
        var i :| i in todo;
        ListOneMore(out, s, todo, i);
        out := out + [Listed(s.records[i])];
        todo := todo - {i};
      }
      r := Some(out);
    }

    /** One transactional batch: all of it or nothing; the answer may be lost either way. */
    method Batch(zoneId: string, chunk: Changes, fault: Fault) returns (ok: bool)
      requires zoneId in stores
      modifies this`stores
      ensures stores.Keys == old(stores.Keys)
      ensures forall id <- stores :: id != zoneId ==> stores[id] == old(stores[id])
      ensures ok || stores[zoneId] != old(stores[zoneId]) ==>
                ApplyOps(old(stores[zoneId]), Ops(chunk)) == Some(stores[zoneId])
      ensures ok <==> fault == Fine && ApplyOps(old(stores[zoneId]), Ops(chunk)).Some?
    {
      var after := ApplyOps(stores[zoneId], Ops(chunk));
      if after.Some? && fault != FailsBefore {
        stores := stores[zoneId := after.value];
      }
      ok := after.Some? && fault == Fine;
    }

    /** Works a change set off chunk by chunk, stopping at the first error. */
    method ApplyDnsChanges(zoneId: string, changes: Changes, faults: nat -> Fault) returns (ok: bool)
      requires zoneId in stores
      modifies this`stores
      ensures stores.Keys == old(stores.Keys)
      ensures forall id <- stores :: id != zoneId ==> stores[id] == old(stores[id])
      ensures Progress(old(stores[zoneId]), changes, stores[zoneId], ok)
      ensures (forall c :: faults(c) == Fine) ==> (ok <==> ApplyOps(old(stores[zoneId]), Ops(changes)).Some?)
    {
      hide Flatten, Ops, ApplyOps, Normalize;
      ghost var s := stores[zoneId];
      ghost var all := Ops(changes);
      if changes.Empty() {
        NoOps(changes);
        NothingApplied(s, all);
        assert Reached(s, changes, stores[zoneId], 0);
        return true;
      }
      var chunks := ChunkDnsChanges(changes, BATCH_SIZE);
      assert WellSized(chunks, BATCH_SIZE) && Flatten(chunks) == all;
      ghost var m: nat := 0;
      NothingApplied(s, all);
      assert chunks[0..] == chunks;
      for i := 0 to |chunks|
        invariant stores.Keys == old(stores.Keys)
        invariant forall id <- stores :: id != zoneId ==> stores[id] == old(stores[id])
        invariant m <= |all| && all[m..] == Flatten(chunks[i..])
        invariant i < |chunks| ==> m % BATCH_SIZE == 0
        invariant Reached(s, changes, stores[zoneId], m)
      {
        ghost var n := |Ops(chunks[i])|;
        NextChunk(all, m, chunks, i);
        ApplyConcat(s, all[..m], Ops(chunks[i]));
        assert all[..m] + Ops(chunks[i]) == all[..m + n];
        if i < |chunks| - 1 {
          assert n == BATCH_SIZE;
        }
        ok := Batch(zoneId, chunks[i], faults(i));
        if !ok {
          if faults(i) == Fine {
            RefusedPrefix(s, all, m + n);
          }
          if ApplyOps(s, all[..m + n]) == Some(stores[zoneId]) {
            assert Reached(s, changes, stores[zoneId], m + n);
          }
          return false;
        }
        m := m + n;
      }
      EndOfChunks(all, m, chunks);
      assert all[..m] == all;
      return true;
    }

    // ----- Passes -----

    /** Ensures a proxied CNAME for each route hostname and prunes owned records nobody serves any
        more; one zone's failure does not stop the others. */
    method ReconcileDns(manage: bool, gw: DnsOwner, tunnelId: string, hostnames: seq<string>, faults: Faults)
      returns (err: bool, ghost failed: bool)
      requires Valid() && AllWellFormed(stores)
      modifies this`stores
      ensures Valid() && AllWellFormed(stores)
      ensures var p := Pass(zones, gw.uid, Normalize(tunnelId + TARGET_SUFFIX), hostnames);
              if manage && DnsEnabled(gw) && tunnelId != "" then PassRel(old(stores), stores, p, failed, err)
              else stores == old(stores) && !err && !failed
      ensures var p := Pass(zones, gw.uid, Normalize(tunnelId + TARGET_SUFFIX), hostnames);
              manage && DnsEnabled(gw) && tunnelId != "" && AllFine(faults) && Canonical(hostnames) ==>
                (failed <==> exists k: nat :: BlockedAt(old(stores), p, k))
    {
      hide Normalize, OwnerComment, MatchZone, Foreign, WellFormed, BelongsIn, Canonical, Blocked, Sound,
          FlagsBlocked, BlockedAt, ZoneTurn;
      if !manage || !DnsEnabled(gw) || tunnelId == "" {
        return false, false;
      }
      var target := Normalize(tunnelId + TARGET_SUFFIX);
      ghost var p := Pass(zones, gw.uid, target, hostnames);
      TargetStable(tunnelId);
      var listed := ListZones(faults.zones);
      if listed.None? {
        assert PassRel(old(stores), stores, p, true, true);
        return true, true;
      }
      var owner := OwnerComment(gw.uid);
      var desiredByZone := GroupByZone(zones, hostnames, target, owner);
      ghost var fs, cs := [], [];
      NoFlagsYet(stores, p);
      err := false;
      for k := 0 to |zones|
        invariant PassSoFar(old(stores), stores, p, k, fs, cs)
        invariant AllWellFormed(stores)
        invariant err <==> true in fs || true in cs
        invariant AllFine(faults) && Canonical(hostnames) ==> FlagsBlocked(old(stores), p, fs)
      {
        var failedHere, conflictHere := SyncNext(old(stores), p, fs, cs, k, Lookup(desiredByZone, zones[k].id, []),
                                                 owner, faults);
        fs, cs := fs + [failedHere], cs + [conflictHere];
        err := err || failedHere || conflictHere;
      }
      failed := true in fs;
      assert PassDetail(old(stores), stores, p, fs, cs);
      if AllFine(faults) && Canonical(hostnames) {
        FlagsBlockedEnd(old(stores), p, fs);
      }
    }

    /** The turn of zone k, those before it having had theirs. */
    method SyncNext(ghost st: Stores, ghost p: Pass, ghost fs: seq<bool>, ghost cs: seq<bool>, k: nat,
                    desired: seq<Record>, owner: string, faults: Faults) returns (failed: bool, conflict: bool)
      requires Valid() && AllWellFormed(stores) && p.zones == zones && PassSoFar(st, stores, p, k, fs, cs)
      requires k < |zones| && desired == DesiredOf(p, k) && owner == OwnerComment(p.uid)
      modifies this`stores
      ensures Valid() && AllWellFormed(stores) && PassSoFar(st, stores, p, k + 1, fs + [failed], cs + [conflict])
      ensures AllFine(faults) && Canonical(p.hostnames) && Normalize(p.target) == p.target
              && FlagsBlocked(st, p, fs) ==>
                FlagsBlocked(st, p, fs + [failed])
    {
      hide Normalize, OwnerComment, WellFormed, Canonical, Blocked, Sound, ZoneSync, DesiredOf;
      ghost var before := stores;
      var id := zones[k].id;
      Untouched(st, before, p, k, fs, cs);
      if Canonical(p.hostnames) && Normalize(p.target) == p.target {
        PassDesiredSound(p, k);
      }
      failed, conflict := SyncZone(id, desired, owner, faults.list(k), (c: nat) => faults.batch(k, c));
      ZoneDone(st, before, stores, p, k, fs, cs, failed, conflict);
    }

    /** Deletes every record the Gateway owns, in all zones. */
    method TeardownDns(manage: bool, gw: DnsOwner, faults: Faults) returns (err: bool)
      requires Valid() && AllWellFormed(stores)
      modifies this`stores
      ensures Valid() && AllWellFormed(stores)
      ensures if manage then PassRel(old(stores), stores, Pass(zones, gw.uid, "", []), err, err)
              else stores == old(stores) && !err
    {
      hide Normalize, OwnerComment, MatchZone, Foreign, WellFormed, BelongsIn, Chosen;
      if !manage {
        return false;
      }
      ghost var p := Pass(zones, gw.uid, "", []);
      var listed := ListZones(faults.zones);
      if listed.None? {
        assert PassRel(old(stores), stores, p, true, true);
        return true;
      }
      var owner := OwnerComment(gw.uid);
      ghost var fs, cs := [], [];
      err := false;
      for k := 0 to |zones|
        invariant PassSoFar(old(stores), stores, p, k, fs, cs)
        invariant AllWellFormed(stores)
        invariant err <==> true in fs
        invariant true !in cs
      {
        ghost var before := stores;
        assert DesiredOf(p, k) == [];
        var failedHere := ClearZone(zones[k].id, owner, faults.list(k), (c: nat) => faults.batch(k, c));
        ZoneDone(old(stores), before, stores, p, k, fs, cs, failedHere, false);
        fs, cs := fs + [failedHere], cs + [false];
        err := err || failedHere;
      }
      assert PassDetail(old(stores), stores, p, fs, cs);
    }

    /** The body of the reconcile loop for one zone. */
    method SyncZone(zoneId: string, desired: seq<Record>, owner: string, listFault: Fault, faults: nat -> Fault)
      returns (failed: bool, conflict: bool)
      requires zoneId in stores && WellFormed(stores[zoneId])
      modifies this`stores
      ensures stores.Keys == old(stores.Keys)
      ensures forall id <- stores :: id != zoneId ==> stores[id] == old(stores[id])
      ensures ZoneSync(old(stores[zoneId]), stores[zoneId], desired, owner, failed, conflict)
      ensures listFault == Fine && (forall c :: faults(c) == Fine) && Sound(desired, owner) ==>
                (failed <==> Blocked(old(stores[zoneId]), desired))
    {
      hide Normalize, WellFormed, Plan, IsListing, Conflicting, Sound, Blocked;
      var listed := ListDnsRecords(zoneId, listFault);
      if listed.None? {
        return true, false;
      }
      var changes, conflicts := PlanDnsChanges(desired, listed.value, owner);
      conflict := conflicts != [];
      if Sound(desired, owner) {
        PlanSettles(stores[zoneId], listed.value, desired, owner);
      }
      if changes.Empty() {
        UnchangedIsProgress(stores[zoneId], changes);
        EmptyIsAccepted(stores[zoneId], changes);
        failed := false;
      } else {
        var ok := ApplyDnsChanges(zoneId, changes, faults);
        failed := !ok;
      }
      assert Synced(old(stores[zoneId]), stores[zoneId], listed.value, desired, owner, failed, conflict);
    }

    /** The body of the teardown loop for one zone. */
    method ClearZone(zoneId: string, owner: string, listFault: Fault, faults: nat -> Fault) returns (failed: bool)
      requires zoneId in stores && WellFormed(stores[zoneId])
      modifies this`stores
      ensures stores.Keys == old(stores.Keys)
      ensures forall id <- stores :: id != zoneId ==> stores[id] == old(stores[id])
      ensures ZoneSync(old(stores[zoneId]), stores[zoneId], [], owner, failed, false)
    {
      hide Normalize, WellFormed, IsListing, Chosen, Plan, Conflicting, Filter;
      var listed := ListDnsRecords(zoneId, listFault);
      if listed.None? {
        return true;
      }
      var current := listed.value;
      var deletes := StaleRecords(current, owner);
      var changes := Changes([], [], deletes);
      TeardownPlan(current, owner);
      if changes.Empty() {
        UnchangedIsProgress(stores[zoneId], changes);
        failed := false;
      } else {
        var ok := ApplyDnsChanges(zoneId, changes, faults);
        failed := !ok;
      }
      assert Synced(old(stores[zoneId]), stores[zoneId], current, [], owner, failed, false);
    }
  }

  /** The owned records among those listed. */
  method StaleRecords(current: seq<Record>, owner: string) returns (deletes: seq<Record>)
    ensures deletes == Filter(current, IsStale([], owner))
  {
    deletes := [];
    for i := 0 to |current|
      invariant deletes == Filter(current[..i], IsStale([], owner))
    {
      FilterStep(current, i, IsStale([], owner));
      if current[i].comment == owner {
        deletes := deletes + [current[i]];
      }
    }
    assert current[..|current|] == current;
  }

  /** The parts of a Gateway the DNS passes look at. */
  datatype DnsOwner = DnsOwner(uid: string, dnsManaged: Option<string>)

  /** On unless the annotation says "false" in any case. */
  predicate DnsEnabled(gw: DnsOwner) {
    !(gw.dnsManaged.Some? && ToLower(gw.dnsManaged.value) == "false")
  }

  /** Only the word "false" itself switches DNS off, in whatever case; a Gateway without the annotation is managed. */
  lemma DnsEnabledIff(gw: DnsOwner)
    ensures !DnsEnabled(gw) <==>
            && gw.dnsManaged.Some? && |gw.dnsManaged.value| == 5
            && var v := gw.dnsManaged.value;
               && v[0] in {'f', 'F'} && v[1] in {'a', 'A'} && v[2] in {'l', 'L'} && v[3] in {'s', 'S'}
               && v[4] in {'e', 'E'}
  {
    if gw.dnsManaged.Some? {
      var v := gw.dnsManaged.value;
      if |v| == 5 {
        assert ToLower(v) == [LowerChar(v[0]), LowerChar(v[1]), LowerChar(v[2]), LowerChar(v[3]), LowerChar(v[4])];
      }
    }
  }

  /** Which call of a pass fails how: the zone listing, each record listing, each batch. */
  datatype Faults = Faults(zones: Fault, list: nat -> Fault, batch: (nat, nat) -> Fault)

  ghost predicate AllFine(f: Faults) {
    f.zones == Fine && (forall k :: f.list(k) == Fine) && forall k, c :: f.batch(k, c) == Fine
  }

  /** The flags so far tell the zones in which a wanted name is blocked. */
  ghost predicate FlagsBlocked(st: Stores, p: Pass, fs: seq<bool>) {
    forall l :: 0 <= l < |fs| ==> (fs[l] <==> BlockedAt(st, p, l))
  }

  lemma NoFlagsYet(st: Stores, p: Pass)
    ensures FlagsBlocked(st, p, [])
  {
  }

  lemma FlagsBlockedEnd(st: Stores, p: Pass, fs: seq<bool>)
    requires FlagsBlocked(st, p, fs) && |fs| == |p.zones|
    ensures true in fs <==> exists k: nat :: BlockedAt(st, p, k)
  {
    hide Blocked, DesiredOf;
    if k: nat :| BlockedAt(st, p, k) {
      assert fs[k] in fs;
    }
  }

  /** A teardown is the plan that wants nothing. */
  lemma TeardownPlan(current: seq<Record>, owner: string)
    ensures Plan([], current, owner) == Changes([], [], Filter(current, IsStale([], owner)))
    ensures Conflicting([], current, owner) == []
  {
  }

  lemma NoOps(c: Changes)
    requires c.Empty()
    ensures Ops(c) == []
  {
  }

  lemma NothingApplied(s: Store, ops: seq<Op>)
    ensures ApplyOps(s, ops[..0]) == Some(s)
  {
  }

  lemma UnchangedIsProgress(s: Store, c: Changes)
    requires c.Empty()
    ensures Progress(s, c, s, true)
  {
    NoOps(c);
    NothingApplied(s, Ops(c));
    assert Reached(s, c, s, 0);
  }

  lemma EmptyIsAccepted(s: Store, c: Changes)
    requires c.Empty()
    ensures ApplyOps(s, Ops(c)) == Some(s)
  {
    NoOps(c);
  }

  /** A batch with a refused beginning is refused. */
  lemma RefusedPrefix(s: Store, ops: seq<Op>, m: nat)
    requires m <= |ops| && ApplyOps(s, ops[..m]).None?
    ensures ApplyOps(s, ops).None?
  {
    assert ops == ops[..m] + ops[m..];
    ApplyConcat(s, ops[..m], ops[m..]);
  }

  lemma NextChunk(all: seq<Op>, m: nat, chunks: seq<Changes>, i: nat)
    requires m <= |all| && i < |chunks| && all[m..] == Flatten(chunks[i..])
    ensures var n := |Ops(chunks[i])|;
            && m + n <= |all| && all[m..m + n] == Ops(chunks[i])
            && all[m + n..] == Flatten(chunks[i + 1..])
    ensures i == |chunks| - 1 ==> m + |Ops(chunks[i])| == |all|
  {
  }

  lemma EndOfChunks(all: seq<Op>, m: nat, chunks: seq<Changes>)
    requires m <= |all| && all[m..] == Flatten(chunks[|chunks|..])
    ensures m == |all|
  {
  }

  /** The first k zones have had their turn, the others are untouched. */
  ghost predicate PassSoFar(st: Stores, st': Stores, p: Pass, k: nat, fs: seq<bool>, cs: seq<bool>) {
    && ValidZones(p.zones, st)
    && k == |fs| == |cs| <= |p.zones|
    && st'.Keys == st.Keys
    && (forall id <- st :: (forall l :: 0 <= l < k ==> p.zones[l].id != id) ==> st'[id] == st[id])
    && forall l :: 0 <= l < k ==> ZoneTurn(st, st', p, l, fs[l], cs[l])
  }

  lemma Untouched(st: Stores, before: Stores, p: Pass, k: nat, fs: seq<bool>, cs: seq<bool>)
    requires PassSoFar(st, before, p, k, fs, cs) && k < |p.zones|
    ensures before[p.zones[k].id] == st[p.zones[k].id]
    ensures forall l :: 0 <= l < k ==> p.zones[l].id != p.zones[k].id
  {
    hide ZoneSync, DesiredOf, OwnerComment;
    forall l | 0 <= l < k ensures p.zones[l].id != p.zones[k].id {
      assert ZoneIdOf()(p.zones[l]) != ZoneIdOf()(p.zones[k]);
    }
  }

  lemma ZoneDone(st: Stores, before: Stores, after: Stores, p: Pass, k: nat, fs: seq<bool>, cs: seq<bool>, f: bool,
                 c: bool)
    requires PassSoFar(st, before, p, k, fs, cs) && k < |p.zones|
    requires AllWellFormed(before) && after.Keys == before.Keys
    requires forall id <- before :: id != p.zones[k].id ==> after[id] == before[id]
    requires ZoneSync(before[p.zones[k].id], after[p.zones[k].id], DesiredOf(p, k), OwnerComment(p.uid), f, c)
    ensures PassSoFar(st, after, p, k + 1, fs + [f], cs + [c]) && AllWellFormed(after)
  {
    hide ZoneSync, DesiredOf, WellFormed, Foreign, OwnerComment, DistinctBy;
    var id := p.zones[k].id;
    Untouched(st, before, p, k, fs, cs);
    DesiredOwned(p, k);
    OwnerCommentInjective(p.uid, p.uid);
    ZoneSyncIsSafe(before[id], after[id], DesiredOf(p, k), OwnerComment(p.uid), f, c);
  }
}
