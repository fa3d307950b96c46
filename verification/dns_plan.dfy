/** The ownership-restricted diff of one zone, and what applying it achieves. */
module DnsPlan {
  import opened Text
  import opened DnsStore
  import opened Seqs

  /** A stored record as ListDNSRecords reports it. */
  function Listed(r: Record): Record {
    r.(name := Normalize(r.name), content := Normalize(r.content))
  }

  /** `current` reports every record of the zone once, in some order. */
  ghost predicate IsListing(current: seq<Record>, s: Store) {
    && (forall k :: 0 <= k < |current| ==>
         current[k].id in s.records && current[k] == Listed(s.records[current[k].id]))
    && (forall i <- s.records :: exists k :: 0 <= k < |current| && current[k].id == i)
    && DistinctBy(current, IdOf())
  }

  predicate Owned(r: Record, owner: string) {
    r.comment == owner
  }

  predicate Named(rs: seq<Record>, name: string) {
    exists r <- rs :: r.name == name
  }

  /** The record a name is matched against: the first owned one, else the last one read. */
  function Chosen(current: seq<Record>, name: string, owner: string): (c: Option<Record>)
    ensures c.Some? <==> Named(current, name)
    ensures c.Some? ==> c.value in current && c.value.name == name
    ensures (exists r <- current :: r.name == name && Owned(r, owner)) ==> Owned(c.value, owner)
  {
    if current == [] then None
    else
      var was, r := Chosen(current[..|current| - 1], name, owner), current[|current| - 1];
      assert current == current[..|current| - 1] + [r];
      if r.name != name || (was.Some? && Owned(was.value, owner)) then was else Some(r)
  }

  /** A desired record whose name nobody holds. */
  function IsNew(current: seq<Record>, owner: string): Record -> bool {
    (d: Record) => Chosen(current, d.name, owner).None?
  }

  /** A desired record whose owned counterpart differs. */
  function IsOutdated(current: seq<Record>, owner: string): Record -> bool {
    (d: Record) => var c := Chosen(current, d.name, owner);
         c.Some? && Owned(c.value, owner) && (c.value.content != d.content || c.value.proxied != d.proxied)
  }

  /** A desired record whose name somebody else's record holds. */
  function IsConflicting(current: seq<Record>, owner: string): Record -> bool {
    (d: Record) => var c := Chosen(current, d.name, owner); c.Some? && !Owned(c.value, owner)
  }

  /** An owned record nobody wants any more. */
  function IsStale(desired: seq<Record>, owner: string): Record -> bool {
    (r: Record) => Owned(r, owner) && !Named(desired, r.name)
  }

  /** The update carries the ID of the record it replaces. */
  function WithCurrentId(current: seq<Record>, owner: string): Record -> Record {
    (d: Record) => var c := Chosen(current, d.name, owner); if c.Some? then d.(id := c.value.id) else d
  }

  function NameOf(): Record -> string { (r: Record) => r.name }
  function IdOf(): Record -> nat { (r: Record) => r.id }

  function Conflicting(desired: seq<Record>, current: seq<Record>, owner: string): seq<string> {
    Map(Filter(desired, IsConflicting(current, owner)), NameOf())
  }

  function Plan(desired: seq<Record>, current: seq<Record>, owner: string): Changes {
    Changes(
      Filter(desired, IsNew(current, owner)),
      Map(Filter(desired, IsOutdated(current, owner)), WithCurrentId(current, owner)),
      Filter(current, IsStale(desired, owner)))
  }

  /** The controller's index of the current records by name. */
  method IndexByName(current: seq<Record>, owner: string) returns (currentByName: map<string, Record>)
    ensures forall n :: n in currentByName <==> Chosen(current, n, owner).Some?
    ensures forall n <- currentByName :: Chosen(current, n, owner) == Some(currentByName[n])
  {
    currentByName := map[];
    for i := 0 to |current|
      invariant forall n :: n in currentByName <==> Chosen(current[..i], n, owner).Some?
      invariant forall n <- currentByName :: Chosen(current[..i], n, owner) == Some(currentByName[n])
    {
      var r := current[i];
      assert current[..i + 1][..i] == current[..i];
      if !(r.name in currentByName && Owned(currentByName[r.name], owner)) {
        currentByName := currentByName[r.name := r];
      }
    }
    assert current[..|current|] == current;
  }

  /** The diff as the controller computes it: one pass over the desired records, one over the
      current ones. */
  method PlanDnsChanges(desired: seq<Record>, current: seq<Record>, owner: string)
    returns (changes: Changes, conflicts: seq<string>)
    ensures changes == Plan(desired, current, owner)
    ensures conflicts == Conflicting(desired, current, owner)
  {
    hide Chosen, Normalize, Filter, Named;
    var currentByName := IndexByName(current, owner);
    FilterNothing([], IsNew(current, owner));
    FilterNothing([], IsOutdated(current, owner));
    FilterNothing([], IsConflicting(current, owner));
    FilterNothing([], IsStale(desired, owner));
    var creates, updates, deletes := [], [], [];
    conflicts := [];
    var desiredNames: set<string> := {};
    for i := 0 to |desired|
      invariant creates == Filter(desired[..i], IsNew(current, owner))
      invariant updates == Map(Filter(desired[..i], IsOutdated(current, owner)), WithCurrentId(current, owner))
      invariant conflicts == Conflicting(desired[..i], current, owner)
      invariant desiredNames == NameSet(desired[..i])
    {
      var d := desired[i];
      assert desired[..i + 1][..i] == desired[..i];
      FilterStep(desired, i, IsNew(current, owner));
      FilterStep(desired, i, IsOutdated(current, owner));
      FilterStep(desired, i, IsConflicting(current, owner));
      desiredNames := desiredNames + {d.name};
      if d.name !in currentByName {
        creates := creates + [d];
      } else {
        var cur := currentByName[d.name];
        if cur.comment != owner {
          conflicts := conflicts + [d.name];
        } else if cur.content != d.content || cur.proxied != d.proxied {
          updates := updates + [d.(id := cur.id)];
        }
      }
    }
    assert desired[..|desired|] == desired;

    for i := 0 to |current|
      invariant deletes == Filter(current[..i], IsStale(desired, owner))
    {
      var r := current[i];
      FilterStep(current, i, IsStale(desired, owner));
      NameSetMember(desired, r.name);
      if r.comment == owner && r.name !in desiredNames {
        deletes := deletes + [r];
      }
    }
    assert current[..|current|] == current;
    changes := Changes(creates, updates, deletes);
  }

  ghost function NameSet(rs: seq<Record>): set<string> {
    if rs == [] then {} else NameSet(rs[..|rs| - 1]) + {rs[|rs| - 1].name}
  }

  lemma {:induction false} NameSetMember(rs: seq<Record>, n: string)
    ensures n in NameSet(rs) <==> Named(rs, n)
  {
    if rs != [] {
      NameSetMember(rs[..|rs| - 1], n);
      assert rs == rs[..|rs| - 1] + [rs[|rs| - 1]];
    }
  }

  // ----- Ownership -----

  /** The records of a zone that carry another comment than `owner`. */
  ghost function Foreign(s: Store, owner: string): map<nat, Record> {
    map i | i in s.records && !Owned(s.records[i], owner) :: s.records[i]
  }

  ghost predicate StaysWithin(ops: seq<Op>, s: Store, owner: string) {
    forall k :: 0 <= k < |ops| ==>
      && (ops[k].Create? || ops[k].r.id !in Foreign(s, owner))
      && (ops[k].Delete? || Owned(ops[k].r, owner))
  }

  lemma OpSparesForeign(t: Store, op: Op, owner: string)
    requires owner != "" && t.next !in t.records && ApplyOp(t, op).Some?
    requires (op.Create? || op.r.id !in Foreign(t, owner)) && (op.Delete? || Owned(op.r, owner))
    ensures Foreign(ApplyOp(t, op).value, owner) == Foreign(t, owner)
  {
  }

  lemma {:induction false} OpsSpareForeign(s: Store, ops: seq<Op>, owner: string)
    requires WellFormed(s) && owner != "" && StaysWithin(ops, s, owner) && ApplyOps(s, ops).Some?
    ensures Foreign(ApplyOps(s, ops).value, owner) == Foreign(s, owner)
  {
    hide Normalize, Foreign, ApplyOp;
    if ops != [] {
      var before := ops[..|ops| - 1];
      OpsSpareForeign(s, before, owner);
      ApplyKeepsWellFormed(s, before);
      OpSparesForeign(ApplyOps(s, before).value, ops[|ops| - 1], owner);
    }
  }

  lemma DeleteSource(s: Store, current: seq<Record>, desired: seq<Record>, owner: string, q: Record)
    requires IsListing(current, s) && q in Plan(desired, current, owner).deletes
    ensures q.id in s.records && q == Listed(s.records[q.id]) && Owned(q, owner) && !Named(desired, q.name)
  {
    hide Normalize;
    FilterMember(current, IsStale(desired, owner));
  }

  lemma PlanStaysWithin(s: Store, current: seq<Record>, desired: seq<Record>, owner: string)
    requires WellFormed(s) && IsListing(current, s)
    requires forall d <- desired :: Owned(d, owner)
    ensures StaysWithin(Ops(Plan(desired, current, owner)), s, owner)
  {
    hide Normalize, Chosen, Foreign, Filter, IsListing, WellFormed;
    var p := Plan(desired, current, owner);
    forall k | 0 <= k < |p.deletes| ensures p.deletes[k].id !in Foreign(s, owner) {
      DeleteSource(s, current, desired, owner, p.deletes[k]);
      NotForeign(s, owner, p.deletes[k].id);
    }
    forall k | 0 <= k < |p.updates| ensures p.updates[k].id !in Foreign(s, owner) && Owned(p.updates[k], owner) {
      var d := UpdateSource(s, current, desired, owner, p.updates[k]);
      NotForeign(s, owner, p.updates[k].id);
    }
    forall k | 0 <= k < |p.creates| ensures Owned(p.creates[k], owner) {
      FilterMember(desired, IsNew(current, owner));
      assert p.creates[k] in p.creates;
    }
  }

  lemma NotForeign(s: Store, owner: string, i: nat)
    requires i in s.records && Owned(s.records[i], owner)
    ensures i !in Foreign(s, owner)
  {
  }

  /** However many mutations of a plan are carried out, no record of another owner is created,
      changed or deleted. */
  lemma PlanSparesForeign(s: Store, current: seq<Record>, desired: seq<Record>, owner: string, m: nat)
    requires WellFormed(s) && IsListing(current, s) && owner != ""
    requires forall d <- desired :: Owned(d, owner)
    requires var ops := Ops(Plan(desired, current, owner)); m <= |ops| && ApplyOps(s, ops[..m]).Some?
    ensures var t := ApplyOps(s, Ops(Plan(desired, current, owner))[..m]).value;
            WellFormed(t) && Foreign(t, owner) == Foreign(s, owner) && t.blocked == s.blocked
  {
    hide WellFormed, Foreign, IsListing;
    var ops := Ops(Plan(desired, current, owner));
    PlanStaysWithin(s, current, desired, owner);
    ApplyKeepsWellFormed(s, ops[..m]);
    OpsSpareForeign(s, ops[..m], owner);
  }

  /** A plan writes the content of desired records and nothing else. */
  lemma PlanWrites(desired: seq<Record>, current: seq<Record>, owner: string, content: string)
    requires forall d <- desired :: d.content == content
    ensures forall op <- Ops(Plan(desired, current, owner)) :: !op.Delete? ==> op.r.content == content
  {
    hide Chosen;
    FilterMember(desired, IsNew(current, owner));
    FilterMember(desired, IsOutdated(current, owner));
    var p, ds := Plan(desired, current, owner), Filter(desired, IsOutdated(current, owner));
    forall k | 0 <= k < |p.updates| ensures p.updates[k].content == content {
      assert ds[k] in ds;
    }
    forall k | 0 <= k < |p.creates| ensures p.creates[k].content == content {
      assert p.creates[k] in p.creates;
    }
  }

  // ----- What a complete plan achieves -----

  /** Desired records as reconcileDNS builds them: owned, not yet stored, names and targets in
      canonical form, no name twice. */
  ghost predicate Sound(desired: seq<Record>, owner: string) {
    && owner != ""
    && (forall d <- desired ::
        d.id == 0 && Owned(d, owner) && Normalize(d.name) == d.name && Normalize(d.content) == d.content)
    && DistinctBy(desired, NameOf())
  }

  /** The zone serves exactly this desired record. */
  ghost predicate Holds(s: Store, d: Record) {
    exists i <- s.records :: Listed(s.records[i]) == d.(id := i)
  }

  ghost predicate HeldByOther(s: Store, name: string, owner: string) {
    exists i <- s.records :: Normalize(s.records[i].name) == name && !Owned(s.records[i], owner)
  }

  /** Every desired record is in place unless another owner holds its name, and nothing else is owned. */
  ghost predicate Settled(s: Store, desired: seq<Record>, owner: string) {
    && (forall d <- desired :: Holds(s, d) || HeldByOther(s, d.name, owner))
    && (forall i <- s.records :: Owned(s.records[i], owner) ==>
         exists d <- desired :: Listed(s.records[i]) == d.(id := i))
  }

  /** In a well-formed zone a name is matched against the one record that has it. */
  lemma ChosenIs(s: Store, current: seq<Record>, i: nat, owner: string)
    requires WellFormed(s) && IsListing(current, s) && i in s.records
    ensures Chosen(current, Normalize(s.records[i].name), owner) == Some(Listed(s.records[i]))
  {
  }

  predicate HasId(rs: seq<Record>, i: nat) {
    exists r <- rs :: r.id == i
  }

  /** `t` is `s` without the listed records. */
  ghost predicate Without(s: Store, rs: seq<Record>, t: Store) {
    && t.next == s.next && t.blocked == s.blocked
    && (forall i :: i in t.records <==> i in s.records && !HasId(rs, i))
    && (forall i <- t.records :: t.records[i] == s.records[i])
  }

  /** `t` is `s` with the listed records put in place of those with the same ID. */
  ghost predicate Replaced(s: Store, rs: seq<Record>, t: Store) {
    && t.next == s.next && t.blocked == s.blocked
    && t.records.Keys == s.records.Keys
    && (forall r <- rs :: r.id in t.records && t.records[r.id] == r)
    && (forall i <- s.records :: !HasId(rs, i) ==> t.records[i] == s.records[i])
  }

  /** `t` is `s` with the listed records added under fresh IDs. */
  ghost predicate Extended(s: Store, rs: seq<Record>, t: Store) {
    && t.next == s.next + |rs| && t.blocked == s.blocked
    && (forall i :: i in t.records <==> i in s.records || s.next <= i < s.next + |rs|)
    && (forall i <- s.records :: t.records[i] == s.records[i])
    && (forall k :: 0 <= k < |rs| ==> t.records[s.next + k] == rs[k].(id := s.next + k))
  }

  lemma HasIdPush(rs: seq<Record>, r: Record, i: nat)
    ensures HasId(rs + [r], i) <==> HasId(rs, i) || i == r.id
  {
  }

  lemma LastIdFresh(before: seq<Record>, r: Record)
    requires DistinctBy(before + [r], IdOf())
    ensures DistinctBy(before, IdOf()) && !HasId(before, r.id)
  {
    var rs := before + [r];
    forall i, j | 0 <= i < j < |before| ensures IdOf()(before[i]) != IdOf()(before[j]) {
      assert IdOf()(rs[i]) != IdOf()(rs[j]);
    }
    forall i | 0 <= i < |before| ensures before[i].id != r.id {
      assert IdOf()(rs[i]) != IdOf()(rs[|before|]);
    }
  }

  lemma DeleteStep(s: Store, before: seq<Record>, r: Record, t: Store)
    requires Without(s, before, t) && r.id in s.records && !HasId(before, r.id)
    ensures var u := ApplyOp(t, Delete(r)); u.Some? && Without(s, before + [r], u.value)
  {
  }

  lemma {:induction false} DeletePhase(s: Store, rs: seq<Record>)
    requires forall r <- rs :: r.id in s.records
    requires DistinctBy(rs, IdOf())
    ensures var o := ApplyOps(s, Deletes(rs)); o.Some? && Without(s, rs, o.value)
  {
    hide Without, DistinctBy, HasId, ApplyOp;
    if rs == [] {
      NothingDone(s);
    } else {
      var before, r := rs[..|rs| - 1], rs[|rs| - 1];
      assert rs == before + [r] && r in rs;
      LastIdFresh(before, r);
      DeletePhase(s, before);
      assert Deletes(rs)[..|rs| - 1] == Deletes(before);
      DeleteStep(s, before, r, ApplyOps(s, Deletes(before)).value);
    }
  }

  lemma UpdateStep(s: Store, before: seq<Record>, r: Record, t: Store)
    requires WellFormed(t) && Replaced(s, before, t) && r.id in s.records && !HasId(before, r.id)
    requires r.comment != "" && Normalize(r.name) == Normalize(s.records[r.id].name)
    ensures var u := ApplyOp(t, Update(r)); u.Some? && Replaced(s, before + [r], u.value)
  {
    hide HasId, Normalize;
    forall i ensures HasId(before + [r], i) <==> HasId(before, i) || i == r.id { HasIdPush(before, r, i); }
    assert t.records[r.id] == s.records[r.id];
    assert NameFree(t, r.name, r.id);
    var u := ApplyOp(t, Update(r)).value;
    forall q | q in before + [r] ensures q.id in u.records && u.records[q.id] == q {
      if q in before {
        IdMember(before, q);
      }
    }
  }

  lemma IdMember(rs: seq<Record>, q: Record)
    requires q in rs
    ensures HasId(rs, q.id)
  {
  }

  lemma {:induction false} UpdatePhase(s: Store, rs: seq<Record>)
    requires WellFormed(s)
    requires forall r <- rs ::
             r.id in s.records && r.comment != "" && Normalize(r.name) == Normalize(s.records[r.id].name)
    requires DistinctBy(rs, IdOf())
    ensures var o := ApplyOps(s, Updates(rs)); o.Some? && Replaced(s, rs, o.value)
  {
    hide Normalize, Replaced, DistinctBy, HasId, ApplyOp, WellFormed;
    if rs == [] {
      NothingDone(s);
    } else {
      var before, r := rs[..|rs| - 1], rs[|rs| - 1];
      assert rs == before + [r] && r in rs;
      LastIdFresh(before, r);
      UpdatePhase(s, before);
      ApplyKeepsWellFormed(s, Updates(before));
      assert Updates(rs)[..|rs| - 1] == Updates(before);
      UpdateStep(s, before, r, ApplyOps(s, Updates(before)).value);
    }
  }

  lemma CreateStep(s: Store, before: seq<Record>, r: Record, t: Store)
    requires forall i <- s.records :: i < s.next
    requires Extended(s, before, t) && NameFree(s, r.name, 0) && DistinctBy(before + [r], NameOf())
    requires Normalize(r.name) == r.name
    requires forall k :: 0 <= k < |before| ==> Normalize(before[k].name) == before[k].name
    ensures var u := ApplyOp(t, Create(r)); u.Some? && Extended(s, before + [r], u.value)
  {
    hide Normalize;
    forall i | i in t.records && i != 0 ensures Normalize(t.records[i].name) != Normalize(r.name) {
      if i !in s.records {
        var k := i - s.next;
        assert t.records[s.next + k] == before[k].(id := i);
        assert NameOf()((before + [r])[k]) != NameOf()((before + [r])[|before|]);
      }
    }
  }

  lemma {:induction false} CreatePhase(s: Store, rs: seq<Record>)
    requires forall i <- s.records :: i < s.next
    requires forall k :: 0 <= k < |rs| ==> NameFree(s, rs[k].name, 0) && Normalize(rs[k].name) == rs[k].name
    requires DistinctBy(rs, NameOf())
    ensures var o := ApplyOps(s, Creates(rs)); o.Some? && Extended(s, rs, o.value)
  {
    hide Normalize, Extended, NameFree, ApplyOp;
    if rs == [] {
      NothingDone(s);
    } else {
      var before, r := rs[..|rs| - 1], rs[|rs| - 1];
      assert rs == before + [r];
      CreatePhase(s, before);
      assert Creates(rs)[..|rs| - 1] == Creates(before);
      CreateStep(s, before, r, ApplyOps(s, Creates(before)).value);
    }
  }

  lemma NothingDone(s: Store)
    ensures Without(s, [], s) && Replaced(s, [], s) && Extended(s, [], s)
  {
  }

  lemma UpdatesDistinct(desired: seq<Record>, s: Store, current: seq<Record>, owner: string)
    requires Sound(desired, owner) && WellFormed(s) && IsListing(current, s)
    ensures DistinctBy(Plan(desired, current, owner).updates, IdOf())
  {
    hide Normalize;
    var ds := Filter(desired, IsOutdated(current, owner));
    FilterDistinct(desired, IsOutdated(current, owner), NameOf());
    FilterMember(desired, IsOutdated(current, owner));
    var rs := Plan(desired, current, owner).updates;
    forall k, l | 0 <= k < l < |rs| ensures rs[k].id != rs[l].id {
      assert NameOf()(ds[k]) != NameOf()(ds[l]);
      assert ds[k] in ds && ds[l] in ds;
      var a, b := Chosen(current, ds[k].name, owner).value, Chosen(current, ds[l].name, owner).value;
      assert a == Listed(s.records[a.id]) && b == Listed(s.records[b.id]);
    }
  }

  /** Some desired name is taken by a record of another type, which the listing does not show. */
  ghost predicate Blocked(s: Store, desired: seq<Record>) {
    exists d <- desired :: d.name in s.blocked
  }

  /** A plan made from a fresh listing is refused exactly when a record of another type blocks a desired name, and
      carrying it out in full settles the zone. */
  lemma PlanSettles(s: Store, current: seq<Record>, desired: seq<Record>, owner: string)
    requires WellFormed(s) && IsListing(current, s) && Sound(desired, owner)
    ensures var o := ApplyOps(s, Ops(Plan(desired, current, owner)));
            (o.Some? <==> !Blocked(s, desired)) && (o.Some? ==> Settled(o.value, desired, owner))
  {
    hide Normalize, Plan, Settled, IsListing, WellFormed, Sound;
    if Blocked(s, desired) {
      BlockedIsRefused(s, current, desired, owner);
    } else {
      UnblockedSettles(s, current, desired, owner);
    }
  }

  lemma BlockedIsRefused(s: Store, current: seq<Record>, desired: seq<Record>, owner: string)
    requires WellFormed(s) && IsListing(current, s) && Sound(desired, owner) && Blocked(s, desired)
    ensures ApplyOps(s, Ops(Plan(desired, current, owner))).None?
  {
    hide Normalize, Plan, Chosen;
    var p := Plan(desired, current, owner);
    PlanMembers(desired, current, owner);
    var d :| d in desired && d.name in s.blocked;
    assert !Named(current, d.name);
    var k :| 0 <= k < |p.creates| && p.creates[k] == d;
    assert Ops(p)[|p.deletes| + |p.updates| + k] == Create(d);
    if ApplyOps(s, Ops(p)).Some? {
      AcceptedAvoidsBlocked(s, Ops(p));
    }
  }

  lemma UnblockedSettles(s: Store, current: seq<Record>, desired: seq<Record>, owner: string)
    requires WellFormed(s) && IsListing(current, s) && Sound(desired, owner) && !Blocked(s, desired)
    ensures var o := ApplyOps(s, Ops(Plan(desired, current, owner))); o.Some? && Settled(o.value, desired, owner)
  {
    hide Normalize;
    var p := Plan(desired, current, owner);
    var t1, t2, t3 := PlanPhases(s, current, desired, owner);
    forall d | d in desired ensures Holds(t3, d) || HeldByOther(t3, d.name, owner) {
      DesiredServed(s, current, desired, owner, t1, t2, t3, d);
    }
    forall i | i in t3.records && Owned(t3.records[i], owner)
      ensures exists d <- desired :: Listed(t3.records[i]) == d.(id := i)
    {
      OwnedDesired(s, current, desired, owner, t1, t2, t3, i);
    }
  }

  /** The zone after the deletes, after the updates and after the creates. */
  ghost predicate Phases(s: Store, p: Changes, t1: Store, t2: Store, t3: Store) {
    Without(s, p.deletes, t1) && Replaced(t1, p.updates, t2) && Extended(t2, p.creates, t3)
  }

  lemma PlanMembers(desired: seq<Record>, current: seq<Record>, owner: string)
    ensures var p := Plan(desired, current, owner);
            && (forall d :: d in p.creates <==> d in desired && !Named(current, d.name))
            && (forall d <- desired :: IsOutdated(current, owner)(d) ==> WithCurrentId(current, owner)(d) in p.updates)
            && (forall r :: r in p.deletes <==> r in current && Owned(r, owner) && !Named(desired, r.name))
  {
    hide Normalize;
    FilterMember(desired, IsNew(current, owner));
    FilterMember(desired, IsOutdated(current, owner));
    FilterMember(current, IsStale(desired, owner));
    var ds, us := Filter(desired, IsOutdated(current, owner)), Plan(desired, current, owner).updates;
    forall d | d in ds ensures WithCurrentId(current, owner)(d) in us {
      var k :| 0 <= k < |ds| && ds[k] == d;
      assert us[k] == WithCurrentId(current, owner)(d);
    }
  }

  /** Where a planned update comes from. */
  lemma UpdateSource(s: Store, current: seq<Record>, desired: seq<Record>, owner: string, r: Record) returns (d: Record)
    requires WellFormed(s) && IsListing(current, s)
    requires r in Plan(desired, current, owner).updates
    ensures d in desired && r == d.(id := r.id) && IsOutdated(current, owner)(d)
    ensures r.id in s.records && Owned(s.records[r.id], owner) && Normalize(s.records[r.id].name) == d.name
  {
    hide Normalize;
    var ds := Filter(desired, IsOutdated(current, owner));
    FilterMember(desired, IsOutdated(current, owner));
    var k :| 0 <= k < |ds| && r == WithCurrentId(current, owner)(ds[k]);
    d := ds[k];
    assert d in ds;
    var c := Chosen(current, d.name, owner).value;
    assert c == Listed(s.records[c.id]);
  }

  /** Stale records are never ones the plan updates. */
  lemma UpdatesSurvive(s: Store, current: seq<Record>, desired: seq<Record>, owner: string, t1: Store)
    requires WellFormed(s) && IsListing(current, s) && Sound(desired, owner)
    requires Without(s, Plan(desired, current, owner).deletes, t1)
    ensures forall r <- Plan(desired, current, owner).updates ::
              r.id in t1.records && r.comment != "" && Normalize(r.name) == Normalize(t1.records[r.id].name)
  {
    hide Normalize, IsListing, WellFormed, Plan, Chosen;
    var p := Plan(desired, current, owner);
    forall r | r in p.updates
      ensures r.id in t1.records && r.comment != "" && Normalize(r.name) == Normalize(t1.records[r.id].name)
    {
      var d := UpdateSource(s, current, desired, owner, r);
      NotDeleted(s, current, desired, owner, r.id, d);
    }
  }

  lemma NotDeleted(s: Store, current: seq<Record>, desired: seq<Record>, owner: string, i: nat, d: Record)
    requires WellFormed(s) && IsListing(current, s) && d in desired
    requires i in s.records && Normalize(s.records[i].name) == d.name
    ensures !HasId(Plan(desired, current, owner).deletes, i)
  {
    hide Normalize, IsListing, WellFormed, Plan, Chosen;
    var p := Plan(desired, current, owner);
    if HasId(p.deletes, i) {
      var q :| q in p.deletes && q.id == i;
      DeleteSource(s, current, desired, owner, q);
      assert false;
    }
  }

  /** New names are still free once the updates are through. */
  lemma NewNamesFree(s: Store, current: seq<Record>, desired: seq<Record>, owner: string, t1: Store, t2: Store)
    requires WellFormed(s) && IsListing(current, s) && Sound(desired, owner) && !Blocked(s, desired)
    requires Without(s, Plan(desired, current, owner).deletes, t1)
    requires Replaced(t1, Plan(desired, current, owner).updates, t2)
    ensures forall r <- Plan(desired, current, owner).creates :: NameFree(t2, r.name, 0) && Normalize(r.name) == r.name
  {
    hide Normalize;
    var p := Plan(desired, current, owner);
    FilterMember(desired, IsNew(current, owner));
    forall r, i | r in p.creates && i in t2.records ensures Normalize(t2.records[i].name) != r.name {
      if HasId(p.updates, i) {
        var u :| u in p.updates && u.id == i;
        var d := UpdateSource(s, current, desired, owner, u);
      }
      assert Normalize(t2.records[i].name) == Normalize(s.records[i].name);
      ChosenIs(s, current, i, owner);
    }
  }

  lemma PlanPhases(s: Store, current: seq<Record>, desired: seq<Record>, owner: string)
    returns (t1: Store, t2: Store, t3: Store)
    requires WellFormed(s) && IsListing(current, s) && Sound(desired, owner) && !Blocked(s, desired)
    ensures ApplyOps(s, Ops(Plan(desired, current, owner))) == Some(t3)
    ensures Phases(s, Plan(desired, current, owner), t1, t2, t3)
  {
    hide Normalize, Plan, IsListing, WellFormed, Sound, Blocked, Without, Replaced, Extended, ApplyOps, Deletes,
        Updates, Creates;
    var p := Plan(desired, current, owner);
    t1 := DeletesGoThrough(s, current, desired, owner);
    t2 := UpdatesGoThrough(s, current, desired, owner, t1);
    t3 := CreatesGoThrough(s, current, desired, owner, t1, t2);
    ApplyConcat(s, Deletes(p.deletes), Updates(p.updates));
    ApplyConcat(s, Deletes(p.deletes) + Updates(p.updates), Creates(p.creates));
  }

  lemma DeletesGoThrough(s: Store, current: seq<Record>, desired: seq<Record>, owner: string) returns (t: Store)
    requires WellFormed(s) && IsListing(current, s)
    ensures var rs := Plan(desired, current, owner).deletes;
            ApplyOps(s, Deletes(rs)) == Some(t) && Without(s, rs, t) && WellFormed(t)
  {
    hide Normalize, Chosen, ApplyOps, WellFormed;
    var rs := Plan(desired, current, owner).deletes;
    assert DistinctBy(rs, IdOf()) by { FilterDistinct(current, IsStale(desired, owner), IdOf()); }
    assert forall r <- rs :: r.id in s.records by { FilterMember(current, IsStale(desired, owner)); }
    DeletePhase(s, rs);
    t := ApplyOps(s, Deletes(rs)).value;
    ApplyKeepsWellFormed(s, Deletes(rs));
  }

  lemma UpdatesGoThrough(s: Store, current: seq<Record>, desired: seq<Record>, owner: string, t1: Store)
    returns (t: Store)
    requires WellFormed(s) && IsListing(current, s) && Sound(desired, owner) && WellFormed(t1)
    requires Without(s, Plan(desired, current, owner).deletes, t1)
    ensures var rs := Plan(desired, current, owner).updates;
            ApplyOps(t1, Updates(rs)) == Some(t) && Replaced(t1, rs, t)
  {
    hide Normalize, Plan, IsListing, WellFormed, Sound, Without, Replaced, ApplyOps, Updates, DistinctBy;
    var rs := Plan(desired, current, owner).updates;
    UpdatesDistinct(desired, s, current, owner);
    UpdatesSurvive(s, current, desired, owner, t1);
    UpdatePhase(t1, rs);
    t := ApplyOps(t1, Updates(rs)).value;
  }

  lemma CreatesGoThrough(s: Store, current: seq<Record>, desired: seq<Record>, owner: string, t1: Store, t2: Store)
    returns (t: Store)
    requires WellFormed(s) && IsListing(current, s) && Sound(desired, owner) && !Blocked(s, desired)
    requires Without(s, Plan(desired, current, owner).deletes, t1)
    requires Replaced(t1, Plan(desired, current, owner).updates, t2)
    ensures var rs := Plan(desired, current, owner).creates;
            ApplyOps(t2, Creates(rs)) == Some(t) && Extended(t2, rs, t)
  {
    hide Normalize, Chosen, ApplyOps, Creates, Extended, NameFree;
    var rs := Plan(desired, current, owner).creates;
    assert DistinctBy(rs, NameOf()) by { FilterDistinct(desired, IsNew(current, owner), NameOf()); }
    NewNamesFree(s, current, desired, owner, t1, t2);
    assert forall i <- t2.records :: i < t2.next;
    CreatePhase(t2, rs);
    t := ApplyOps(t2, Creates(rs)).value;
  }

  /** A current record the plan neither deletes nor updates is still there at the end. */
  lemma KeptRecord(s: Store, p: Changes, t1: Store, t2: Store, t3: Store, i: nat)
    requires Phases(s, p, t1, t2, t3) && i in s.records && !HasId(p.deletes, i) && !HasId(p.updates, i)
    ensures i in t3.records && t3.records[i] == s.records[i]
  {
  }

  lemma UpdatedRecord(s: Store, p: Changes, t1: Store, t2: Store, t3: Store, r: Record)
    requires Phases(s, p, t1, t2, t3) && r in p.updates
    ensures r.id in t3.records && t3.records[r.id] == r
  {
  }

  lemma CreatedRecord(s: Store, p: Changes, t1: Store, t2: Store, t3: Store, r: Record) returns (i: nat)
    requires Phases(s, p, t1, t2, t3) && r in p.creates
    ensures i in t3.records && t3.records[i] == r.(id := i)
  {
    var k :| 0 <= k < |p.creates| && p.creates[k] == r;
    i := s.next + k;
  }

  /** Where a record of the final zone comes from. */
  lemma FinalRecord(s: Store, p: Changes, t1: Store, t2: Store, t3: Store, i: nat)
    requires Phases(s, p, t1, t2, t3) && i in t3.records
    ensures || (exists r <- p.creates :: t3.records[i] == r.(id := i))
            || (i in s.records && HasId(p.updates, i) && exists r <- p.updates :: r.id == i && t3.records[i] == r)
            || (i in s.records && !HasId(p.updates, i) && !HasId(p.deletes, i) && t3.records[i] == s.records[i])
  {
    if i !in t2.records {
      var k := i - s.next;
      assert p.creates[k] in p.creates && t3.records[s.next + k] == p.creates[k].(id := i);
    } else if HasId(p.updates, i) {
      var r :| r in p.updates && r.id == i;
    }
  }

  lemma DesiredServed(s: Store, current: seq<Record>, desired: seq<Record>, owner: string, t1: Store, t2: Store,
                      t3: Store, d: Record)
    requires WellFormed(s) && IsListing(current, s) && Sound(desired, owner) && d in desired
    requires Phases(s, Plan(desired, current, owner), t1, t2, t3)
    ensures Holds(t3, d) || HeldByOther(t3, d.name, owner)
  {
    hide Normalize, Phases;
    var p := Plan(desired, current, owner);
    PlanMembers(desired, current, owner);
    var c := Chosen(current, d.name, owner);
    if c.None? {
      var i := CreatedRecord(s, p, t1, t2, t3, d);
      assert Listed(t3.records[i]) == d.(id := i);
    } else if IsOutdated(current, owner)(d) {
      var r := WithCurrentId(current, owner)(d);
      UpdatedRecord(s, p, t1, t2, t3, r);
      assert Listed(t3.records[r.id]) == d.(id := r.id);
    } else {
      var i := c.value.id;
      assert c.value == Listed(s.records[i]);
      MatchedRecordKept(s, current, desired, owner, d);
      KeptRecord(s, p, t1, t2, t3, i);
      if Owned(c.value, owner) {
        assert Listed(t3.records[i]) == d.(id := i);
      }
    }
  }

  lemma MatchedRecordKept(s: Store, current: seq<Record>, desired: seq<Record>, owner: string, d: Record)
    requires WellFormed(s) && IsListing(current, s) && Sound(desired, owner) && d in desired
    requires Chosen(current, d.name, owner).Some? && !IsOutdated(current, owner)(d)
    ensures var p, i := Plan(desired, current, owner), Chosen(current, d.name, owner).value.id;
            i in s.records && !HasId(p.deletes, i) && !HasId(p.updates, i)
  {
    hide Normalize, Filter;
    var p, c := Plan(desired, current, owner), Chosen(current, d.name, owner).value;
    assert c == Listed(s.records[c.id]);
    NotDeleted(s, current, desired, owner, c.id, d);
    NotUpdated(s, current, desired, owner, c.id, d);
  }

  lemma NotUpdated(s: Store, current: seq<Record>, desired: seq<Record>, owner: string, i: nat, d: Record)
    requires WellFormed(s) && IsListing(current, s) && Sound(desired, owner) && d in desired
    requires i in s.records && Normalize(s.records[i].name) == d.name
    requires !IsOutdated(current, owner)(d)
    ensures !HasId(Plan(desired, current, owner).updates, i)
  {
    hide Normalize, IsListing, WellFormed, Plan, Chosen;
    var p := Plan(desired, current, owner);
    if HasId(p.updates, i) {
      var r :| r in p.updates && r.id == i;
      var e := UpdateSource(s, current, desired, owner, r);
      SameName(desired, owner, d, e);
      assert false;
    }
  }

  lemma SameName(desired: seq<Record>, owner: string, d: Record, e: Record)
    requires Sound(desired, owner) && d in desired && e in desired && d.name == e.name
    ensures d == e
  {
    hide Normalize;
    DistinctEqual(desired, NameOf(), d, e);
  }

  lemma OwnedDesired(s: Store, current: seq<Record>, desired: seq<Record>, owner: string, t1: Store, t2: Store,
                     t3: Store, i: nat)
    requires WellFormed(s) && IsListing(current, s) && Sound(desired, owner)
    requires Phases(s, Plan(desired, current, owner), t1, t2, t3)
    requires i in t3.records && Owned(t3.records[i], owner)
    ensures exists d <- desired :: Listed(t3.records[i]) == d.(id := i)
  {
    hide Normalize, Phases;
    var p := Plan(desired, current, owner);
    PlanMembers(desired, current, owner);
    FinalRecord(s, p, t1, t2, t3, i);
    if d :| d in p.creates && t3.records[i] == d.(id := i) {
      assert Listed(t3.records[i]) == d.(id := i);
    } else if r :| r in p.updates && r.id == i && t3.records[i] == r {
      var d := UpdateSource(s, current, desired, owner, r);
    } else {
      KeptIsDesired(s, current, desired, owner, i);
    }
  }

  lemma KeptIsDesired(s: Store, current: seq<Record>, desired: seq<Record>, owner: string, i: nat)
    requires WellFormed(s) && IsListing(current, s) && Sound(desired, owner)
    requires i in s.records && Owned(s.records[i], owner)
    requires var p := Plan(desired, current, owner); !HasId(p.updates, i) && !HasId(p.deletes, i)
    ensures exists d <- desired :: Listed(s.records[i]) == d.(id := i)
  {
    hide Normalize;
    var p := Plan(desired, current, owner);
    PlanMembers(desired, current, owner);
    ChosenIs(s, current, i, owner);
    var c := Listed(s.records[i]);
    assert c !in p.deletes;
    var d :| d in desired && d.name == c.name;
    assert IsOutdated(current, owner)(d) ==> d.(id := i) in p.updates;
  }

  /** A settled zone needs nothing more: the next plan is empty, and what it still reports as
      conflicting is exactly what another owner holds. */
  lemma SettledIsFixpoint(s: Store, current: seq<Record>, desired: seq<Record>, owner: string)
    requires WellFormed(s) && IsListing(current, s) && Sound(desired, owner) && Settled(s, desired, owner)
    ensures Plan(desired, current, owner).Empty()
    ensures forall n :: n in Conflicting(desired, current, owner) <==> Named(desired, n) && HeldByOther(s, n, owner)
  {
    hide Normalize, Settled, Chosen, IsListing, WellFormed, Sound, Conflicting, HeldByOther;
    forall d | d in desired ensures !IsNew(current, owner)(d) && !IsOutdated(current, owner)(d) {
      SettledMatch(s, current, desired, owner, d);
    }
    forall r | r in current ensures !IsStale(desired, owner)(r) {
      SettledWanted(s, current, desired, owner, r);
    }
    FilterNothing(desired, IsNew(current, owner));
    FilterNothing(desired, IsOutdated(current, owner));
    FilterNothing(current, IsStale(desired, owner));
    forall n ensures n in Conflicting(desired, current, owner) <==> Named(desired, n) && HeldByOther(s, n, owner) {
      ConflictMember(s, current, desired, owner, n);
    }
  }

  lemma SettledWanted(s: Store, current: seq<Record>, desired: seq<Record>, owner: string, r: Record)
    requires IsListing(current, s) && Settled(s, desired, owner) && r in current
    ensures !IsStale(desired, owner)(r)
  {
  }

  /** In a settled zone a desired name is matched by its own record or by another owner's. */
  lemma SettledMatch(s: Store, current: seq<Record>, desired: seq<Record>, owner: string, d: Record)
    requires WellFormed(s) && IsListing(current, s) && Settled(s, desired, owner) && Sound(desired, owner)
             && d in desired
    ensures !IsNew(current, owner)(d) && !IsOutdated(current, owner)(d)
  {
    hide Normalize;
    if Holds(s, d) {
      var i :| i in s.records && Listed(s.records[i]) == d.(id := i);
      ChosenIs(s, current, i, owner);
    } else {
      var i :| i in s.records && Normalize(s.records[i].name) == d.name && !Owned(s.records[i], owner);
      ChosenIs(s, current, i, owner);
    }
  }

  lemma ConflictMember(s: Store, current: seq<Record>, desired: seq<Record>, owner: string, n: string)
    requires WellFormed(s) && IsListing(current, s)
    ensures n in Conflicting(desired, current, owner) <==> Named(desired, n) && HeldByOther(s, n, owner)
  {
    hide Normalize;
    if n in Conflicting(desired, current, owner) {
      ConflictSource(s, current, desired, owner, n);
    }
    if Named(desired, n) && HeldByOther(s, n, owner) {
      var d :| d in desired && d.name == n;
      var i :| i in s.records && Normalize(s.records[i].name) == n && !Owned(s.records[i], owner);
      ChosenIs(s, current, i, owner);
      ConflictReported(desired, current, owner, d);
    }
  }

  lemma ConflictReported(desired: seq<Record>, current: seq<Record>, owner: string, d: Record)
    requires d in desired && IsConflicting(current, owner)(d)
    ensures d.name in Conflicting(desired, current, owner)
  {
    hide Normalize, Chosen;
    FilterMember(desired, IsConflicting(current, owner));
    var ds := Filter(desired, IsConflicting(current, owner));
    var k :| 0 <= k < |ds| && ds[k] == d;
    assert Conflicting(desired, current, owner)[k] == d.name;
  }

  lemma ConflictSource(s: Store, current: seq<Record>, desired: seq<Record>, owner: string, n: string)
    requires IsListing(current, s) && n in Conflicting(desired, current, owner)
    ensures Named(desired, n) && HeldByOther(s, n, owner)
  {
    hide Normalize;
    var ds := Filter(desired, IsConflicting(current, owner));
    FilterMember(desired, IsConflicting(current, owner));
    var k :| 0 <= k < |ds| && ds[k].name == n;
    assert ds[k] in ds;
    var c := Chosen(current, n, owner).value;
    assert c == Listed(s.records[c.id]);
  }
}
