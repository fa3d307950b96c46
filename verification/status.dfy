/** Status lists: conditions keyed by type, ancestors keyed by Gateway and controller, route parents. All
    are edited in place, capped, and keep transition times. */
module StatusLists {
  import opened Text
  import opened GatewayApi
  import opened Seqs

  datatype Condition = Condition(kind: string, status: string, generation: int, time: int, reason: string,
                                 message: string)

  // ----- Conditions -----

  /** Replaces the condition of the same type, or appends. */
  function SetCondition(cs: seq<Condition>, c: Condition): seq<Condition> {
    if cs == [] then [c]
    else if cs[0].kind == c.kind then [c] + cs[1..]
    else [cs[0]] + SetCondition(cs[1..], c)
  }

  /** The time of the condition of this type and status, or the present. */
  function TransitionTime(cs: seq<Condition>, kind: string, status: string, now: int): int {
    if cs == [] then now
    else if cs[0].kind == kind && cs[0].status == status then cs[0].time
    else TransitionTime(cs[1..], kind, status, now)
  }

  function Find(cs: seq<Condition>, kind: string): Option<Condition> {
    if cs == [] then None else if cs[0].kind == kind then Some(cs[0]) else Find(cs[1..], kind)
  }

  ghost predicate UniqueTypes(cs: seq<Condition>) {
    forall i, j :: 0 <= i < j < |cs| ==> cs[i].kind != cs[j].kind
  }

  lemma {:induction false} SetConditionAt(cs: seq<Condition>, c: Condition, i: nat)
    requires i <= |cs| && forall j :: 0 <= j < i ==> cs[j].kind != c.kind
    requires i < |cs| ==> cs[i].kind == c.kind
    ensures SetCondition(cs, c) == if i < |cs| then cs[i := c] else cs + [c]
  {
    if i > 0 {
      SetConditionAt(cs[1..], c, i - 1);
    }
  }

  method SetConditionLoop(cs: seq<Condition>, c: Condition) returns (r: seq<Condition>)
    ensures r == SetCondition(cs, c)
  {
    for i := 0 to |cs|
      invariant forall j :: 0 <= j < i ==> cs[j].kind != c.kind
    {
      if cs[i].kind == c.kind {
        SetConditionAt(cs, c, i);
        return cs[i := c];
      }
    }
    SetConditionAt(cs, c, |cs|);
    r := cs + [c];
  }

  method TransitionTimeLoop(cs: seq<Condition>, kind: string, status: string, now: int) returns (t: int)
    ensures t == TransitionTime(cs, kind, status, now)
  {
    assert cs[0..] == cs;
    for i := 0 to |cs|
      invariant TransitionTime(cs, kind, status, now) == TransitionTime(cs[i..], kind, status, now)
    {
      assert cs[i..][0] == cs[i] && cs[i..][1..] == cs[i + 1..];
      if cs[i].kind == kind && cs[i].status == status {
        return cs[i].time;
      }
    }
    t := now;
  }

  lemma {:induction false} SetConditionFind(cs: seq<Condition>, c: Condition, kind: string)
    ensures Find(SetCondition(cs, c), kind) == if kind == c.kind then Some(c) else Find(cs, kind)
  {
    if cs != [] && cs[0].kind != c.kind {
      SetConditionFind(cs[1..], c, kind);
      assert ([cs[0]] + SetCondition(cs[1..], c))[1..] == SetCondition(cs[1..], c);
    } else if cs != [] {
      assert ([c] + cs[1..])[1..] == cs[1..];
    }
  }

  lemma {:induction false} SetConditionMember(cs: seq<Condition>, c: Condition)
    ensures forall d <- SetCondition(cs, c) :: d == c || d in cs
    ensures UniqueTypes(cs) ==> UniqueTypes(SetCondition(cs, c))
  {
    if cs != [] && cs[0].kind != c.kind {
      SetConditionMember(cs[1..], c);
      var r := SetCondition(cs[1..], c);
      if UniqueTypes(cs) {
        forall j | 0 <= j < |r| ensures r[j].kind != cs[0].kind {
          assert r[j] in r;
          if r[j] != c {
            var k :| 0 <= k < |cs| - 1 && cs[1..][k] == r[j];
            assert cs[k + 1] == r[j];
          }
        }
      }
    }
  }

  lemma {:induction false} TransitionTimeIs(cs: seq<Condition>, kind: string, status: string, now: int)
    requires UniqueTypes(cs)
    ensures var f := Find(cs, kind);
            TransitionTime(cs, kind, status, now) == if f.Some? && f.value.status == status then f.value.time else now
  {
    if cs != [] {
      assert UniqueTypes(cs[1..]);
      TransitionTimeIs(cs[1..], kind, status, now);
      if cs[0].kind == kind {
        NotFoundLater(cs, kind);
      }
    }
  }

  lemma {:induction false} FindNone(cs: seq<Condition>, kind: string)
    requires forall i :: 0 <= i < |cs| ==> cs[i].kind != kind
    ensures Find(cs, kind) == None
  {
    if cs != [] {
      FindNone(cs[1..], kind);
    }
  }

  lemma NotFoundLater(cs: seq<Condition>, kind: string)
    requires UniqueTypes(cs) && cs != [] && cs[0].kind == kind
    ensures Find(cs[1..], kind) == None
  {
    FindNone(cs[1..], kind);
  }

  // ----- Ancestors -----

  datatype Ancestor = Ancestor(name: string, ns: Option<string>, controller: string, conditions: seq<Condition>)

  /** A missing namespace equals an empty one. */
  datatype Key = Key(name: string, ns: string, controller: string)

  function KeyOf(a: Ancestor): Key {
    Key(a.name, OrElse(a.ns, ""), a.controller)
  }

  const MAX_ANCESTORS := 16

  /** The ancestor entry a controller writes for a Gateway. */
  datatype Ref = Ref(name: string, ns: Option<string>, controller: string) {
    function ToKey(): Key { Key(name, OrElse(ns, ""), controller) }
  }

  function Stamp(cs: seq<Condition>, c: Condition, now: int): Condition {
    c.(time := TransitionTime(cs, c.kind, c.status, now))
  }

  function IndexOf(ancestors: seq<Ancestor>, k: Key): (i: nat)
    ensures i <= |ancestors|
    ensures i < |ancestors| ==> KeyOf(ancestors[i]) == k
    ensures forall j :: 0 <= j < i ==> KeyOf(ancestors[j]) != k
  {
    if ancestors == [] then 0
    else if KeyOf(ancestors[0]) == k then 0
    else
      var i := IndexOf(ancestors[1..], k);
      assert forall j :: 0 < j < i + 1 ==> ancestors[j] == ancestors[1..][j - 1];
      i + 1
  }

  /** A fresh entry carries the condition's own time. */
  function Upserted(ancestors: seq<Ancestor>, r: Ref, c: Condition, now: int): seq<Ancestor> {
    var i := IndexOf(ancestors, r.ToKey());
    if i < |ancestors| then
      var a := ancestors[i];
      ancestors[i := a.(conditions := SetCondition(a.conditions, Stamp(a.conditions, c, now)))]
    else if |ancestors| >= MAX_ANCESTORS then ancestors
    else ancestors + [Ancestor(r.name, r.ns, r.controller, SetCondition([], c))]
  }

  function Removed(ancestors: seq<Ancestor>, r: Ref): seq<Ancestor> {
    var i := IndexOf(ancestors, r.ToKey());
    if i < |ancestors| then ancestors[..i] + ancestors[i + 1..] else ancestors
  }

  predicate SameContent(a: Condition, b: Condition) {
    a.status == b.status && a.reason == b.reason && a.message == b.message && a.generation == b.generation
  }

  predicate AlreadySaid(cs: seq<Condition>, c: Condition) {
    exists e <- cs :: e.kind == c.kind && SameContent(e, c)
  }

  /** A status with an ancestor list. */
  class Status {
    var ancestors: seq<Ancestor>

    constructor ()
      ensures ancestors == []
    {
      ancestors := [];
    }

    /** For policies: always writes. */
    method UpsertAncestorCondition(r: Ref, c: Condition, now: int)
      modifies this
      ensures ancestors == Upserted(old(ancestors), r, c, now)
    {
      var i := FindAncestor(r);
      if i < |ancestors| {
        var a := ancestors[i];
        var t := TransitionTimeLoop(a.conditions, c.kind, c.status, now);
        var cs := SetConditionLoop(a.conditions, c.(time := t));
        ancestors := ancestors[i := a.(conditions := cs)];
        return;
      }
      if |ancestors| >= MAX_ANCESTORS {
        return;
      }
      ancestors := ancestors + [Ancestor(r.name, r.ns, r.controller, SetCondition([], c))];
    }

    method FindAncestor(r: Ref) returns (i: nat)
      ensures i == IndexOf(ancestors, r.ToKey())
    {
      i := 0;
      while i < |ancestors| && KeyOf(ancestors[i]) != r.ToKey()
        invariant i <= |ancestors|
        invariant forall j :: 0 <= j < i ==> KeyOf(ancestors[j]) != r.ToKey()
      {
        i := i + 1;
      }
      var k := IndexOf(ancestors, r.ToKey());
      assert i < |ancestors| ==> k <= i;
      assert k < |ancestors| ==> i <= k;
    }

    /** For XBackends: reports whether anything changed, so that no-op writes are skipped. */
    method UpsertXBackendAncestor(r: Ref, c: Condition, now: int) returns (changed: bool)
      modifies this
      ensures ancestors == if changed then Upserted(old(ancestors), r, c, now) else old(ancestors)
      ensures changed <==> ancestors != old(ancestors)
      ensures !changed ==> Upserted(old(ancestors), r, c, now) == old(ancestors) || Repeats(old(ancestors), r, c, now)
    {
      var i := FindAncestor(r);
      if i < |ancestors| {
        var a := ancestors[i];
        var t := TransitionTimeLoop(a.conditions, c.kind, c.status, now);
        var stamped := c.(time := t);
        if AlreadySaid(a.conditions, stamped) {
          return false;
        }
        var cs := SetConditionLoop(a.conditions, stamped);
        NewContentShows(a.conditions, stamped);
        ancestors := ancestors[i := a.(conditions := cs)];
        assert ancestors[i] != old(ancestors)[i];
        return true;
      }
      if |ancestors| >= MAX_ANCESTORS {
        return false;
      }
      ancestors := ancestors + [Ancestor(r.name, r.ns, r.controller, SetCondition([], c))];
      changed := true;
    }

    method RemoveAncestor(r: Ref) returns (removed: bool)
      modifies this
      ensures ancestors == Removed(old(ancestors), r)
      ensures removed <==> ancestors != old(ancestors)
    {
      var i := FindAncestor(r);
      if i < |ancestors| {
        ancestors := ancestors[..i] + ancestors[i + 1..];
        return true;
      }
      removed := false;
    }
  }

  /** The entry already carries a condition of this type and content. */
  ghost predicate Repeats(ancestors: seq<Ancestor>, r: Ref, c: Condition, now: int) {
    var i := IndexOf(ancestors, r.ToKey());
    i < |ancestors| && AlreadySaid(ancestors[i].conditions, Stamp(ancestors[i].conditions, c, now))
  }

  /** A condition whose content no condition of its type has yet changes the list. */
  lemma {:induction false} NewContentShows(cs: seq<Condition>, c: Condition)
    requires !AlreadySaid(cs, c)
    ensures SetCondition(cs, c) != cs
  {
    if cs != [] {
      if cs[0].kind == c.kind {
        assert cs[0] in cs;
        assert ([c] + cs[1..])[0] == c;
      } else {
        assert forall e <- cs[1..] :: e in cs;
        NewContentShows(cs[1..], c);
        assert ([cs[0]] + SetCondition(cs[1..], c))[1..] == SetCondition(cs[1..], c);
      }
    }
  }

  /** With unique types a repeated condition is a no-op anyway, time included: skipping the write loses
      nothing. */
  lemma {:induction false} RepeatIsNoOp(cs: seq<Condition>, c: Condition, now: int)
    requires UniqueTypes(cs) && AlreadySaid(cs, Stamp(cs, c, now))
    ensures SetCondition(cs, Stamp(cs, c, now)) == cs
  {
    var s := Stamp(cs, c, now);
    var e :| e in cs && e.kind == s.kind && SameContent(e, s);
    var i :| 0 <= i < |cs| && cs[i] == e;
    FindAt(cs, i);
    TransitionTimeIs(cs, c.kind, c.status, now);
    SetExisting(cs, i);
  }

  lemma {:induction false} FindAt(cs: seq<Condition>, i: nat)
    requires UniqueTypes(cs) && i < |cs|
    ensures Find(cs, cs[i].kind) == Some(cs[i])
  {
    if i > 0 {
      assert UniqueTypes(cs[1..]);
      FindAt(cs[1..], i - 1);
      assert cs[0].kind != cs[i].kind;
    }
  }

  lemma {:induction false} SetExisting(cs: seq<Condition>, i: nat)
    requires UniqueTypes(cs) && i < |cs|
    ensures SetCondition(cs, cs[i]) == cs
  {
    assert cs == [cs[0]] + cs[1..];
    if i > 0 {
      assert UniqueTypes(cs[1..]);
      SetExisting(cs[1..], i - 1);
      assert cs[0].kind != cs[i].kind;
    }
  }

  // ----- Any run of upserts and removes -----

  datatype Edit = Upsert(r: Ref, c: Condition, now: int) | Remove(r: Ref)

  function Apply(ancestors: seq<Ancestor>, e: Edit): seq<Ancestor> {
    match e
    case Upsert(r, c, now) => Upserted(ancestors, r, c, now)
    case Remove(r) => Removed(ancestors, r)
  }

  function Run(ancestors: seq<Ancestor>, es: seq<Edit>): seq<Ancestor> {
    if es == [] then ancestors else Apply(Run(ancestors, es[..|es| - 1]), es[|es| - 1])
  }

  ghost predicate UniqueKeys(ancestors: seq<Ancestor>) {
    forall i, j :: 0 <= i < j < |ancestors| ==> KeyOf(ancestors[i]) != KeyOf(ancestors[j])
  }

  ghost predicate UniqueEverywhere(ancestors: seq<Ancestor>) {
    UniqueKeys(ancestors) && forall i :: 0 <= i < |ancestors| ==> UniqueTypes(ancestors[i].conditions)
  }

  function NotWrittenBy(controller: string): Ancestor -> bool {
    (a: Ancestor) => a.controller != controller
  }

  lemma ApplyKeepsUnique(ancestors: seq<Ancestor>, e: Edit)
    requires UniqueEverywhere(ancestors)
    ensures UniqueEverywhere(Apply(ancestors, e))
    ensures |Apply(ancestors, e)| <= (if |ancestors| < MAX_ANCESTORS then MAX_ANCESTORS else |ancestors|)
  {
    hide SetCondition, UniqueTypes;
    var i := IndexOf(ancestors, e.r.ToKey());
    if e.Upsert? {
      if i < |ancestors| {
        var a := ancestors[i];
        SetConditionMember(a.conditions, Stamp(a.conditions, e.c, e.now));
      } else {
        NewConditions(e.c);
      }
    }
  }

  lemma NewConditions(c: Condition)
    ensures UniqueTypes(SetCondition([], c))
  {
  }

  lemma {:induction false} FilterUpdate(s: seq<Ancestor>, i: nat, a: Ancestor, f: Ancestor -> bool)
    requires i < |s| && !f(s[i]) && !f(a)
    ensures Filter(s[i := a], f) == Filter(s, f)
    decreases |s|
  {
    var n := |s| - 1;
    if i == n {
      assert s[i := a][..n] == s[..n];
    } else {
      assert s[i := a][..n] == s[..n][i := a];
      FilterUpdate(s[..n], i, a, f);
    }
  }

  /** Entries of other controllers keep their value and their order. */
  lemma ApplySparesOthers(ancestors: seq<Ancestor>, e: Edit, controller: string)
    requires e.r.controller == controller
    ensures Filter(Apply(ancestors, e), NotWrittenBy(controller)) == Filter(ancestors, NotWrittenBy(controller))
  {
    hide SetCondition;
    var f := NotWrittenBy(controller);
    var i := IndexOf(ancestors, e.r.ToKey());
    if i < |ancestors| {
      assert !f(ancestors[i]);
      if e.Upsert? {
        var a := ancestors[i];
        FilterUpdate(ancestors, i, a.(conditions := SetCondition(a.conditions, Stamp(a.conditions, e.c, e.now))), f);
      } else {
        FilterStep(ancestors, i, f);
        FilterConcat(ancestors[..i], ancestors[i + 1..], f);
        FilterConcat(ancestors[..i + 1], ancestors[i + 1..], f);
        assert ancestors == ancestors[..i + 1] + ancestors[i + 1..];
      }
    } else if e.Upsert? && |ancestors| < MAX_ANCESTORS {
      var more := [Ancestor(e.r.name, e.r.ns, e.r.controller, SetCondition([], e.c))];
      FilterConcat(ancestors, more, f);
      FilterNothing(more, f);
    }
  }

  /** Over any run of edits by one controller: keys and condition types stay unique, the cap is never
      exceeded, and what other controllers wrote is untouched. */
  lemma {:induction false} RunIsSafe(ancestors: seq<Ancestor>, es: seq<Edit>, controller: string)
    requires UniqueEverywhere(ancestors) && |ancestors| <= MAX_ANCESTORS
    requires forall k :: 0 <= k < |es| ==> es[k].r.controller == controller
    ensures var end := Run(ancestors, es);
            && UniqueEverywhere(end) && |end| <= MAX_ANCESTORS
            && Filter(end, NotWrittenBy(controller)) == Filter(ancestors, NotWrittenBy(controller))
  {
    hide UniqueEverywhere, Apply, Filter;
    if es != [] {
      var front := es[..|es| - 1];
      RunIsSafe(ancestors, front, controller);
      ApplyKeepsUnique(Run(ancestors, front), es[|es| - 1]);
      ApplySparesOthers(Run(ancestors, front), es[|es| - 1], controller);
    }
  }

  /** The condition of a type in the entry with this key. */
  function Read(ancestors: seq<Ancestor>, k: Key, kind: string): Option<Condition> {
    var i := IndexOf(ancestors, k);
    if i < |ancestors| then Find(ancestors[i].conditions, kind) else None
  }

  /** What an upsert leaves behind: the new condition under its key, with the old time as long as the
      status has not moved; every other condition of every entry as it was; nothing at all when the
      entry is new and the list is full. */
  lemma UpsertReads(ancestors: seq<Ancestor>, r: Ref, c: Condition, now: int, k: Key, kind: string)
    requires UniqueEverywhere(ancestors)
    ensures var before, after := Read(ancestors, k, kind), Read(Upserted(ancestors, r, c, now), k, kind);
            var known := IndexOf(ancestors, r.ToKey()) < |ancestors|;
            if k != r.ToKey() || kind != c.kind || (!known && |ancestors| >= MAX_ANCESTORS) then after == before
            else if !known then after == Some(c)
            else
              var kept := before.Some? && before.value.status == c.status;
              after == Some(c.(time := if kept then before.value.time else now))
  {
    hide UniqueTypes;
    var i, j := IndexOf(ancestors, r.ToKey()), IndexOf(ancestors, k);
    var after := Upserted(ancestors, r, c, now);
    if i < |ancestors| {
      var a := ancestors[i];
      TransitionTimeIs(a.conditions, c.kind, c.status, now);
      SetConditionFind(a.conditions, Stamp(a.conditions, c, now), kind);
      SameKeys(ancestors, after, k);
    } else if |ancestors| < MAX_ANCESTORS {
      SetConditionFind([], c, kind);
      var l := IndexOf(after, k);
      assert after[..|ancestors|] == ancestors;
      if j < |ancestors| {
        assert KeyOf(after[j]) == k;
        assert l == j;
      } else if k == r.ToKey() {
        assert KeyOf(after[|ancestors|]) == k;
        assert l == |ancestors|;
      }
    }
  }

  lemma SameKeys(s: seq<Ancestor>, t: seq<Ancestor>, k: Key)
    requires |s| == |t| && forall i :: 0 <= i < |s| ==> KeyOf(s[i]) == KeyOf(t[i])
    ensures IndexOf(s, k) == IndexOf(t, k)
  {
  }

  /** The entry is the one a controller writes for a Gateway; no Namespace counts as the empty one. */
  predicate WrittenFor(a: Ancestor, r: Ref) {
    && a.name == r.name && a.controller == r.controller
    && (if a.ns.Some? then a.ns.value else "") == (if r.ns.Some? then r.ns.value else "")
  }

  /** Said on the entries: an upsert leaves every entry for another Gateway, Gateways of the same name in other
      Namespaces included, and every entry of another controller as and where it was; the Gateway's own entry then says
      the condition's status, reason and message, unless it is missing and the list already holds 16. */
  lemma UpsertLands(ancestors: seq<Ancestor>, r: Ref, c: Condition, now: int)
    ensures var after := Upserted(ancestors, r, c, now);
            && |ancestors| <= |after|
            && (forall j :: 0 <= j < |ancestors| && !WrittenFor(ancestors[j], r) ==> after[j] == ancestors[j])
            && ((|ancestors| < 16 || exists a <- ancestors :: WrittenFor(a, r)) ==>
                 exists a <- after :: WrittenFor(a, r) && Says(a.conditions, c))
            && (|ancestors| >= 16 && (forall a <- ancestors :: !WrittenFor(a, r)) ==> after == ancestors)
            && |after| <= (if |ancestors| < 16 then |ancestors| + 1 else |ancestors|)
  {
    hide SetCondition, Says;
    var i := IndexOf(ancestors, r.ToKey());
    var after := Upserted(ancestors, r, c, now);
    if i < |ancestors| {
      var a := ancestors[i];
      SetConditionSays(a.conditions, Stamp(a.conditions, c, now), c);
      assert WrittenFor(after[i], r) && Says(after[i].conditions, c);
    } else if |ancestors| < 16 {
      SetConditionSays([], c, c);
      assert WrittenFor(after[|ancestors|], r) && Says(after[|ancestors|].conditions, c);
    }
  }

  /** The first condition of the type says what `c` says. */
  predicate Says(cs: seq<Condition>, c: Condition) {
    var f := Find(cs, c.kind);
    f.Some? && f.value.status == c.status && f.value.reason == c.reason && f.value.message == c.message
    && f.value.generation == c.generation
  }

  lemma SetConditionSays(cs: seq<Condition>, s: Condition, c: Condition)
    requires s.kind == c.kind && SameContent(s, c)
    ensures Says(SetCondition(cs, s), c)
  {
    SetConditionFind(cs, s, c.kind);
  }

  /** A removed entry is gone, the others read as before. */
  lemma RemoveReads(ancestors: seq<Ancestor>, r: Ref, k: Key, kind: string)
    requires UniqueEverywhere(ancestors)
    ensures Read(Removed(ancestors, r), k, kind) == if k == r.ToKey() then None else Read(ancestors, k, kind)
  {
    hide UniqueTypes, Find, KeyOf;
    var i, j := IndexOf(ancestors, r.ToKey()), IndexOf(ancestors, k);
    if i < |ancestors| {
      if k == r.ToKey() {
        RemovedIsGone(ancestors, i);
      } else {
        RemovedKeepsOther(ancestors, i, k);
      }
    }
  }

  lemma RemovedIsGone(s: seq<Ancestor>, i: nat)
    requires UniqueKeys(s) && i < |s|
    ensures var after := s[..i] + s[i + 1..]; IndexOf(after, KeyOf(s[i])) == |after|
  {
    hide KeyOf;
    var after := s[..i] + s[i + 1..];
    assert forall m :: 0 <= m < |after| ==> after[m] == s[if m < i then m else m + 1];
  }

  lemma RemovedKeepsOther(s: seq<Ancestor>, i: nat, k: Key)
    requires i < |s| && KeyOf(s[i]) != k
    ensures var j, after := IndexOf(s, k), s[..i] + s[i + 1..];
            var l := IndexOf(after, k);
            (j < |s| <==> l < |after|) && (j < |s| ==> after[l] == s[j])
  {
    hide KeyOf;
    var j, after := IndexOf(s, k), s[..i] + s[i + 1..];
    var l := IndexOf(after, k);
    assert forall m :: 0 <= m < |after| ==> after[m] == s[if m < i then m else m + 1];
    if j < |s| {
      assert KeyOf(after[if j < i then j else j - 1]) == k;
    }
    if l < |after| {
      assert KeyOf(s[if l < i then l else l + 1]) == k;
    }
  }

  // ----- Route parents -----

  datatype Parent = Parent(name: string, ns: Option<string>, controller: string, conditions: seq<Condition>)

  predicate IsParent(p: Parent, gwName: string, gwNs: string, controller: string) {
    p.name == gwName && p.ns == Some(gwNs) && p.controller == controller
  }

  function ParentSet(ps: seq<Parent>, p: Parent, gwName: string, gwNs: string): seq<Parent> {
    if ps == [] then [p]
    else if IsParent(ps[0], gwName, gwNs, p.controller) then [p] + ps[1..]
    else [ps[0]] + ParentSet(ps[1..], p, gwName, gwNs)
  }

  lemma {:induction false} ParentSetAt(ps: seq<Parent>, p: Parent, gwName: string, gwNs: string, i: nat)
    requires i <= |ps| && forall j :: 0 <= j < i ==> !IsParent(ps[j], gwName, gwNs, p.controller)
    requires i < |ps| ==> IsParent(ps[i], gwName, gwNs, p.controller)
    ensures ParentSet(ps, p, gwName, gwNs) == if i < |ps| then ps[i := p] else ps + [p]
  {
    if i > 0 {
      ParentSetAt(ps[1..], p, gwName, gwNs, i - 1);
    }
  }

  method SetParentStatus(ps: seq<Parent>, p: Parent, gwName: string, gwNs: string) returns (r: seq<Parent>)
    ensures r == ParentSet(ps, p, gwName, gwNs)
  {
    for i := 0 to |ps|
      invariant forall j :: 0 <= j < i ==> !IsParent(ps[j], gwName, gwNs, p.controller)
    {
      if IsParent(ps[i], gwName, gwNs, p.controller) {
        ParentSetAt(ps, p, gwName, gwNs, i);
        return ps[i := p];
      }
    }
    ParentSetAt(ps, p, gwName, gwNs, |ps|);
    r := ps + [p];
  }

  /** Said on the entries: those of other Gateways, Gateways of the same name in other Namespaces included, and of other
      controllers stay as and where they are. */
  lemma {:induction false} ParentsKeepApart(ps: seq<Parent>, p: Parent, gwName: string, gwNs: string)
    ensures var r := ParentSet(ps, p, gwName, gwNs);
            && |ps| <= |r|
            && forall i | 0 <= i < |ps| :: r[i] == ps[i]
                 || (ps[i].name == gwName && ps[i].ns == Some(gwNs) && ps[i].controller == p.controller)
  {
    if ps != [] && !IsParent(ps[0], gwName, gwNs, p.controller) {
      ParentsKeepApart(ps[1..], p, gwName, gwNs);
      var r, t := ParentSet(ps, p, gwName, gwNs), ParentSet(ps[1..], p, gwName, gwNs);
      assert forall i :: 0 < i < |ps| ==> r[i] == t[i - 1] && ps[i] == ps[1..][i - 1];
    }
  }

  /** One Gateway's entry is written exactly once; every other parent keeps its value and its place. */
  lemma {:induction false} ParentSetMeaning(ps: seq<Parent>, p: Parent, gwName: string, gwNs: string)
    requires IsParent(p, gwName, gwNs, p.controller)
    requires forall i, j :: 0 <= i < j < |ps| && IsParent(ps[i], gwName, gwNs, p.controller) ==>
             !IsParent(ps[j], gwName, gwNs, p.controller)
    ensures var r := ParentSet(ps, p, gwName, gwNs);
            && |ps| <= |r| <= |ps| + 1
            && (exists i :: 0 <= i < |r| && r[i] == p)
            && (forall i :: 0 <= i < |r| && IsParent(r[i], gwName, gwNs, p.controller) ==> r[i] == p)
            && (forall i :: 0 <= i < |ps| && !IsParent(ps[i], gwName, gwNs, p.controller) ==> r[i] == ps[i])
            && (|r| == |ps| + 1 ==> r[|ps|] == p)
  {
    var r := ParentSet(ps, p, gwName, gwNs);
    if ps == [] {
      assert r[0] == p;
    } else if IsParent(ps[0], gwName, gwNs, p.controller) {
      assert r[0] == p;
      assert forall i :: 0 < i < |ps| ==> r[i] == ps[i];
    } else {
      ParentSetMeaning(ps[1..], p, gwName, gwNs);
      var t := ParentSet(ps[1..], p, gwName, gwNs);
      assert forall i :: 0 < i < |r| ==> r[i] == t[i - 1];
      var k :| 0 <= k < |t| && t[k] == p;
      assert r[k + 1] == p;
      assert forall i :: 0 < i < |ps| ==> ps[1..][i - 1] == ps[i];
    }
  }
}
