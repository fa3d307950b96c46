/** DNS records, one zone's record store, and the transactional batch endpoint. */
module DnsStore {
  import opened Text

  /** Lower case, surrounding space dropped, one trailing dot dropped. */
  function Normalize(name: string): string {
    ToLower(TrimSuffix(TrimSpace(name), "."))
  }

  /** Normalising twice is not always normalising once: "a.." shrinks on every pass. */
  lemma NormalizeNotIdempotent()
    ensures Normalize(Normalize("a..")) != Normalize("a..")
  {
    assert TrimSpace("a..") == "a..";
    assert TrimSuffix("a..", ".") == "a.";
    assert Normalize("a..") == "a.";
    assert TrimSpace("a.") == "a.";
    assert TrimSuffix("a.", ".") == "a";
  }

  lemma {:induction false} TrimSpaceEnds(s: string)
    ensures var t := TrimSpace(s); |t| <= |s| && (t != [] ==> !IsSpace(t[0]) && !IsSpace(t[|t| - 1]))
    ensures TrimSpace(s) == s <==> s == [] || (!IsSpace(s[0]) && !IsSpace(s[|s| - 1]))
    ensures s != [] && IsSpace(s[|s| - 1]) ==> |TrimSpace(s)| < |s|
  {
    if s != [] && IsSpace(s[0]) {
      TrimSpaceEnds(s[1..]);
    } else if s != [] && IsSpace(s[|s| - 1]) {
      TrimSpaceEnds(s[..|s| - 1]);
    }
  }

  lemma NormalizeShrinks(n: string)
    requires n != "" && !IsSpace(n[0])
    ensures var l := n[|n| - 1];
            if l == '.' || IsSpace(l) then |Normalize(n)| < |n| else Normalize(n) == ToLower(n)
  {
    TrimSpaceEnds(n);
    var l := n[|n| - 1];
    if !IsSpace(l) {
      assert TrimSpace(n) == n;
      assert n[|n| - 1..] == [l];
    }
  }

  /** Exactly when one pass is enough: nothing strippable is left behind the first stripped dot. */
  lemma NormalizeStableIff(name: string)
    ensures var t := TrimSuffix(TrimSpace(name), ".");
            Normalize(Normalize(name)) == Normalize(name) <==>
            t == "" || (t[|t| - 1] != '.' && !IsSpace(t[|t| - 1]))
  {
    hide TrimSpace;
    var t := TrimSuffix(TrimSpace(name), ".");
    TrimSpaceEnds(name);
    if t != "" {
      assert t[0] == TrimSpace(name)[0];
      NormalizeShrinks(ToLower(t));
      ToLowerIdempotent(t);
    } else {
      assert ToLower(t) == "";
      TrimSpaceEnds("");
    }
  }

  const TARGET_SUFFIX := ".cfargotunnel.com"

  /** The CNAME target is stable whatever the tunnel ID looks like. */
  lemma TargetStable(tunnelId: string)
    ensures Normalize(Normalize(tunnelId + TARGET_SUFFIX)) == Normalize(tunnelId + TARGET_SUFFIX)
  {
    var s := tunnelId + TARGET_SUFFIX;
    TrimSpaceKeepsEnd(s);
    var t := TrimSpace(s);
    assert t[|t| - 1] == 'm';
    assert TrimSuffix(t, ".") == t by { assert t[|t| - 1..] == [t[|t| - 1]]; }
    NormalizeStableIff(s);
  }

  lemma {:induction false} TrimSpaceKeepsEnd(s: string)
    requires s != [] && !IsSpace(s[|s| - 1])
    ensures TrimSpace(s) != [] && TrimSpace(s)[|TrimSpace(s)| - 1] == s[|s| - 1]
  {
    if IsSpace(s[0]) {
      TrimSpaceKeepsEnd(s[1..]);
    }
  }

  /** Said on the name: space around it, letter case and one trailing dot make no difference. */
  lemma NormalizeMeans(before: string, name: string, dot: string, after: string)
    requires (forall c <- before + after :: IsSpace(c)) && (dot == "" || dot == ".")
    requires name != "" && !IsSpace(name[0]) && !IsSpace(name[|name| - 1]) && (dot == "" ==> name[|name| - 1] != '.')
    ensures var n := Normalize(before + name + dot + after);
            && |n| == |name|
            && forall i :: 0 <= i < |name| ==>
                 n[i] == if 'A' <= name[i] <= 'Z' then name[i] - 'A' + 'a' else name[i]
  {
    TrimSpaceMiddle(before, name + dot, after);
    assert before + name + dot + after == before + (name + dot) + after;
    var t := name + dot;
    assert TrimSuffix(t, ".") == name by {
      assert t[|t| - 1..] == [t[|t| - 1]];
      assert t[..|t| - |dot|] == name;
    }
  }

  lemma {:induction false} TrimSpaceMiddle(before: string, t: string, after: string)
    requires (forall c <- before + after :: IsSpace(c)) && t != "" && !IsSpace(t[0]) && !IsSpace(t[|t| - 1])
    ensures TrimSpace(before + t + after) == t
    decreases |before| + |after|
  {
    var s := before + t + after;
    if before != "" {
      assert before[0] in before + after;
      assert s[1..] == before[1..] + t + after;
      assert forall c <- before[1..] + after :: c in before + after;
      TrimSpaceMiddle(before[1..], t, after);
    } else if after != "" {
      var n := |after| - 1;
      assert after[n] in before + after;
      assert s[0] == t[0] && s[|s| - 1] == after[n];
      assert s[..|s| - 1] == before + t + after[..n];
      assert forall c <- before + after[..n] :: c in before + after;
      TrimSpaceMiddle(before, t, after[..n]);
    } else {
      assert s == t;
    }
  }

  /** The target of an ordinary tunnel ID is a name under cfargotunnel.com. */
  lemma TargetMeans(tunnelId: string)
    requires tunnelId != "" && !IsSpace(tunnelId[0]) && forall c <- tunnelId :: !('A' <= c <= 'Z')
    ensures Normalize(tunnelId + TARGET_SUFFIX) == tunnelId + ".cfargotunnel.com"
  {
    hide Normalize;
    var s := tunnelId + TARGET_SUFFIX;
    assert s[0] == tunnelId[0] && s[|s| - 1] == 'm';
    NormalizeMeans("", s, "", "");
    assert "" + s + "" + "" == s;
    NoCapitals(TARGET_SUFFIX);
    forall i | 0 <= i < |s| ensures !('A' <= s[i] <= 'Z') {
      assert i < |tunnelId| ==> s[i] in tunnelId;
    }
    assert Normalize(s) == s;
  }

  lemma NoCapitals(suffix: string)
    requires suffix == ".cfargotunnel.com"
    ensures forall i :: 0 <= i < |suffix| ==> !('A' <= suffix[i] <= 'Z')
  {
  }

  /** A CNAME record. `id` is 0 until the API has assigned one. */
  datatype Record = Record(id: nat, name: string, content: string, proxied: bool, comment: string)

  datatype Changes = Changes(creates: seq<Record>, updates: seq<Record>, deletes: seq<Record>) {
    predicate Empty() {
      creates == [] && updates == [] && deletes == []
    }
  }

  datatype Op = Delete(r: Record) | Update(r: Record) | Create(r: Record)

  function Deletes(rs: seq<Record>): seq<Op> { seq(|rs|, i requires 0 <= i < |rs| => Delete(rs[i])) }
  function Updates(rs: seq<Record>): seq<Op> { seq(|rs|, i requires 0 <= i < |rs| => Update(rs[i])) }
  function Creates(rs: seq<Record>): seq<Op> { seq(|rs|, i requires 0 <= i < |rs| => Create(rs[i])) }

  /** The order in which the batch endpoint works a change set off. */
  function Ops(c: Changes): seq<Op> {
    Deletes(c.deletes) + Updates(c.updates) + Creates(c.creates)
  }

  /** One zone: its CNAME records by ID, the next ID the API will hand out, and the names at which records of other
      types stand in the way of a CNAME. */
  datatype Store = Store(records: map<nat, Record>, next: nat, blocked: set<string>)

  /** IDs are in step with the records, and at most one CNAME exists per DNS name, none beside other types. */
  ghost predicate WellFormed(s: Store) {
    && s.next > 0
    && (forall i <- s.records :: 0 < i < s.next && s.records[i].id == i)
    && (forall i <- s.records, j <- s.records ::
         Normalize(s.records[i].name) == Normalize(s.records[j].name) ==> i == j)
    && (forall i <- s.records :: Normalize(s.records[i].name) !in s.blocked)
  }

  predicate NameFree(s: Store, name: string, except: nat) {
    && Normalize(name) !in s.blocked
    && forall i <- s.records :: i != except ==> Normalize(s.records[i].name) != Normalize(name)
  }

  /** A patch without a comment leaves the stored comment alone. */
  function Patched(was: Record, r: Record): Record {
    r.(comment := if r.comment == "" then was.comment else r.comment)
  }

  /** One mutation; None when the API refuses it. */
  function ApplyOp(s: Store, op: Op): Option<Store> {
    match op
    case Delete(r) =>
      if r.id in s.records then Some(s.(records := s.records - {r.id})) else None
    case Update(r) =>
      if r.id in s.records && NameFree(s, r.name, r.id)
      then Some(s.(records := s.records[r.id := Patched(s.records[r.id], r)])) else None
    case Create(r) =>
      if NameFree(s, r.name, 0)
      then Some(s.(records := s.records[s.next := r.(id := s.next)], next := s.next + 1)) else None
  }

  /** A batch: every mutation in turn, or none of them. */
  function ApplyOps(s: Store, ops: seq<Op>): Option<Store> {
    if ops == [] then Some(s)
    else match ApplyOps(s, ops[..|ops| - 1])
         case None => None
         case Some(t) => ApplyOp(t, ops[|ops| - 1])
  }

  /** Applying two batches one after the other is applying their concatenation at once. */
  lemma {:induction false} ApplyConcat(s: Store, a: seq<Op>, b: seq<Op>)
    ensures ApplyOps(s, a + b) ==
            match ApplyOps(s, a) case None => None case Some(t) => ApplyOps(t, b)
    decreases |b|
  {
    if b == [] {
      assert a + b == a;
    } else {
      ApplyConcat(s, a, b[..|b| - 1]);
      assert (a + b)[..|a + b| - 1] == a + b[..|b| - 1];
    }
  }

  /** Uniqueness of names and IDs is inductive over every batch that is accepted at all. */
  lemma {:induction false} ApplyKeepsWellFormed(s: Store, ops: seq<Op>)
    requires WellFormed(s) && ApplyOps(s, ops).Some?
    ensures WellFormed(ApplyOps(s, ops).value) && ApplyOps(s, ops).value.blocked == s.blocked
  {
    hide Normalize;
    if ops != [] {
      ApplyKeepsWellFormed(s, ops[..|ops| - 1]);
    }
  }

  /** An accepted batch writes no blocked name. */
  lemma {:induction false} AcceptedAvoidsBlocked(s: Store, ops: seq<Op>)
    requires ApplyOps(s, ops).Some?
    ensures ApplyOps(s, ops).value.blocked == s.blocked
    ensures forall k :: 0 <= k < |ops| && !ops[k].Delete? ==> Normalize(ops[k].r.name) !in s.blocked
  {
    hide Normalize;
    if ops != [] {
      AcceptedAvoidsBlocked(s, ops[..|ops| - 1]);
    }
  }

  /** The mutation put the record there, up to ID and comment. */
  predicate Writes(op: Op, r: Record) {
    !op.Delete? && r.name == op.r.name && r.content == op.r.content && r.proxied == op.r.proxied
  }

  /** After a batch a record is one that was there before or one the batch wrote. */
  lemma {:induction false} KeptOrWritten(s: Store, ops: seq<Op>)
    requires ApplyOps(s, ops).Some?
    ensures var t := ApplyOps(s, ops).value;
            forall i <- t.records ::
              (i in s.records && t.records[i] == s.records[i]) || exists op <- ops :: Writes(op, t.records[i])
  {
    hide NameFree;
    if ops != [] {
      var before, last := ops[..|ops| - 1], ops[|ops| - 1];
      assert ops == before + [last] && last in ops;
      KeptOrWritten(s, before);
      var t, u := ApplyOps(s, before).value, ApplyOps(s, ops).value;
      forall i | i in u.records
        ensures (i in s.records && u.records[i] == s.records[i]) || exists op <- ops :: Writes(op, u.records[i])
      {
        if !(i in t.records && u.records[i] == t.records[i]) {
          assert Writes(last, u.records[i]);
        }
      }
    }
  }

  // ----- Chunking -----

  function Flatten(chunks: seq<Changes>): seq<Op> {
    if chunks == [] then [] else Ops(chunks[0]) + Flatten(chunks[1..])
  }

  /** What splitting must mean: the same mutations in the same order, no chunk empty or over size,
      and every chunk but the last exactly full. */
  ghost predicate IsChunking(chunks: seq<Changes>, changes: Changes, size: nat) {
    && Flatten(chunks) == Ops(changes)
    && WellSized(chunks, size)
  }

  ghost predicate WellSized(chunks: seq<Changes>, size: nat) {
    && (forall k :: 0 <= k < |chunks| ==> 0 < |Ops(chunks[k])| <= size)
    && (forall k :: 0 <= k < |chunks| - 1 ==> |Ops(chunks[k])| == size)
  }

  lemma {:induction false} FlattenPush(chunks: seq<Changes>, c: Changes)
    ensures Flatten(chunks + [c]) == Flatten(chunks) + Ops(c)
  {
    hide Ops;
    if chunks == [] {
      assert [c][1..] == [];
    } else {
      FlattenPush(chunks[1..], c);
      assert (chunks + [c])[1..] == chunks[1..] + [c];
    }
  }

  /** A change set is recovered from its ordered mutations. */
  lemma OpsInjective(a: Changes, b: Changes)
    requires Ops(a) == Ops(b)
    ensures a == b
  {
    hide Ops, Deletes, Updates, Creates;
    SameShape(a, b);
    OpsParts(a);
    OpsParts(b);
    PartsInjective(a.deletes, b.deletes);
    PartsInjective(a.updates, b.updates);
    PartsInjective(a.creates, b.creates);
  }

  lemma OpsParts(c: Changes)
    ensures var o, d, u := Ops(c), |c.deletes|, |c.updates|;
            && |o| == d + u + |c.creates|
            && o[..d] == Deletes(c.deletes) && o[d..d + u] == Updates(c.updates) && o[d + u..] == Creates(c.creates)
  {
  }

  lemma PartsInjective(a: seq<Record>, b: seq<Record>)
    requires |a| == |b| && (Deletes(a) == Deletes(b) || Updates(a) == Updates(b) || Creates(a) == Creates(b))
    ensures a == b
  {
    forall k | 0 <= k < |a| ensures a[k] == b[k] {
      assert Deletes(a)[k].r == a[k] && Updates(a)[k].r == a[k] && Creates(a)[k].r == a[k];
      assert Deletes(b)[k].r == b[k] && Updates(b)[k].r == b[k] && Creates(b)[k].r == b[k];
    }
  }

  lemma SameShape(a: Changes, b: Changes)
    requires Ops(a) == Ops(b)
    ensures |a.deletes| == |b.deletes| && |a.updates| == |b.updates| && |a.creates| == |b.creates|
  {
    var o := Ops(a);
    var da, ua, db, ub := |a.deletes|, |a.updates|, |b.deletes|, |b.updates|;
    assert forall k :: 0 <= k < |o| ==> (o[k].Delete? <==> k < da) && (o[k].Create? <==> k >= da + ua);
    assert forall k :: 0 <= k < |o| ==> (o[k].Delete? <==> k < db) && (o[k].Create? <==> k >= db + ub);
    assert (da < |o| ==> !o[da].Delete?) && (db < |o| ==> !o[db].Delete?);
    assert (da + ua < |o| ==> o[da + ua].Create?) && (db + ub < |o| ==> o[db + ub].Create?);
  }

  /** The requirements leave no freedom: a change set has one chunking only. */
  lemma {:induction false} ChunkingUnique(a: seq<Changes>, b: seq<Changes>, size: nat)
    requires size > 0 && Flatten(a) == Flatten(b)
    requires WellSized(a, size) && WellSized(b, size)
    ensures a == b
  {
    hide Ops;
    FirstChunk(a, size);
    FirstChunk(b, size);
    if a != [] {
      OpsInjective(a[0], b[0]);
      assert Flatten(a[1..]) == Flatten(a)[|Ops(a[0])|..] == Flatten(b[1..]);
      ChunkingUnique(a[1..], b[1..], size);
      assert a == [a[0]] + a[1..] && b == [b[0]] + b[1..];
    }
  }

  lemma FirstChunk(a: seq<Changes>, size: nat)
    requires size > 0 && WellSized(a, size)
    ensures a == [] <==> Flatten(a) == []
    ensures a != [] ==> var n := |Flatten(a)|; Ops(a[0]) == Flatten(a)[..if n < size then n else size]
  {
  }

  /** One batch after the other. */
  function ApplyChunks(s: Store, chunks: seq<Changes>): Option<Store>
    decreases |chunks|
  {
    if chunks == [] then Some(s)
    else match ApplyOps(s, Ops(chunks[0]))
         case None => None
         case Some(t) => ApplyChunks(t, chunks[1..])
  }

  /** Applying the chunks one by one is applying the change set at once. */
  lemma {:induction false} ChunksApplyAsWhole(s: Store, chunks: seq<Changes>)
    ensures ApplyChunks(s, chunks) == ApplyOps(s, Flatten(chunks))
    decreases |chunks|
  {
    hide Ops, ApplyOp;
    if chunks != [] {
      ApplyConcat(s, Ops(chunks[0]), Flatten(chunks[1..]));
      var t := ApplyOps(s, Ops(chunks[0]));
      if t.Some? {
        ChunksApplyAsWhole(t.value, chunks[1..]);
      }
    }
  }

  /** Splits a change set for the batch endpoint; a non-positive size means one chunk. */
  method ChunkDnsChanges(changes: Changes, size: int) returns (out: seq<Changes>)
    ensures size > 0 ==> IsChunking(out, changes, size)
    ensures size <= 0 ==> out == [changes]
  {
    if size <= 0 {
      return [changes];
    }
    out := [];
    var cur, n := Changes([], [], []), 0;
    assert Flatten(out) + Ops(cur) == Ops(Changes([], [], changes.deletes[..0])) && FullChunks(out, size);
    hide Flatten, Ops, FullChunks;
    for i := 0 to |changes.deletes|
      invariant Flatten(out) + Ops(cur) == Ops(Changes([], [], changes.deletes[..i]))
      invariant cur.updates == [] && cur.creates == []
      invariant n == |Ops(cur)| < size && FullChunks(out, size)
    {
      var r := changes.deletes[i];
      PushDelete(cur, r);
      PushDelete(Changes([], [], changes.deletes[..i]), r);
      assert changes.deletes[..i + 1] == changes.deletes[..i] + [r];
      out, cur, n := FlushIfFull(out, cur, cur.(deletes := cur.deletes + [r]), n + 1, size, Delete(r));
    }
    assert changes.deletes[..|changes.deletes|] == changes.deletes;
    for i := 0 to |changes.updates|
      invariant Flatten(out) + Ops(cur) == Ops(Changes([], changes.updates[..i], changes.deletes))
      invariant cur.creates == []
      invariant n == |Ops(cur)| < size && FullChunks(out, size)
    {
      var r := changes.updates[i];
      PushUpdate(cur, r);
      PushUpdate(Changes([], changes.updates[..i], changes.deletes), r);
      assert changes.updates[..i + 1] == changes.updates[..i] + [r];
      out, cur, n := FlushIfFull(out, cur, cur.(updates := cur.updates + [r]), n + 1, size, Update(r));
    }
    assert changes.updates[..|changes.updates|] == changes.updates;
    for i := 0 to |changes.creates|
      invariant Flatten(out) + Ops(cur) == Ops(Changes(changes.creates[..i], changes.updates, changes.deletes))
      invariant n == |Ops(cur)| < size && FullChunks(out, size)
    {
      var r := changes.creates[i];
      PushCreate(cur, r);
      PushCreate(Changes(changes.creates[..i], changes.updates, changes.deletes), r);
      assert changes.creates[..i + 1] == changes.creates[..i] + [r];
      out, cur, n := FlushIfFull(out, cur, cur.(creates := cur.creates + [r]), n + 1, size, Create(r));
    }
    assert changes.creates[..|changes.creates|] == changes.creates;
    LastChunk(out, cur, changes, size);
    if !cur.Empty() {
      out := out + [cur];
    }
  }

  /** Full chunks and a shorter last one, left out when empty, make a chunking. */
  lemma LastChunk(out: seq<Changes>, cur: Changes, changes: Changes, size: nat)
    requires FullChunks(out, size) && |Ops(cur)| < size
    requires Flatten(out) + Ops(cur) == Ops(changes)
    ensures IsChunking(if cur.Empty() then out else out + [cur], changes, size)
  {
    hide IsChunking, Ops, Flatten, FullChunks;
    if cur.Empty() {
      NothingPending(out, cur, changes, size);
    } else {
      SomePending(out, cur, changes, size);
    }
  }

  lemma NothingPending(out: seq<Changes>, cur: Changes, changes: Changes, size: nat)
    requires FullChunks(out, size) && size > 0 && cur.Empty()
    requires Flatten(out) + Ops(cur) == Ops(changes)
    ensures IsChunking(out, changes, size)
  {
    hide Ops, Flatten;
    EmptyIff(cur);
  }

  lemma SomePending(out: seq<Changes>, cur: Changes, changes: Changes, size: nat)
    requires FullChunks(out, size) && |Ops(cur)| < size && !cur.Empty()
    requires Flatten(out) + Ops(cur) == Ops(changes)
    ensures IsChunking(out + [cur], changes, size)
  {
    hide Ops, Flatten;
    EmptyIff(cur);
    FlattenPush(out, cur);
  }

  lemma EmptyIff(c: Changes)
    ensures c.Empty() <==> Ops(c) == []
  {
  }

  ghost predicate FullChunks(out: seq<Changes>, size: nat) {
    forall k :: 0 <= k < |out| ==> |Ops(out[k])| == size
  }

  /** The flush closure after one mutation was added to the pending chunk: once that is full it
      moves to the output. */
  method FlushIfFull(out: seq<Changes>, ghost was: Changes, cur: Changes, n: nat, size: nat, ghost op: Op)
    returns (out': seq<Changes>, cur': Changes, n': nat)
    requires Ops(cur) == Ops(was) + [op]
    requires size > 0 && n == |Ops(cur)| <= size && FullChunks(out, size)
    ensures Flatten(out') + Ops(cur') == Flatten(out) + Ops(was) + [op]
    ensures n' == |Ops(cur')| < size && FullChunks(out', size)
    ensures cur' == if n >= size then Changes([], [], []) else cur
  {
    out', cur', n' := out, cur, n;
    assert Flatten(out) + (Ops(was) + [op]) == Flatten(out) + Ops(was) + [op];
    if n >= size {
      FlattenPush(out, cur);
      out', cur', n' := out + [cur], Changes([], [], []), 0;
    }
  }

  lemma PushDelete(c: Changes, r: Record)
    requires c.updates == [] && c.creates == []
    ensures Ops(c.(deletes := c.deletes + [r])) == Ops(c) + [Delete(r)]
  {
  }

  lemma PushUpdate(c: Changes, r: Record)
    requires c.creates == []
    ensures Ops(c.(updates := c.updates + [r])) == Ops(c) + [Update(r)]
  {
  }

  lemma PushCreate(c: Changes, r: Record)
    ensures Ops(c.(creates := c.creates + [r])) == Ops(c) + [Create(r)]
  {
  }
}
