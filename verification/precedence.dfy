/** Gateway API match precedence, the stable sort by it, and first-match evaluation. */
module Precedence {
  import opened Text

  /** None < Regex < Prefix < Exact. */
  datatype PathKind = PathNone | PathRegex | PathPrefix | PathExact {
    function Rank(): nat {
      match this case PathNone => 0 case PathRegex => 1 case PathPrefix => 2 case PathExact => 3
    }
  }

  datatype Specificity = Specificity(
    hostnameExact: bool, hostnameLen: nat, pathKind: PathKind, prefixLen: nat,
    methodMatch: bool, headerCount: nat, queryCount: nat)

  /** A built rule: what is pushed, where it came from, how specific its match is. */
  datatype Rule<+S> = Rule(
    hostname: string, path: string, service: S,
    routeKind: string, routeNs: string, routeName: string, created: int, ruleIndex: nat,
    specificity: Specificity, unsupported: bool)

  predicate MorePrecedent<S>(a: Rule<S>, b: Rule<S>) {
    var x, y := a.specificity, b.specificity;
    if x.hostnameExact != y.hostnameExact then x.hostnameExact
    else if x.hostnameLen != y.hostnameLen then x.hostnameLen > y.hostnameLen
    else if x.pathKind != y.pathKind then x.pathKind.Rank() > y.pathKind.Rank()
    else if x.prefixLen != y.prefixLen then x.prefixLen > y.prefixLen
    else if x.methodMatch != y.methodMatch then x.methodMatch
    else if x.headerCount != y.headerCount then x.headerCount > y.headerCount
    else if x.queryCount != y.queryCount then x.queryCount > y.queryCount
    else if a.created != b.created then a.created < b.created
    else if a.routeNs != b.routeNs then Less(a.routeNs, b.routeNs)
    else if a.routeName != b.routeName then Less(a.routeName, b.routeName)
    else a.ruleIndex < b.ruleIndex
  }

  datatype Order = Before | Same | After

  function Flag(a: bool, b: bool): Order { if a == b then Same else if a then Before else After }
  function Larger(a: int, b: int): Order { if a == b then Same else if a > b then Before else After }
  function Alphabetical(a: string, b: string): Order { if a == b then Same else if Less(a, b) then Before else After }

  /** The Gateway API's list of tie-breakers, each judged on its own. */
  function TieBreakers<S>(a: Rule<S>, b: Rule<S>): seq<Order> {
    var x, y := a.specificity, b.specificity;
    [ Flag(x.hostnameExact, y.hostnameExact), Larger(x.hostnameLen, y.hostnameLen),
      Larger(x.pathKind.Rank(), y.pathKind.Rank()), Larger(x.prefixLen, y.prefixLen),
      Flag(x.methodMatch, y.methodMatch), Larger(x.headerCount, y.headerCount), Larger(x.queryCount, y.queryCount),
      Larger(b.created, a.created), Alphabetical(a.routeNs, b.routeNs), Alphabetical(a.routeName, b.routeName),
      Larger(b.ruleIndex, a.ruleIndex) ]
  }

  /** The first tie-breaker that tells two rules apart decides, and only that one. */
  lemma FirstTieBreakerDecides<S>(a: Rule<S>, b: Rule<S>)
    ensures MorePrecedent(a, b) <==>
            exists i :: 0 <= i < 11 && TieBreakers(a, b)[i] == Before &&
              forall j :: 0 <= j < i ==> TieBreakers(a, b)[j] == Same
  {
    hide Less;
    var t, x, y := TieBreakers(a, b), a.specificity, b.specificity;
    assert t[2] == Same <==> x.pathKind == y.pathKind;
    if x.hostnameExact != y.hostnameExact { Decisive(t, 0); }
    else if x.hostnameLen != y.hostnameLen { Decisive(t, 1); }
    else if x.pathKind != y.pathKind { Decisive(t, 2); }
    else if x.prefixLen != y.prefixLen { Decisive(t, 3); }
    else if x.methodMatch != y.methodMatch { Decisive(t, 4); }
    else { LaterTieBreakerDecides(a, b); }
  }

  lemma LaterTieBreakerDecides<S>(a: Rule<S>, b: Rule<S>)
    requires forall i :: 0 <= i < 5 ==> TieBreakers(a, b)[i] == Same
    ensures MorePrecedent(a, b) <==>
            exists i :: 0 <= i < 11 && TieBreakers(a, b)[i] == Before &&
              forall j :: 0 <= j < i ==> TieBreakers(a, b)[j] == Same
  {
    hide Less;
    var t, x, y := TieBreakers(a, b), a.specificity, b.specificity;
    assert t[0] == t[1] == t[2] == t[3] == t[4] == Same;
    if x.headerCount != y.headerCount { Decisive(t, 5); }
    else if x.queryCount != y.queryCount { Decisive(t, 6); }
    else if a.created != b.created { Decisive(t, 7); }
    else if a.routeNs != b.routeNs { Decisive(t, 8); }
    else if a.routeName != b.routeName { Decisive(t, 9); }
    else if a.ruleIndex != b.ruleIndex { Decisive(t, 10); }
  }

  /** Tie-breaker `k` is the first that is not a tie. */
  lemma Decisive(t: seq<Order>, k: nat)
    requires k < |t| && t[k] != Same && forall j :: 0 <= j < k ==> t[j] == Same
    ensures t[k] == Before <==>
            exists i :: 0 <= i < |t| && t[i] == Before && forall j :: 0 <= j < i ==> t[j] == Same
  {
  }

  /** What the list of tie-breakers calls alphabetical order by "{namespace}/{name}". */
  function FullName(ns: string, name: string): string {
    ns + "/" + name
  }

  /** The shorter string ends where the longer goes on with a character below the slash, such as a dash. */
  predicate EndsBelowSlash(s: string, t: string) {
    |s| < |t| && s == t[..|s|] && t[|s|] < '/'
  }

  /** Comparing Namespaces before names is that order exactly unless one Namespace continues the other with such a
      character. */
  lemma {:induction false} NamespaceFirstIff(s: string, m: string, t: string, n: string)
    requires '/' !in s && '/' !in t && s != t
    ensures (Less(s, t) <==> Less(FullName(s, m), FullName(t, n))) <==> !EndsBelowSlash(s, t) && !EndsBelowSlash(t, s)
  {
    if s != "" && t != "" && s[0] == t[0] {
      var u, v := s[1..], t[1..];
      assert s == [s[0]] + u && t == [t[0]] + v;
      NamespaceFirstIff(u, m, v, n);
      assert FullName(s, m) == [s[0]] + FullName(u, m) && FullName(t, n) == [t[0]] + FullName(v, n);
      assert EndsBelowSlash(s, t) <==> EndsBelowSlash(u, v);
      assert EndsBelowSlash(t, s) <==> EndsBelowSlash(v, u);
    } else if s == "" {
      assert FullName(s, m)[0] == '/' && FullName(t, n)[0] == t[0] && t[0] in t;
    } else if t == "" {
      assert FullName(t, n)[0] == '/' && FullName(s, m)[0] == s[0] && s[0] in s;
    } else {
      assert FullName(s, m)[0] == s[0] && FullName(t, n)[0] == t[0];
    }
  }

  /** Within one Namespace the two orders are the same. */
  lemma {:induction false} SameNamespaceOrder(ns: string, m: string, n: string)
    ensures Less(FullName(ns, m), FullName(ns, n)) <==> Less(m, n)
  {
    if ns == "" {
      assert FullName(ns, m)[1..] == m && FullName(ns, n)[1..] == n;
    } else {
      SameNamespaceOrder(ns[1..], m, n);
      assert FullName(ns, m)[1..] == FullName(ns[1..], m) && FullName(ns, n)[1..] == FullName(ns[1..], n);
    }
  }

  /** An instance: of two equally old routes in the Namespaces "a" and "a-b" the first one precedes, although
      "a-b/..." comes before "a/..." in the alphabet. */
  lemma DashedNamespaceComesLater<S>(a: Rule<S>, b: Rule<S>)
    requires a.specificity == b.specificity && a.created == b.created && a.routeNs == "a" && b.routeNs == "a-b"
    ensures MorePrecedent(a, b) && Less(FullName(b.routeNs, b.routeName), FullName(a.routeNs, a.routeName))
  {
    assert "a-b"[1..] == "-b" && "a"[1..] == "";
    assert Less("a", "a-b");
    NamespaceFirstIff("a-b", b.routeName, "a", a.routeName);
    assert "a-b"[..1] == "a";
  }

  /** The eleven keys agree. */
  predicate Tied<S>(a: Rule<S>, b: Rule<S>) {
    && a.specificity == b.specificity && a.created == b.created
    && a.routeNs == b.routeNs && a.routeName == b.routeName && a.ruleIndex == b.ruleIndex
  }

  lemma Trichotomy<S>(a: Rule<S>, b: Rule<S>)
    ensures Tied(a, b) <==> !MorePrecedent(a, b) && !MorePrecedent(b, a)
    ensures !(MorePrecedent(a, b) && MorePrecedent(b, a))
  {
    LessTotal(a.routeNs, b.routeNs);
    LessTotal(a.routeName, b.routeName);
    LessAsymmetric(a.routeNs, b.routeNs);
    LessAsymmetric(a.routeName, b.routeName);
  }

  lemma Transitive<S>(a: Rule<S>, b: Rule<S>, c: Rule<S>)
    requires MorePrecedent(a, b) && MorePrecedent(b, c)
    ensures MorePrecedent(a, c)
  {
    hide Less;
    LessAsymmetric(a.routeNs, b.routeNs);
    LessAsymmetric(a.routeName, b.routeName);
    if Less(a.routeNs, b.routeNs) && Less(b.routeNs, c.routeNs) {
      LessTransitive(a.routeNs, b.routeNs, c.routeNs);
    }
    if Less(a.routeName, b.routeName) && Less(b.routeName, c.routeName) {
      LessTransitive(a.routeName, b.routeName, c.routeName);
    }
    LessAsymmetric(a.routeNs, c.routeNs);
    LessAsymmetric(a.routeName, c.routeName);
    LessAsymmetric(b.routeNs, c.routeNs);
    LessAsymmetric(b.routeName, c.routeName);
  }

  /** Not being beaten is transitive: with Trichotomy and Transitive, a strict weak order. */
  lemma UnbeatenTransitive<S>(a: Rule<S>, b: Rule<S>, c: Rule<S>)
    requires !MorePrecedent(b, a) && !MorePrecedent(c, b)
    ensures !MorePrecedent(c, a)
  {
    hide MorePrecedent;
    Trichotomy(a, b);
    Trichotomy(b, c);
    Trichotomy(a, c);
    if MorePrecedent(c, a) {
      if MorePrecedent(a, b) {
        Transitive(c, a, b);
      } else {
        TiedBeats(a, b, c);
      }
    }
  }

  lemma TiedBeats<S>(a: Rule<S>, b: Rule<S>, c: Rule<S>)
    requires Tied(a, b)
    ensures MorePrecedent(c, a) <==> MorePrecedent(c, b)
  {
  }

  // ----- Stable sorting -----

  ghost predicate Sorted<S>(s: seq<Rule<S>>) {
    forall i, j :: 0 <= i < j < |s| ==> !MorePrecedent(s[j], s[i])
  }

  /** Puts `x` behind everything it does not beat. */
  function Insert<S>(t: seq<Rule<S>>, x: Rule<S>): seq<Rule<S>> {
    if t == [] || !MorePrecedent(x, t[|t| - 1]) then t + [x]
    else Insert(t[..|t| - 1], x) + [t[|t| - 1]]
  }

  function StableSort<S>(s: seq<Rule<S>>): seq<Rule<S>> {
    if s == [] then [] else Insert(StableSort(s[..|s| - 1]), s[|s| - 1])
  }

  lemma {:induction false} InsertMember<S>(t: seq<Rule<S>>, x: Rule<S>, k: nat)
    ensures |Insert(t, x)| == |t| + 1
    ensures k <= |t| ==> Insert(t, x)[k] == x || exists l :: 0 <= l < |t| && t[l] == Insert(t, x)[k]
  {
    hide MorePrecedent;
    if t != [] && MorePrecedent(x, t[|t| - 1]) {
      var front := t[..|t| - 1];
      InsertMember(front, x, k);
      if k < |t| && Insert(front, x)[k] != x {
        var l :| 0 <= l < |front| && front[l] == Insert(front, x)[k];
        assert t[l] == Insert(t, x)[k];
      } else if k == |t| {
        assert t[|t| - 1] == Insert(t, x)[k];
      }
    } else if k < |t| {
      assert t[k] == Insert(t, x)[k];
    }
  }

  lemma {:induction false} InsertPermutes<S>(t: seq<Rule<S>>, x: Rule<S>)
    ensures |Insert(t, x)| == |t| + 1 && multiset(Insert(t, x)) == multiset(t) + multiset{x}
  {
    hide MorePrecedent;
    if t != [] {
      InsertPermutes(t[..|t| - 1], x);
      assert t == t[..|t| - 1] + [t[|t| - 1]];
    }
  }

  lemma {:induction false} InsertFacts<S>(t: seq<Rule<S>>, x: Rule<S>)
    ensures |Insert(t, x)| == |t| + 1 && multiset(Insert(t, x)) == multiset(t) + multiset{x}
    ensures Sorted(t) ==> Sorted(Insert(t, x))
  {
    hide MorePrecedent;
    InsertPermutes(t, x);
    if t != [] {
      var front, last := t[..|t| - 1], t[|t| - 1];
      if MorePrecedent(x, last) {
        InsertFacts(front, x);
        var u := Insert(front, x);
        if Sorted(t) {
          Trichotomy(x, last);
          forall k | 0 <= k < |u| ensures !MorePrecedent(last, u[k]) {
            InsertMember(front, x, k);
            if u[k] != x {
              var l :| 0 <= l < |front| && front[l] == u[k];
              assert !MorePrecedent(t[|t| - 1], t[l]);
            }
          }
        }
      } else if Sorted(t) {
        forall i | 0 <= i < |t| ensures !MorePrecedent(x, t[i]) {
          if i < |t| - 1 {
            UnbeatenTransitive(t[i], last, x);
          }
        }
      }
    }
  }

  lemma {:induction false} SortFacts<S>(s: seq<Rule<S>>)
    ensures Sorted(StableSort(s)) && multiset(StableSort(s)) == multiset(s) && |StableSort(s)| == |s|
  {
    hide MorePrecedent;
    if s != [] {
      SortFacts(s[..|s| - 1]);
      InsertFacts(StableSort(s[..|s| - 1]), s[|s| - 1]);
      assert s == s[..|s| - 1] + [s[|s| - 1]];
    }
  }

  /** The rules tied with `r`, in order. */
  function TiedWith<S>(s: seq<Rule<S>>, r: Rule<S>): seq<Rule<S>> {
    if s == [] then []
    else TiedWith(s[..|s| - 1], r) + (if Tied(s[|s| - 1], r) then [s[|s| - 1]] else [])
  }

  lemma {:induction false} InsertKeepsTies<S>(t: seq<Rule<S>>, x: Rule<S>, r: Rule<S>)
    ensures TiedWith(Insert(t, x), r) == TiedWith(t, r) + (if Tied(x, r) then [x] else [])
  {
    hide MorePrecedent;
    if t == [] || !MorePrecedent(x, t[|t| - 1]) {
      assert (t + [x])[..|t|] == t;
    } else {
      var front, last := t[..|t| - 1], t[|t| - 1];
      InsertKeepsTies(front, x, r);
      Trichotomy(x, last);
      var u := Insert(front, x) + [last];
      assert u[..|u| - 1] == Insert(front, x);
      assert !(Tied(x, r) && Tied(last, r));
    }
  }

  /** Ties keep their build order. */
  lemma {:induction false} SortIsStable<S>(s: seq<Rule<S>>, r: Rule<S>)
    ensures TiedWith(StableSort(s), r) == TiedWith(s, r)
  {
    hide MorePrecedent;
    if s != [] {
      SortIsStable(s[..|s| - 1], r);
      InsertKeepsTies(StableSort(s[..|s| - 1]), s[|s| - 1], r);
    }
  }

  lemma {:induction false} TiedWithFront<S>(s: seq<Rule<S>>, r: Rule<S>)
    requires s != []
    ensures TiedWith(s, r) == (if Tied(s[0], r) then [s[0]] else []) + TiedWith(s[1..], r)
  {
    if |s| > 1 {
      TiedWithFront(s[..|s| - 1], r);
      assert s[..|s| - 1][1..] == s[1..][..|s| - 2];
    } else {
      assert s[..0] == [] && s[1..] == [];
    }
  }

  lemma {:induction false} TiedWithMember<S>(s: seq<Rule<S>>, r: Rule<S>)
    ensures forall y :: y in TiedWith(s, r) <==> y in s && Tied(y, r)
  {
    if s != [] {
      TiedWithMember(s[..|s| - 1], r);
      assert s == s[..|s| - 1] + [s[|s| - 1]];
    }
  }

  /** Sorted and stable determines the result: any stable sort of the same rules, Go's included,
      produces the same list. */
  lemma {:induction false} StableSortUnique<S>(t: seq<Rule<S>>, u: seq<Rule<S>>)
    requires Sorted(t) && Sorted(u)
    requires forall r :: TiedWith(t, r) == TiedWith(u, r)
    ensures t == u
    decreases |t|
  {
    hide MorePrecedent, Tied;
    if t == [] {
      if u != [] {
        HeadTie(u);
        assert false;
      }
    } else {
      HeadTie(t);
      assert TiedWith(u, t[0])[0] == t[0];
      TiedWithMember(u, t[0]);
      assert t[0] in u;
      HeadTie(u);
      assert TiedWith(t, u[0])[0] == u[0];
      TiedWithMember(t, u[0]);
      assert u[0] in t;
      HeadsTied(t, u);
      assert t[0] == u[0];
      forall r ensures TiedWith(t[1..], r) == TiedWith(u[1..], r) {
        TiedWithFront(t, r);
        TiedWithFront(u, r);
        assert TiedWith(t, r) == TiedWith(u, r);
        var pre := if Tied(t[0], r) then [t[0]] else [];
        assert (pre + TiedWith(t[1..], r))[|pre|..] == TiedWith(t[1..], r);
        assert (pre + TiedWith(u[1..], r))[|pre|..] == TiedWith(u[1..], r);
      }
      StableSortUnique(t[1..], u[1..]);
      assert t == [t[0]] + t[1..] && u == [u[0]] + u[1..];
    }
  }

  lemma HeadTie<S>(s: seq<Rule<S>>)
    requires s != []
    ensures TiedWith(s, s[0]) != [] && TiedWith(s, s[0])[0] == s[0]
  {
  }

  lemma HeadsTied<S>(t: seq<Rule<S>>, u: seq<Rule<S>>)
    requires t != [] && u != [] && Sorted(t) && Sorted(u) && t[0] in u && u[0] in t
    requires TiedWith(t, t[0]) == TiedWith(u, t[0])
    ensures t[0] == u[0]
  {
    hide MorePrecedent, Tied, TiedWith;
    Unbeaten(t, u[0]);
    Unbeaten(u, t[0]);
    Trichotomy(t[0], u[0]);
    HeadTie(t);
    assert TiedWith(u, t[0])[0] == u[0] by {
      TiedWithFront(u, t[0]);
      TiedSymmetric(t[0], u[0]);
    }
  }

  lemma TiedSymmetric<S>(a: Rule<S>, b: Rule<S>)
    ensures Tied(a, b) ==> Tied(b, a)
  {
  }

  lemma Unbeaten<S>(t: seq<Rule<S>>, y: Rule<S>)
    requires t != [] && Sorted(t) && y in t
    ensures !MorePrecedent(y, t[0])
  {
  }

  /** Reorders the slice in place, most specific first, keeping the order of ties. */
  method SortByPrecedence<S>(a: array<Rule<S>>)
    modifies a
    ensures a[..] == StableSort(old(a[..]))
  {
    hide MorePrecedent;
    ghost var s := a[..];
    for i := 0 to a.Length
      invariant a[..i] == StableSort(s[..i])
      invariant a[i..] == s[i..]
    {
      SortFacts(s[..i]);
      assert a[i] == a[i..][0] == s[i];
      ghost var rest := a[i + 1..];
      assert rest == a[i..][1..] && s[i..][1..] == s[i + 1..];
      InsertAt(a, i);
      assert a[i + 1..] == rest;
      assert s[..i + 1][..i] == s[..i];
    }
    assert a[..a.Length] == a[..] && s[..a.Length] == s;
  }

  /** One insertion step: a[i] moves left past everything it beats. */
  method InsertAt<S>(a: array<Rule<S>>, i: nat)
    requires i < a.Length
    modifies a
    ensures a[..i + 1] == Insert(old(a[..i]), old(a[i]))
    ensures a[i + 1..] == old(a[i + 1..])
  {
    hide MorePrecedent, Insert;
    ghost var t, x, rest := a[..i], a[i], a[i + 1..];
    assert a[..] == t[..i] + [x] + t[i..] + rest;
    assert t[..i] == t && t[i..] == [];
    assert Insert(t, x) == Insert(t[..i], x) + t[i..];
    var j := i;
    while j > 0 && MorePrecedent(a[j], a[j - 1])
      invariant 0 <= j <= i
      invariant a[..] == t[..j] + [x] + t[j..] + rest
      invariant Insert(t, x) == Insert(t[..j], x) + t[j..]
    {
      assert a[j] == x && a[j - 1] == t[j - 1];
      InsertStep(t, x, j);
      SwapShift(t, x, rest, j);
      a[j - 1], a[j] := a[j], a[j - 1];
      j := j - 1;
    }
    assert a[j] == x && (j > 0 ==> a[j - 1] == t[j - 1]);
    InsertHere(t[..j], x);
    assert a[..] == (t[..j] + [x] + t[j..]) + rest;
    assert a[..][..i + 1] == a[..i + 1] && a[..][i + 1..] == a[i + 1..];
  }

  lemma InsertHere<S>(t: seq<Rule<S>>, x: Rule<S>)
    requires t == [] || !MorePrecedent(x, t[|t| - 1])
    ensures Insert(t, x) == t + [x]
  {
  }

  lemma InsertStep<S>(t: seq<Rule<S>>, x: Rule<S>, j: nat)
    requires 0 < j <= |t| && MorePrecedent(x, t[j - 1])
    requires Insert(t, x) == Insert(t[..j], x) + t[j..]
    ensures Insert(t, x) == Insert(t[..j - 1], x) + t[j - 1..]
  {
    hide MorePrecedent;
    assert t[..j][|t[..j]| - 1] == t[j - 1] && t[..j][..j - 1] == t[..j - 1];
    assert t[j - 1..] == [t[j - 1]] + t[j..];
  }

  lemma SwapShift<T>(t: seq<T>, x: T, rest: seq<T>, j: nat)
    requires 0 < j <= |t|
    ensures var s := t[..j] + [x] + t[j..] + rest;
            s[j - 1 := x][j := t[j - 1]] == t[..j - 1] + [x] + t[j - 1..] + rest
  {
  }

  // ----- First match -----

  /** cloudflared serves a request by the first rule that matches it. */
  function FirstMatch<S>(s: seq<Rule<S>>, m: Rule<S> -> bool): Option<Rule<S>> {
    if s == [] then None
    else
      var w := FirstMatch(s[..|s| - 1], m);
      if w.Some? then w else if m(s[|s| - 1]) then Some(s[|s| - 1]) else None
  }

  /** What the Gateway API asks for, computed without sorting: keep the earliest built matching rule
      until a strictly more precedent one comes along. */
  function BestMatch<S>(s: seq<Rule<S>>, m: Rule<S> -> bool): Option<Rule<S>> {
    if s == [] then None
    else
      var w, x := BestMatch(s[..|s| - 1], m), s[|s| - 1];
      if m(x) && (w.None? || MorePrecedent(x, w.value)) then Some(x) else w
  }

  lemma {:induction false} FirstMatchIndex<S>(s: seq<Rule<S>>, m: Rule<S> -> bool)
    ensures FirstMatch(s, m).None? <==> forall x <- s :: !m(x)
    ensures FirstMatch(s, m).Some? ==>
              exists i :: 0 <= i < |s| && s[i] == FirstMatch(s, m).value && m(s[i]) &&
                forall k :: 0 <= k < i ==> !m(s[k])
  {
    if s != [] {
      var front := s[..|s| - 1];
      FirstMatchIndex(front, m);
      assert s == front + [s[|s| - 1]];
      if FirstMatch(front, m).Some? {
        var i :| 0 <= i < |front| && front[i] == FirstMatch(front, m).value && m(front[i])
            && forall k :: 0 <= k < i ==> !m(front[k]);
        assert s[i] == front[i] && forall k :: 0 <= k < i ==> !m(s[k]);
      } else if m(s[|s| - 1]) {
        assert forall k :: 0 <= k < |s| - 1 ==> s[k] in front;
      }
    }
  }

  lemma {:induction false} FirstMatchInsert<S>(t: seq<Rule<S>>, x: Rule<S>, m: Rule<S> -> bool)
    requires Sorted(t)
    ensures var w := FirstMatch(t, m);
            FirstMatch(Insert(t, x), m) == if m(x) && (w.None? || MorePrecedent(x, w.value)) then Some(x) else w
  {
    hide MorePrecedent;
    if t == [] {
      assert ([] + [x])[..0] == [];
    } else {
      var front, last := t[..|t| - 1], t[|t| - 1];
      if !MorePrecedent(x, last) {
        assert (t + [x])[..|t|] == t;
        FirstMatchIndex(t, m);
        if FirstMatch(t, m).Some? {
          var i :| 0 <= i < |t| && t[i] == FirstMatch(t, m).value;
          if i < |t| - 1 {
            UnbeatenTransitive(t[i], last, x);
          }
        }
      } else {
        FirstMatchInsert(front, x, m);
        var u := Insert(front, x) + [last];
        assert u[..|u| - 1] == Insert(front, x);
      }
    }
  }

  /** First match over the sorted rules is best match over the rules as built. */
  lemma {:induction false} FirstMatchIsBestMatch<S>(s: seq<Rule<S>>, m: Rule<S> -> bool)
    ensures FirstMatch(StableSort(s), m) == BestMatch(s, m)
  {
    hide MorePrecedent;
    if s != [] {
      FirstMatchIsBestMatch(s[..|s| - 1], m);
      SortFacts(s[..|s| - 1]);
      FirstMatchInsert(StableSort(s[..|s| - 1]), s[|s| - 1], m);
    }
  }

  /** Every matching rule built before number i is beaten by it. */
  ghost predicate BeatsEarlier<S>(s: seq<Rule<S>>, i: nat, m: Rule<S> -> bool)
    requires i < |s|
  {
    forall k :: 0 <= k < i && m(s[k]) ==> MorePrecedent(s[i], s[k])
  }

  /** Best match means: it matches, no matching rule beats it, and every matching rule built earlier is
      beaten by it. */
  lemma {:induction false} BestMatchMeaning<S>(s: seq<Rule<S>>, m: Rule<S> -> bool)
    ensures var w := BestMatch(s, m);
            && (w.None? <==> forall x <- s :: !m(x))
            && (w.Some? ==> forall x <- s :: m(x) ==> !MorePrecedent(x, w.value))
            && (w.Some? ==> exists i :: 0 <= i < |s| && s[i] == w.value && m(s[i]) && BeatsEarlier(s, i, m))
  {
    hide MorePrecedent;
    if s != [] {
      var front, x := s[..|s| - 1], s[|s| - 1];
      BestMatchMeaning(front, m);
      assert s == front + [x];
      var v, w := BestMatch(front, m), BestMatch(s, m);
      if w.Some? {
        if w == Some(x) && (v.None? || MorePrecedent(x, v.value)) && m(x) {
          forall y | y in front && m(y) ensures MorePrecedent(x, y) {
            BeatsUnbeaten(x, v.value, y);
          }
          Trichotomy(x, x);
          assert forall k :: 0 <= k < |s| - 1 ==> s[k] in front;
          assert BeatsEarlier(s, |s| - 1, m);
          forall y | y in s && m(y) ensures !MorePrecedent(y, x) {
            Trichotomy(x, y);
          }
        } else {
          var i :| 0 <= i < |front| && front[i] == v.value && m(front[i]) && BeatsEarlier(front, i, m);
          assert s[i] == front[i] && BeatsEarlier(s, i, m);
        }
      }
    }
  }

  lemma BeatsUnbeaten<S>(x: Rule<S>, v: Rule<S>, y: Rule<S>)
    requires MorePrecedent(x, v) && !MorePrecedent(y, v)
    ensures MorePrecedent(x, y)
  {
    hide MorePrecedent;
    Trichotomy(v, y);
    if MorePrecedent(v, y) {
      Transitive(x, v, y);
    } else {
      TiedBeats(v, y, x);
    }
  }

  /** In a band followed by more rules, the band decides whenever it matches at all. */
  lemma {:induction false} FirstMatchConcat<S>(a: seq<Rule<S>>, b: seq<Rule<S>>, m: Rule<S> -> bool)
    ensures FirstMatch(a + b, m) == if FirstMatch(a, m).Some? then FirstMatch(a, m) else FirstMatch(b, m)
    decreases |b|
  {
    if b == [] {
      assert a + b == a;
    } else {
      FirstMatchConcat(a, b[..|b| - 1], m);
      assert (a + b)[..|a + b| - 1] == a + b[..|b| - 1];
    }
  }
}
