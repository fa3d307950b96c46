/** GRPCRoute matches: the patterns they are compiled to, and what these mean for calls. */
module Grpc {
  import opened Text
  import opened GatewayApi
  import opened Regexp
  import opened Precedence
  import opened Ingress

  // ----- Patterns -----

  /** A name without regular expression characters other than dots. */
  predicate PlainName(n: string) {
    forall i :: 0 <= i < |n| && IsMeta(n[i]) ==> n[i] == '.'
  }

  /** Escaping only dots is quoting exactly for names without any other metacharacter. */
  lemma {:induction false} EscapeDotsIsQuoting(s: string)
    ensures EscapeDots(s) == QuoteMeta(s) <==> PlainName(s)
  {
    if s != "" {
      EscapeDotsIsQuoting(s[1..]);
      QuotedAtLeast(s);
      QuotedAtLeast(s[1..]);
      if IsMeta(s[0]) && s[0] != '.' {
        assert |EscapeDots(s)| < |QuoteMeta(s)|;
      } else {
        var head := if IsMeta(s[0]) then ['\\', s[0]] else [s[0]];
        assert EscapeDots(s) == head + EscapeDots(s[1..]);
        assert EscapeDots(s)[|head|..] == EscapeDots(s[1..]) && QuoteMeta(s)[|head|..] == QuoteMeta(s[1..]);
        assert forall i :: 0 <= i < |s| - 1 ==> s[1..][i] == s[i + 1];
        assert forall i :: 0 < i < |s| ==> s[i] == s[1..][i - 1];
      }
    }
  }

  lemma {:induction false} QuotedAtLeast(s: string)
    ensures |EscapeDots(s)| <= |QuoteMeta(s)|
  {
    if s != "" {
      QuotedAtLeast(s[1..]);
    }
  }

  /** An exact gRPC method match with ordinary names serves that one method's path. */
  lemma GrpcExactMethod(rx: (string, string) -> bool, svc: string, meth: string, path: string)
    requires svc != "" && meth != ""
    requires PlainName(svc) && PlainName(meth)
    ensures var p := GrpcMethodPath(Some(GrpcMethod(Some(Exact), Some(svc), Some(meth))));
            PathServes(rx, p, path) <==> path == "/" + svc + "/" + meth
  {
    hide Compile, Found, QuoteMeta, EscapeDots;
    EscapeDotsIsQuoting(svc);
    EscapeDotsIsQuoting(meth);
    var v := "/" + svc + "/" + meth;
    QuoteConcat("/" + svc + "/", meth);
    QuoteConcat("/" + svc, "/");
    QuoteConcat("/", svc);
    QuoteSlash();
    assert QuoteMeta(v) == "/" + EscapeDots(svc) + "/" + EscapeDots(meth);
    assert "^/" + EscapeDots(svc) + "/" + EscapeDots(meth) + "$" == "^" + QuoteMeta(v) + "$";
    ExactPattern(v, path);
  }

  /** A match on the service alone serves every path that starts with the service, calls or not. */
  lemma GrpcExactService(rx: (string, string) -> bool, svc: string, path: string)
    requires svc != "" && PlainName(svc)
    ensures PathServes(rx, GrpcMethodPath(Some(GrpcMethod(Some(Exact), Some(svc), None))), path) <==>
            "/" + svc + "/" <= path
  {
    hide Compile, Found, QuoteMeta, EscapeDots;
    EscapeDotsIsQuoting(svc);
    var v := "/" + svc + "/";
    QuoteConcat("/" + svc, "/");
    QuoteConcat("/", svc);
    QuoteSlash();
    assert "^/" + EscapeDots(svc) + "/" == "^" + QuoteMeta(v);
    StartPattern(v, path);
  }

  /** A match on the method alone serves every path that ends with the method, calls or not. */
  lemma GrpcExactAnyService(rx: (string, string) -> bool, meth: string, path: string)
    requires meth != "" && PlainName(meth)
    ensures PathServes(rx, GrpcMethodPath(Some(GrpcMethod(Some(Exact), None, Some(meth)))), path) <==>
            HasSuffix(path, "/" + meth) && '\n' !in path[..|path| - |"/" + meth|]
  {
    hide Compile, Found, QuoteMeta, EscapeDots;
    EscapeDotsIsQuoting(meth);
    var v := "/" + meth;
    QuoteConcat("/", meth);
    QuoteSlash();
    assert "^.*/" + EscapeDots(meth) + "$" == "^.*" + QuoteMeta(v) + "$";
    EndPattern(v, path);
  }

  lemma QuoteSlash()
    ensures QuoteMeta("/") == "/"
  {
  }

  function QuoteChar(c: char): string {
    if IsMeta(c) then ['\\', c] else [c]
  }

  lemma QuoteCons(c: char, s: string)
    ensures QuoteMeta([c] + s) == QuoteChar(c) + QuoteMeta(s)
  {
  }

  lemma {:induction false} QuoteConcat(a: string, b: string)
    ensures QuoteMeta(a + b) == QuoteMeta(a) + QuoteMeta(b)
  {
    hide QuoteChar, QuoteMeta;
    if a == "" {
      QuoteEmpty();
      assert a + b == b && "" + QuoteMeta(b) == QuoteMeta(b);
    } else {
      var c, t := a[0], a[1..];
      QuoteConcat(t, b);
      QuoteCons(c, t + b);
      QuoteCons(c, t);
      assert a + b == [c] + (t + b) && a == [c] + t;
      ConcatAssociates(QuoteChar(c), QuoteMeta(t), QuoteMeta(b));
    }
  }

  lemma QuoteEmpty()
    ensures QuoteMeta("") == ""
  {
  }

  lemma ConcatAssociates(a: string, b: string, c: string)
    ensures a + b + c == a + (b + c)
  {
  }

  /** What the pattern of a GRPCRoute match with plain names can stand for. */
  datatype GrpcSet = AnyCall | OfService(svc: string) | OfMethod(meth: string) | OneCall(svc: string, meth: string)

  /** The paths of the pattern: besides calls "/service/method" also others. */
  predicate InGrpcSet(s: GrpcSet, path: string) {
    match s
    case AnyCall => true
    case OfService(v) => "/" + v + "/" <= path
    case OfMethod(m) => HasSuffix(path, "/" + m) && '\n' !in path[..|path| - |"/" + m|]
    case OneCall(v, m) => path == "/" + v + "/" + m
  }

  /** The match type a gRPC method match comes down to. */
  function GrpcKind(m: GrpcMethod): MatchType {
    OrElse(m.kind, Exact)
  }

  predicate KnownGrpc(m: Option<GrpcMethod>) {
    m.Some? && GrpcKind(m.value) in {Exact, RegularExpression}
        && (OrElse(m.value.service, "") != "" || OrElse(m.value.methodName, "") != "") ==>
      GrpcKind(m.value) == Exact && PlainName(OrElse(m.value.service, "")) && PlainName(OrElse(m.value.methodName, ""))
  }

  function GrpcSetOf(m: Option<GrpcMethod>): GrpcSet {
    if m.None? || GrpcKind(m.value) != Exact then AnyCall
    else
      var svc, meth := OrElse(m.value.service, ""), OrElse(m.value.methodName, "");
      if svc != "" && meth != "" then OneCall(svc, meth)
      else if svc != "" then OfService(svc)
      else if meth != "" then OfMethod(meth)
      else AnyCall
  }

  function GrpcLength(s: GrpcSet): nat {
    match s
    case AnyCall => 0
    case OfService(v) => |EscapeDots(v)| + 3
    case OfMethod(m) => |EscapeDots(m)| + 5
    case OneCall(v, m) => |EscapeDots(v)| + |EscapeDots(m)| + 4
  }

  /** For every match that is not a regular expression and names plain names, the emitted rule serves the paths of
      its set and has the specificity of its pattern. */
  lemma GrpcCompilation(rx: (string, string) -> bool, gm: GrpcMatch, path: string)
    requires KnownGrpc(gm.call)
    ensures var b, s := BuiltGrpc()(gm), GrpcSetOf(gm.call);
            && (PathServes(rx, b.path, path) <==> InGrpcSet(s, path))
            && b.kind == (if s == AnyCall then PathNone else PathRegex) && b.litLen == GrpcLength(s)
            && b.methodMatch == (s != AnyCall) && b.headerCount == b.queryCount == 0
  {
    hide PathServes, EscapeDots;
    var m := gm.call;
    EmptyPatternServes(rx, path);
    if m.Some? && GrpcKind(m.value) == Exact {
      var svc, meth := OrElse(m.value.service, ""), OrElse(m.value.methodName, "");
      if svc != "" && meth != "" {
        GrpcExactMethod(rx, svc, meth, path);
      } else if svc != "" {
        GrpcExactService(rx, svc, path);
      } else if meth != "" {
        GrpcExactAnyService(rx, meth, path);
      }
    }
  }

  // ----- Calls -----

  /** A call set with names as API validation admits them: not empty, plain, on one line and without slash. */
  predicate Ordinary(s: GrpcSet) {
    match s
    case AnyCall => true
    case OfService(v) => OrdinaryName(v)
    case OfMethod(m) => OrdinaryName(m)
    case OneCall(v, m) => OrdinaryName(v) && OrdinaryName(m)
  }

  predicate OrdinaryName(n: string) {
    n != "" && PlainName(n) && '/' !in n && '\n' !in n
  }

  /** A service or method as a request's path can carry it. */
  predicate CallName(n: string) {
    n != "" && '/' !in n && '\n' !in n
  }

  function CallPath(svc: string, meth: string): string {
    "/" + svc + "/" + meth
  }

  /** The path is that of a gRPC call. */
  ghost predicate IsCall(path: string) {
    exists svc, meth :: CallName(svc) && CallName(meth) && path == CallPath(svc, meth)
  }

  lemma InServicePath(w: string, path: string, i: nat)
    requires '/' !in w && "/" + w + "/" <= path && 0 < i < |path| && path[i] == '/' && '/' !in path[1..i]
    ensures |w| == i - 1 && w == path[1..i]
  {
    assert forall k :: 1 <= k < i ==> path[k] == path[1..i][k - 1];
    assert forall k :: 1 <= k < |w| + 1 ==> path[k] == ("/" + w + "/")[k] == w[k - 1];
    assert path[|w| + 1] == ("/" + w + "/")[|w| + 1];
  }

  lemma NoSlashInside(short: string, long: string)
    requires '/' !in long && |short| < |long|
    ensures !HasSuffix("/" + long, "/" + short)
  {
    var l := "/" + long;
    assert l[|l| - |short| - 1..][0] == l[|l| - |short| - 1] == long[|long| - |short| - 1];
  }

  lemma InMethodPath(n: string, path: string, m: string)
    requires '/' !in n && '/' !in m && HasSuffix(path, "/" + n) && HasSuffix(path, "/" + m)
    ensures n == m
  {
    assert ("/" + n)[1..] == n && ("/" + m)[1..] == m;
    if |n| < |m| {
      SuffixesNest(path, "/" + n, "/" + m);
      NoSlashInside(n, m);
    } else if |m| < |n| {
      SuffixesNest(path, "/" + m, "/" + n);
      NoSlashInside(m, n);
    }
  }

  lemma CallInService(v: string, m: string)
    ensures "/" + v + "/" <= "/" + v + "/" + m
  {
  }

  lemma CallEnds(v: string, m: string)
    ensures HasSuffix("/" + v + "/" + m, "/" + m)
  {
  }

  /** A path is one call at most. */
  lemma CallPathInjective(v: string, m: string, w: string, n: string)
    requires CallName(v) && CallName(m) && CallName(w) && CallName(n) && CallPath(v, m) == CallPath(w, n)
    ensures v == w && m == n
  {
    var path := CallPath(v, m);
    assert path[1..|v| + 1] == v && path[|v| + 1] == '/';
    CallInService(w, n);
    InServicePath(w, path, |v| + 1);
    CallEnds(v, m);
    CallEnds(w, n);
    InMethodPath(n, path, m);
  }

  /** What the sets mean on calls: the parts a set names are those of the call. */
  lemma SetOnCalls(s: GrpcSet, svc: string, meth: string)
    requires Ordinary(s) && CallName(svc) && CallName(meth)
    ensures InGrpcSet(s, CallPath(svc, meth)) <==>
            match s
            case AnyCall => true
            case OfService(v) => v == svc
            case OfMethod(m) => m == meth
            case OneCall(v, m) => v == svc && m == meth
  {
    var path := CallPath(svc, meth);
    assert path[1..|svc| + 1] == svc && path[|svc| + 1] == '/';
    CallInService(svc, meth);
    CallEnds(svc, meth);
    match s
    case AnyCall =>
    case OfService(v) =>
      if InGrpcSet(s, path) {
        InServicePath(v, path, |svc| + 1);
      }
    case OfMethod(m) =>
      if InGrpcSet(s, path) {
        InMethodPath(m, path, meth);
      }
      BeforeMethod(svc, meth);
    case OneCall(v, m) =>
      if InGrpcSet(s, path) {
        CallPathInjective(svc, meth, v, m);
      }
  }

  lemma BeforeMethod(svc: string, meth: string)
    requires CallName(svc)
    ensures var path := CallPath(svc, meth); '\n' !in path[..|path| - |"/" + meth|]
  {
    var path := CallPath(svc, meth);
    assert path[..|path| - |"/" + meth|] == "/" + svc;
  }

  /** The field fixes nothing when it is missing or empty, and that very name otherwise. */
  predicate Fixes(field: Option<string>, name: string) {
    OrElse(field, "") == "" || field == Some(name)
  }

  /** The method match of a GRPCRoute accepts a call by its names. */
  predicate NamesAgree(m: Option<GrpcMethod>, svc: string, meth: string) {
    m.None? || (Fixes(m.value.service, svc) && Fixes(m.value.methodName, meth))
  }

  /** No regular expression, and names as API validation admits them. */
  predicate ByNames(m: Option<GrpcMethod>) {
    m.None? || ((m.value.kind.None? || m.value.kind.value == Exact)
                && OptionalName(m.value.service) && OptionalName(m.value.methodName))
  }

  predicate OptionalName(field: Option<string>) {
    OrElse(field, "") == "" || OrdinaryName(field.value)
  }

  /** gRPC compilation is correct on calls: the emitted rule serves a call exactly when the names the match gives
      are those of the call. */
  lemma CallCompilation(rx: (string, string) -> bool, gm: GrpcMatch, svc: string, meth: string)
    requires ByNames(gm.call) && CallName(svc) && CallName(meth)
    ensures PathServes(rx, BuiltGrpc()(gm).path, CallPath(svc, meth)) <==> NamesAgree(gm.call, svc, meth)
  {
    hide PathServes, InGrpcSet, CallPath, OrdinaryName, CallName;
    OrdinaryIsPlain();
    GrpcCompilation(rx, gm, CallPath(svc, meth));
    SetOnCalls(GrpcSetOf(gm.call), svc, meth);
  }

  lemma OrdinaryIsPlain()
    ensures PlainName("") && forall n :: OrdinaryName(n) ==> n != "" && PlainName(n)
  {
  }

  /** Beyond calls the patterns are generous: only a match that gives both names serves nothing else. */
  lemma OnlyCallsIff(rx: (string, string) -> bool, gm: GrpcMatch)
    requires ByNames(gm.call)
    ensures (forall path :: PathServes(rx, BuiltGrpc()(gm).path, path) ==> IsCall(path)) <==>
            GrpcSetOf(gm.call).OneCall?
  {
    hide PathServes, InGrpcSet, OrdinaryName, IsCall;
    OrdinaryIsPlain();
    var s := GrpcSetOf(gm.call);
    forall path ensures PathServes(rx, BuiltGrpc()(gm).path, path) <==> InGrpcSet(s, path) {
      GrpcCompilation(rx, gm, path);
    }
    SetBeyondCalls(s);
  }

  /** Some path of every call set. */
  function SomeCall(s: GrpcSet): string {
    match s
    case AnyCall => ""
    case OfService(v) => "/" + v + "/"
    case OfMethod(m) => "/" + m
    case OneCall(v, m) => "/" + v + "/" + m
  }

  lemma SomeCallIn(s: GrpcSet)
    ensures InGrpcSet(s, SomeCall(s))
  {
  }

  lemma SetBeyondCalls(s: GrpcSet)
    requires Ordinary(s)
    ensures (forall path :: InGrpcSet(s, path) ==> IsCall(path)) <==> s.OneCall?
  {
    hide IsCall, InGrpcSet;
    var path := SomeCall(s);
    SomeCallIn(s);
    match s
    case AnyCall => NoCall("");
    case OfService(v) => NoCall(path);
    case OfMethod(m) => NoCallAlone(m);
    case OneCall(v, m) =>
      forall p | InGrpcSet(s, p) ensures IsCall(p) {
        OneIsCall(v, m, p);
      }
  }

  lemma OneIsCall(v: string, m: string, p: string)
    requires OrdinaryName(v) && OrdinaryName(m) && InGrpcSet(OneCall(v, m), p)
    ensures IsCall(p)
  {
    assert p == CallPath(v, m) && CallName(v) && CallName(m);
  }

  lemma NoCall(path: string)
    requires path == "" || path[|path| - 1] == '/'
    ensures !IsCall(path)
  {
    forall svc, meth | CallName(svc) && CallName(meth) ensures path != CallPath(svc, meth) {
      var call := CallPath(svc, meth);
      assert call[|call| - 1] == meth[|meth| - 1];
    }
  }

  lemma NoCallAlone(m: string)
    requires '/' !in m
    ensures !IsCall("/" + m)
  {
    forall svc, meth | CallName(svc) && CallName(meth) ensures "/" + m != CallPath(svc, meth) {
      var call := CallPath(svc, meth);
      assert call[|svc| + 1] == '/';
      assert forall k :: 0 < k < |m| + 1 ==> ("/" + m)[k] == m[k - 1];
    }
  }

  /** Instances: a match on a method alone serves "/m" and "/a/b/m", one on a service alone "/s/". */
  lemma NonCallsServed(rx: (string, string) -> bool)
    ensures var m := BuiltGrpc()(GrpcMatch(Some(GrpcMethod(Some(Exact), None, Some("m"))), [])).path;
            && PathServes(rx, m, "/m") && !IsCall("/m")
            && PathServes(rx, m, "/a/b/m") && !IsCall("/a/b/m")
    ensures var s := BuiltGrpc()(GrpcMatch(Some(GrpcMethod(Some(Exact), Some("s"), None)), [])).path;
            PathServes(rx, s, "/s/") && !IsCall("/s/")
  {
    hide PathServes, IsCall, GrpcMethodPath;
    var m := GrpcMatch(Some(GrpcMethod(Some(Exact), None, Some("m"))), []);
    var s := GrpcMatch(Some(GrpcMethod(Some(Exact), Some("s"), None)), []);
    GrpcCompilation(rx, m, "/m");
    GrpcCompilation(rx, m, "/a/b/m");
    GrpcCompilation(rx, s, "/s/");
    assert HasSuffix("/m", "/m") && "/a/b/m"[4..] == "/m";
    NoCallAlone("m");
    NoCall("/s/");
    NoCallBelow();
  }

  lemma NoCallBelow()
    ensures !IsCall("/a/b/m")
  {
    var path := "/a/b/m";
    forall svc, meth | CallName(svc) && CallName(meth) ensures path != CallPath(svc, meth) {
      var call := CallPath(svc, meth);
      if |svc| > 1 {
        assert call[2] == svc[1] && svc[1] in svc && path[2] == '/';
      } else {
        assert call[3..] == meth && path[3..] == "b/m" && "b/m"[1] == '/';
      }
    }
  }
}
