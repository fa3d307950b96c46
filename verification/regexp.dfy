/** The fragment of Go's regular expressions the controller emits: literals, escapes, anchors, dot,
    groups, star and question mark. Matching is unanchored, as regexp.MatchString is. */
module Regexp {
  import opened Text

  datatype Re = Empty | Begin | End | Any | Lit(c: char) | Cat(first: Re, rest: Re) | Star(r: Re) | Opt(r: Re)

  /** `r` matches s[i..j]. */
  ghost predicate Matches(r: Re, s: string, i: nat, j: nat)
    requires i <= j <= |s|
    decreases r, j - i
  {
    match r
    case Empty => i == j
    case Begin => i == j == 0
    case End => i == j == |s|
    case Any => j == i + 1 && s[i] != '\n'
    case Lit(c) => j == i + 1 && s[i] == c
    case Cat(a, b) => exists k: nat :: i <= k <= j && Matches(a, s, i, k) && Matches(b, s, k, j)
    case Opt(a) => i == j || Matches(a, s, i, j)
    case Star(a) => i == j || exists k: nat :: i < k <= j && Matches(a, s, i, k) && Matches(r, s, k, j)
  }

  /** `r` matches somewhere in `s`. */
  ghost predicate Found(r: Re, s: string) {
    exists i: nat, j: nat :: i <= j <= |s| && Matches(r, s, i, j)
  }

  /** The bytes regexp.QuoteMeta puts a backslash before. */
  predicate IsMeta(c: char) {
    c in "\\.+*?()|[]{}^$"
  }

  function QuoteMeta(s: string): string {
    if s == "" then ""
    else (if IsMeta(s[0]) then ['\\', s[0]] else [s[0]]) + QuoteMeta(s[1..])
  }

  // ----- Parsing -----

  datatype Parsed = Fail | Parsed(re: Re, rest: string)

  /** A sequence of items, up to the end or an unmatched ')'. */
  function ParseSeq(p: string): (r: Parsed)
    ensures r.Parsed? ==> |r.rest| <= |p|
    decreases |p|, 1
  {
    if p == "" || p[0] == ')' then Parsed(Empty, p)
    else
      match ParseAtom(p)
      case Fail => Fail
      case Parsed(a, rest) =>
        var starred, opt := rest != "" && rest[0] == '*', rest != "" && rest[0] == '?';
        var item := if starred then Star(a) else if opt then Opt(a) else a;
        match ParseSeq(if starred || opt then rest[1..] else rest)
        case Fail => Fail
        case Parsed(b, rest') => Parsed(Cat(item, b), rest')
  }

  /** One atom; Fail on anything outside the fragment. */
  function ParseAtom(p: string): (r: Parsed)
    requires p != ""
    ensures r.Parsed? ==> |r.rest| < |p|
    decreases |p|, 0
  {
    match p[0]
    case '(' =>
      (match ParseSeq(p[1..])
       case Fail => Fail
       case Parsed(r, rest) => if rest != "" then Parsed(r, rest[1..]) else Fail)
    case '\\' => if |p| >= 2 && IsMeta(p[1]) then Parsed(Lit(p[1]), p[2..]) else Fail
    case '^' => Parsed(Begin, p[1..])
    case '$' => Parsed(End, p[1..])
    case '.' => Parsed(Any, p[1..])
    case c => if IsMeta(c) then Fail else Parsed(Lit(c), p[1..])
  }

  function Compile(p: string): Option<Re> {
    match ParseSeq(p)
    case Fail => None
    case Parsed(r, rest) => if rest == "" then Some(r) else None
  }

  /** The literals of `v` followed by `then'`. */
  function Literal(v: string, then': Re): Re {
    if v == "" then then' else Cat(Lit(v[0]), Literal(v[1..], then'))
  }

  /** Quoting neutralises every metacharacter: a quoted string parses to its literals, whatever follows,
      as long as that does not repeat the last one. */
  lemma {:induction false} QuotedParses(v: string, tail: string)
    requires tail == "" || (tail[0] != '*' && tail[0] != '?')
    ensures var t := ParseSeq(tail);
            ParseSeq(QuoteMeta(v) + tail) == if t.Fail? then Fail else Parsed(Literal(v, t.re), t.rest)
  {
    hide ParseAtom, ParseSeq, IsMeta;
    if v == "" {
      assert QuoteMeta(v) + tail == tail;
    } else {
      QuotedParses(v[1..], tail);
      var p, rest := QuoteMeta(v) + tail, QuoteMeta(v[1..]) + tail;
      QuotedHead(v[1..], tail);
      assert p == (if IsMeta(v[0]) then ['\\', v[0]] else [v[0]]) + rest;
      QuotedAtom(v[0], rest);
      PlainStep(p, Lit(v[0]), rest);
    }
  }

  lemma QuotedAtom(c: char, rest: string)
    ensures var p := (if IsMeta(c) then ['\\', c] else [c]) + rest;
            p[0] != ')' && ParseAtom(p) == Parsed(Lit(c), rest)
  {
  }

  /** An atom without a postfix operator is one item of the sequence. */
  lemma PlainStep(p: string, a: Re, rest: string)
    requires p != "" && p[0] != ')' && ParseAtom(p) == Parsed(a, rest)
    requires rest == "" || (rest[0] != '*' && rest[0] != '?')
    ensures var t := ParseSeq(rest);
            ParseSeq(p) == if t.Fail? then Fail else Parsed(Cat(a, t.re), t.rest)
  {
  }

  lemma QuotedHead(v: string, tail: string)
    requires tail == "" || (tail[0] != '*' && tail[0] != '?')
    ensures var p := QuoteMeta(v) + tail; p == "" || (p[0] != '*' && p[0] != '?')
  {
  }

  // ----- What literals match -----

  lemma {:induction false} LiteralMatches(v: string, t: Re, s: string, i: nat, j: nat)
    requires i <= j <= |s|
    ensures Matches(Literal(v, t), s, i, j) <==>
            i + |v| <= j && s[i..i + |v|] == v && Matches(t, s, i + |v|, j)
    decreases |v|
  {
    if v != "" {
      if i < j && s[i] == v[0] {
        LiteralMatches(v[1..], t, s, i + 1, j);
        assert Matches(Lit(v[0]), s, i, i + 1);
        if i + |v| <= j {
          assert s[i..i + |v|] == [s[i]] + s[i + 1..i + |v|];
          assert v == [v[0]] + v[1..];
        }
      } else if i + |v| <= j {
        assert s[i..i + |v|][0] == s[i];
      }
    }
  }

  lemma {:induction false} DotStarMatches(s: string, i: nat, j: nat)
    requires i <= j <= |s|
    ensures Matches(Star(Any), s, i, j) <==> '\n' !in s[i..j]
    decreases j - i
  {
    if i < j {
      DotStarMatches(s, i + 1, j);
      assert s[i..j] == [s[i]] + s[i + 1..j];
      assert s[i] != '\n' ==> Matches(Any, s, i, i + 1);
    }
  }

  lemma EndParses()
    ensures ParseSeq("$") == Parsed(Cat(End, Empty), "")
  {
  }

  lemma DotAtom(rest: string)
    ensures ParseAtom("." + rest) == Parsed(Any, rest)
  {
  }

  lemma BeginAtom(rest: string)
    ensures ParseAtom("^" + rest) == Parsed(Begin, rest)
  {
  }

  lemma StarStep(p: string, a: Re, rest: string)
    requires p != "" && p[0] != ')' && ParseAtom(p) == Parsed(a, "*" + rest)
    ensures var t := ParseSeq(rest); ParseSeq(p) == if t.Fail? then Fail else Parsed(Cat(Star(a), t.re), t.rest)
  {
  }

  /** An anchored pattern is an anchor, the literals, and what its tail parses to. */
  lemma AnchoredParses(v: string, tail: string, t: Re)
    requires tail != "" && tail[0] != '*' && tail[0] != '?'
    requires ParseSeq(tail) == Parsed(t, "")
    ensures Compile("^" + QuoteMeta(v) + tail) == Some(Cat(Begin, Literal(v, t)))
  {
    hide ParseSeq, QuoteMeta;
    QuotedParses(v, tail);
    QuotedHead(v, tail);
    var p := "^" + QuoteMeta(v) + tail;
    assert p[1..] == QuoteMeta(v) + tail;
    assert ParseAtom(p) == Parsed(Begin, QuoteMeta(v) + tail);
    PlainStep(p, Begin, QuoteMeta(v) + tail);
  }

  /** "^" + quoted literal + "$" matches that literal and nothing else. */
  lemma ExactPattern(v: string, s: string)
    ensures var p := "^" + QuoteMeta(v) + "$"; Compile(p).Some? && (Found(Compile(p).value, s) <==> s == v)
  {
    var p := "^" + QuoteMeta(v) + "$";
    EndParses();
    var body := Literal(v, Cat(End, Empty));
    AnchoredParses(v, "$", Cat(End, Empty));
    forall i: nat, j: nat | i <= j <= |s|
      ensures Matches(Cat(Begin, body), s, i, j) <==> i == 0 && j == |s| && s == v
    {
      BeginMatches(body, s, i, j);
      if i == 0 {
        LiteralMatches(v, Cat(End, Empty), s, 0, j);
        if |v| <= j {
          EndMatches(s, |v|, j);
        }
      }
    }
    assert s == v ==> Matches(Cat(Begin, body), s, 0, |s|);
  }

  lemma BeginMatches(r: Re, s: string, i: nat, j: nat)
    requires i <= j <= |s|
    ensures Matches(Cat(Begin, r), s, i, j) <==> i == 0 && Matches(r, s, 0, j)
  {
  }

  lemma EndMatches(s: string, i: nat, j: nat)
    requires i <= j <= |s|
    ensures Matches(Cat(End, Empty), s, i, j) <==> i == j == |s|
  {
    if i == j == |s| {
      assert Matches(End, s, i, i) && Matches(Empty, s, i, i);
    }
  }

  const SEGMENT_TAIL := "(/.*)?$"

  function SegmentRe(): Re {
    Cat(Opt(Cat(Lit('/'), Cat(Star(Any), Empty))), Cat(End, Empty))
  }

  lemma SegmentTailParses()
    ensures ParseSeq(SEGMENT_TAIL) == Parsed(SegmentRe(), "")
  {
    hide ParseSeq, ParseAtom;
    GroupParses();
    EndParses();
    assert SEGMENT_TAIL == "(" + "/.*)?$";
    GroupAtom("/.*)?$", Cat(Lit('/'), Cat(Star(Any), Empty)), "?$");
    assert "?$" == "?" + "$";
    OptStep(SEGMENT_TAIL, Cat(Lit('/'), Cat(Star(Any), Empty)), "$");
  }

  lemma GroupParses()
    ensures ParseSeq("/.*)?$") == Parsed(Cat(Lit('/'), Cat(Star(Any), Empty)), ")?$")
  {
    hide ParseAtom;
    assert ParseSeq(")?$") == Parsed(Empty, ")?$");
    DotAtom("*)?$");
    assert "*)?$" == "*" + ")?$" && ".*)?$" == "." + "*)?$";
    StarStep(".*)?$", Any, ")?$");
    QuotedAtom('/', ".*)?$");
    assert "/.*)?$" == ['/'] + ".*)?$";
    PlainStep("/.*)?$", Lit('/'), ".*)?$");
  }

  lemma GroupAtom(p: string, r: Re, rest: string)
    requires ParseSeq(p) == Parsed(r, ")" + rest)
    ensures ParseAtom("(" + p) == Parsed(r, rest)
  {
  }

  lemma OptStep(p: string, a: Re, rest: string)
    requires p != "" && p[0] != ')' && ParseAtom(p) == Parsed(a, "?" + rest)
    ensures var t := ParseSeq(rest); ParseSeq(p) == if t.Fail? then Fail else Parsed(Cat(Opt(a), t.re), t.rest)
  {
  }

  lemma SegmentMatches(s: string, i: nat, j: nat)
    requires i <= j <= |s|
    ensures Matches(SegmentRe(), s, i, j) <==>
            j == |s| && (i == j || (s[i] == '/' && '\n' !in s[i + 1..j]))
  {
    var slash := Cat(Lit('/'), Cat(Star(Any), Empty));
    assert Matches(SegmentRe(), s, i, j) <==> j == |s| && Matches(Opt(slash), s, i, j) by {
      forall k: nat | i <= k <= j ensures Matches(Cat(End, Empty), s, k, j) <==> k == j == |s| {
        EndMatches(s, k, j);
      }
      assert Matches(Opt(slash), s, i, j) && j == |s| ==> Matches(Cat(End, Empty), s, j, j);
    }
    if i < j {
      assert Matches(slash, s, i, j) <==> s[i] == '/' && Matches(Cat(Star(Any), Empty), s, i + 1, j) by {
        assert s[i] == '/' ==> Matches(Lit('/'), s, i, i + 1);
      }
      assert Matches(Cat(Star(Any), Empty), s, i + 1, j) <==> Matches(Star(Any), s, i + 1, j) by {
        assert Matches(Empty, s, j, j);
      }
      DotStarMatches(s, i + 1, j);
    }
  }

  /** "^" + quoted prefix + "(/.*)?$" matches the prefix itself and the prefix followed by "/" and
      anything on the same line; "/foo" never matches "/foobar". */
  lemma PrefixPattern(v: string, s: string)
    ensures var p := "^" + QuoteMeta(v) + SEGMENT_TAIL;
            Compile(p).Some? &&
            (Found(Compile(p).value, s) <==> UnderPrefix(v, s))
  {
    var p := "^" + QuoteMeta(v) + SEGMENT_TAIL;
    hide ParseSeq, ParseAtom, SegmentRe, QuoteMeta, UnderPrefix, Matches, Literal;
    SegmentTailParses();
    var body := Literal(v, SegmentRe());
    AnchoredParses(v, SEGMENT_TAIL, SegmentRe());
    forall i: nat, j: nat | i <= j <= |s|
      ensures Matches(Cat(Begin, body), s, i, j) <==> i == 0 && j == |s| && UnderPrefix(v, s)
    {
      BeginMatches(body, s, i, j);
      PrefixAt(v, s, j);
    }
    assert UnderPrefix(v, s) ==> Matches(Cat(Begin, body), s, 0, |s|);
  }

  /** The prefix itself, or the prefix, a slash and anything on the same line. */
  predicate UnderPrefix(v: string, s: string) {
    s == v || (v + "/" <= s && '\n' !in s[|v| + 1..])
  }

  lemma PrefixAt(v: string, s: string, j: nat)
    requires j <= |s|
    ensures Matches(Literal(v, SegmentRe()), s, 0, j) <==> j == |s| && UnderPrefix(v, s)
  {
    hide SegmentRe, Matches;
    LiteralMatches(v, SegmentRe(), s, 0, j);
    if |v| <= j {
      SegmentMatches(s, |v|, j);
      if |v| < j {
        assert j == |s| ==> s[|v| + 1..j] == s[|v| + 1..];
      }
      assert v + "/" <= s <==> |v| < |s| && s[..|v|] == v && s[|v|] == '/';
    }
  }

  /** "^" + quoted literal matches everything that starts with the literal. */
  lemma StartPattern(v: string, s: string)
    ensures var p := "^" + QuoteMeta(v); Compile(p).Some? && (Found(Compile(p).value, s) <==> v <= s)
  {
    hide QuoteMeta;
    var p := "^" + QuoteMeta(v);
    assert ParseSeq("") == Parsed(Empty, "");
    QuotedParses(v, "");
    QuotedHead(v, "");
    assert QuoteMeta(v) + "" == QuoteMeta(v);
    assert p[1..] == QuoteMeta(v) && ParseAtom(p) == Parsed(Begin, QuoteMeta(v));
    PlainStep(p, Begin, QuoteMeta(v));
    var body := Literal(v, Empty);
    assert Compile(p) == Some(Cat(Begin, body));
    forall i: nat, j: nat | i <= j <= |s|
      ensures Matches(Cat(Begin, body), s, i, j) <==> i == 0 && j == |v| && v <= s
    {
      BeginMatches(body, s, i, j);
      LiteralMatches(v, Empty, s, 0, j);
    }
    assert v <= s ==> Matches(Cat(Begin, body), s, 0, |v|);
  }

  /** "^.*" + quoted literal + "$" matches everything on one line that ends with the literal. */
  lemma EndPattern(v: string, s: string)
    ensures var p := "^.*" + QuoteMeta(v) + "$";
            Compile(p).Some? && (Found(Compile(p).value, s) <==> HasSuffix(s, v) && '\n' !in s[..|s| - |v|])
  {
    hide QuoteMeta;
    var tail := QuoteMeta(v) + "$";
    var p := "^.*" + QuoteMeta(v) + "$";
    EndPatternParses(v);
    var end := Literal(v, Cat(End, Empty));
    var body := Cat(Star(Any), end);
    forall i: nat, j: nat | i <= j <= |s|
      ensures Matches(Cat(Begin, body), s, i, j) <==> i == 0 && j == |s| && HasSuffix(s, v) && '\n' !in s[..|s| - |v|]
    {
      BeginMatches(body, s, i, j);
      EndAt(v, s, j);
    }
    assert HasSuffix(s, v) && '\n' !in s[..|s| - |v|] ==> Matches(Cat(Begin, body), s, 0, |s|);
  }

  lemma EndPatternParses(v: string)
    ensures Compile("^.*" + QuoteMeta(v) + "$") == Some(Cat(Begin, Cat(Star(Any), Literal(v, Cat(End, Empty)))))
  {
    hide QuoteMeta, ParseSeq, ParseAtom, Literal;
    var tail := QuoteMeta(v) + "$";
    EndParses();
    QuotedParses(v, "$");
    var dots := ".*" + tail;
    DotAtom("*" + tail);
    assert dots == "." + ("*" + tail);
    StarStep(dots, Any, tail);
    var p := "^.*" + QuoteMeta(v) + "$";
    assert p == "^" + dots;
    BeginAtom(dots);
    PlainStep(p, Begin, dots);
  }

  lemma EndAt(v: string, s: string, j: nat)
    requires j <= |s|
    ensures Matches(Cat(Star(Any), Literal(v, Cat(End, Empty))), s, 0, j) <==>
            j == |s| && HasSuffix(s, v) && '\n' !in s[..|s| - |v|]
  {
    var end := Literal(v, Cat(End, Empty));
    forall k: nat | k <= j
      ensures Matches(end, s, k, j) <==> j == |s| && k + |v| == |s| && s[k..] == v
      ensures Matches(Star(Any), s, 0, k) <==> '\n' !in s[..k]
    {
      LiteralMatches(v, Cat(End, Empty), s, k, j);
      if k + |v| <= j {
        EndMatches(s, k + |v|, j);
      }
      DotStarMatches(s, 0, k);
      assert s[0..k] == s[..k];
    }
    if j == |s| && HasSuffix(s, v) && '\n' !in s[..|s| - |v|] {
      assert Matches(Star(Any), s, 0, |s| - |v|) && Matches(end, s, |s| - |v|, j);
    }
  }
}
