/** Which paths a routed request may have: when the matcher accepts what the parameters of a shape take
    of a path, which paths never trouble it, and that every shape with a parameter matches one that does. */
module RequestPaths {
  import opened PathTokens
  import opened PathMatcher
  import opened RouteShape
  import opened RouterSplit

  /** Every segment that a parameter takes is non-empty and free of braces. */
  predicate SegmentsFit(s: Shape, p: string)
    requires Matches(s, p)
  {
    match s
    case End => true
    case Text(_, rest) => SegmentsFit(rest, p[1..])
    case Par(rest) => SegmentOk(Segment(p)) && SegmentsFit(rest, AfterSegment(p))
    case Wild => true
  }

  lemma {:induction false} FitAfterText(text: string, s: Shape, p: string)
    requires Matches(Prepend(text, s), p)
    ensures text <= p && Matches(s, p[|text|..])
    ensures SegmentsFit(Prepend(text, s), p) <==> SegmentsFit(s, p[|text|..])
  {
    MatchesText(text, s, p);
    if text == "" {
      assert p[0..] == p;
    } else {
      FitAfterText(text[1..], s, p[1..]);
      assert p[1..][|text| - 1..] == p[|text|..];
    }
  }

  /** On a path that the router matches to a pattern, the matcher of that pattern succeeds exactly when
      the segments fit. */
  lemma {:induction false} CapturesIffFit(ts: seq<Token>, p: string)
    requires Spaced(ts) && Matches(ShapeOf(ts), p)
    ensures Captures(ts, p).Some? <==> SegmentsFit(ShapeOf(ts), p)
    decreases |ts|
  {
    if ts == [] {
    } else {
      match ts[0].kind
      case Static =>
        FitAfterText(ts[0].value, ShapeOf(ts[1..]), p);
        CapturesIffFit(ts[1..], p[|ts[0].value|..]);
      case Param => CapturesIffFit(ts[1..], AfterSegment(p));
      case Wildcard =>
    }
  }

  // ---------------------------------------------------------------- paths that always fit

  /** No brace, and no empty segment between two slashes. */
  predicate Clean(p: string) {
    '{' !in p && '}' !in p && forall i | 0 < i < |p| :: p[i - 1] != '/' || p[i] != '/'
  }

  /** Parameters stand only behind a slash. */
  predicate ParsBehindSlash(s: Shape, slash: bool) {
    match s
    case End => true
    case Text(c, rest) => ParsBehindSlash(rest, c == '/')
    case Par(rest) => slash && ParsBehindSlash(rest, false)
    case Wild => true
  }

  lemma {:induction false} SlashAfterText(text: string, s: Shape, slash: bool)
    ensures ParsBehindSlash(Prepend(text, s), slash)
       <==> ParsBehindSlash(s, if text == "" then slash else EndsWithSlash(text))
  {
    if text == "" {
    } else {
      SlashAfterText(text[1..], s, text[0] == '/');
    }
  }

  lemma {:induction false} SuffixBehindSlash(ts: seq<Token>, i: nat)
    requires Chained(ts) && i <= |ts|
    ensures ParsBehindSlash(ShapeOf(ts[i..]), 0 < i && ts[i - 1].kind == Static && EndsWithSlash(ts[i - 1].value))
    decreases |ts| - i
  {
    if i == |ts| {
    } else {
      SuffixBehindSlash(ts, i + 1);
      assert ts[i..][1..] == ts[i + 1..];
      ChainedAt(ts, i);
      if ts[i].kind == Static { SlashAfterText(ts[i].value, ShapeOf(ts[i + 1..]), false); }
    }
  }

  lemma ParsedBehindSlash(ts: seq<Token>)
    requires Chained(ts)
    ensures ParsBehindSlash(ShapeOf(ts), false)
  {
    SuffixBehindSlash(ts, 0);
    assert ts[0..] == ts;
  }

  lemma CleanSuffix(p: string, k: nat)
    requires Clean(p) && k <= |p|
    ensures Clean(p[k..])
  {
    var q := p[k..];
    assert forall c | c in q :: c in p;
    forall i | 0 < i < |q| ensures q[i - 1] != '/' || q[i] != '/' {
      assert q[i - 1] == p[k + i - 1] && q[i] == p[k + i];
    }
  }

  /** On a clean path every segment fits. */
  lemma {:induction false} CleanFits(s: Shape, p: string, slash: bool)
    requires Matches(s, p) && ParsBehindSlash(s, slash) && Clean(p) && (slash ==> !StartsWithSlash(p))
    ensures SegmentsFit(s, p)
  {
    match s
    case End =>
    case Wild =>
    case Text(c, rest) =>
      CleanSuffix(p, 1);
      CleanFits(rest, p[1..], c == '/');
    case Par(rest) =>
      var k := |p| - |AfterSegment(p)|;
      assert forall c | c in Segment(p) :: c in p;
      CleanSuffix(p, k);
      CleanFits(rest, AfterSegment(p), false);
  }

  // ---------------------------------------------------------------- a path that does not fit

  predicate HasPar(s: Shape) {
    match s
    case End => false
    case Text(_, rest) => HasPar(rest)
    case Par(_) => true
    case Wild => false
  }

  lemma {:induction false} NoParFits(s: Shape, p: string)
    requires Matches(s, p) && !HasPar(s)
    ensures SegmentsFit(s, p)
  {
    match s
    case End =>
    case Wild =>
    case Text(_, rest) => NoParFits(rest, p[1..]);
  }

  /** The path with the first parameter's segment replaced by a space and a brace. */
  function Spoilt(s: Shape, p: string): string
    requires Matches(s, p) && HasPar(s)
  {
    match s
    case Text(c, rest) => [c] + Spoilt(rest, p[1..])
    case Par(_) => " {" + AfterSegment(p)
  }

  lemma BraceSegment(t: string)
    requires t == "" || t[0] == '/'
    ensures AfterSegment(" {" + t) == t && Segment(" {" + t) == " {"
  {
    SegmentUpToSlash(" {", t);
  }

  lemma {:induction false} SpoiltMatches(s: Shape, p: string)
    requires Matches(s, p) && HasPar(s)
    ensures Matches(s, Spoilt(s, p)) && !SegmentsFit(s, Spoilt(s, p))
  {
    match s
    case Text(c, rest) =>
      SpoiltMatches(rest, p[1..]);
      assert Spoilt(s, p)[1..] == Spoilt(rest, p[1..]);
    case Par(_) =>
      BraceSegment(AfterSegment(p));
      assert '{' in Segment(Spoilt(s, p)) by { assert " {"[1] == '{'; }
  }

  /** `q` is `p` with the rest of one segment replaced. */
  predicate Replaced(p: string, q: string) {
    p != "" && (q == " {" + AfterSegment(p) || (q != "" && p[0] == q[0] && Replaced(p[1..], q[1..])))
  }

  lemma {:induction false} SpoiltReplaced(s: Shape, p: string)
    requires Matches(s, p) && HasPar(s)
    ensures Replaced(p, Spoilt(s, p))
  {
    match s
    case Text(c, rest) =>
      SpoiltReplaced(rest, p[1..]);
      assert Spoilt(s, p)[1..] == Spoilt(rest, p[1..]);
    case Par(_) =>
  }

  lemma {:induction false} ReplacedAfterSegment(p: string, q: string)
    requires Replaced(p, q)
    ensures AfterSegment(q) == AfterSegment(p) || Replaced(AfterSegment(p), AfterSegment(q))
    decreases |p|
  {
    if q == " {" + AfterSegment(p) {
      BraceSegment(AfterSegment(p));
    } else if p[0] == '/' {
    } else {
      ReplacedAfterSegment(p[1..], q[1..]);
    }
  }

  /** What matches the replaced path matched the path: text has no space, and the rest takes any segment. */
  lemma {:induction false} ReplacedMatches(t: Shape, p: string, q: string)
    requires ShapeOk(t) && Replaced(p, q) && Matches(t, q)
    ensures Matches(t, p)
  {
    match t
    case End =>
    case Wild =>
    case Text(c, rest) =>
      if q != " {" + AfterSegment(p) { ReplacedMatches(rest, p[1..], q[1..]); }
    case Par(rest) =>
      ReplacedAfterSegment(p, q);
      if AfterSegment(q) != AfterSegment(p) { ReplacedMatches(rest, AfterSegment(p), AfterSegment(q)); }
  }
}
