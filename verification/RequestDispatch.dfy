/** The server's use of router and matcher together: find the route, match its own pattern against
    the path, and unwrap the match. The unwrapping is safe on a sharp condition, stated here. */
module RequestDispatch {
  import opened Basics
  import opened Wrappers
  import opened PathTokens
  import opened PathGrammar
  import opened PathMatcher
  import opened RequestPaths
  import opened RouteShape
  import opened RouterTree
  import opened RouterRuns
  import opened RouterHeap
  import PathInfo
  import PathParser

  /** No route, a found route whose match has no value to unwrap, or a found route and its parameters. */
  datatype Dispatched = NotFound | BadUnwrap(route: Route) | Served(route: Route, params: PathInfo.Params)

  /** What a request comes to: the lookup, then the match of the found route, then its unwrapping. */
  function Answer(n: Node, m: Verb, p: string): Dispatched {
    match Find(n, m, p)
    case None => NotFound
    case Some(r) =>
      var params := MatchOf(r.tokens, p);
      if params.Some? then Served(r, params.value) else BadUnwrap(r)
  }

  /** After any run: the found route was registered and fits; it is served with the segments the router
      skipped, which fill its pattern back to the path, exactly when these segments fit. */
  lemma AnswerFound(ops: seq<Op>, m: Verb, p: string)
    requires Parsed(ops) && Find(Run(ops), m, p).Some?
    ensures
      var r := Find(Run(ops), m, p).value;
      && Register(r) in ops && WellFormed(r.tokens) && Candidate(r, m, p)
      && if SegmentsFit(ShapeOf(r.tokens), p)
         then ServedWith(Answer(Run(ops), m, p), r, p)
         else Answer(Run(ops), m, p) == BadUnwrap(r)
  {
    var r := Find(Run(ops), m, p).value;
    RunSound(ops, m, p);
    RegisteredIsParsed(ops, r);
    ChainedSpaced(r.tokens, 0);
    assert r.tokens[0..] == r.tokens;
    MatcherAgreesWithRouter(r.tokens, p);
    CapturesIffFit(r.tokens, p);
    if Captures(r.tokens, p).Some? {
      CapturesSound(r.tokens, p);
      ChainedNamesApart(r.tokens, 0);
      PairsApart(r.tokens, Skipped(r.tokens, p));
    }
  }

  /** Served with the segments the router skipped: they fill the pattern back to the path, and no name
      has two. */
  ghost predicate ServedWith(d: Dispatched, r: Route, p: string)
    requires Matches(ShapeOf(r.tokens), p)
  {
    && MatchesWith(r.tokens, p, Skipped(r.tokens, p))
    && d == Served(r, Pairs(r.tokens, Skipped(r.tokens, p))) && PathInfo.DistinctNames(d.params)
  }

  /** Builds the matcher of a pattern; refuses what the parser refuses. */
  method Compile(pattern: string) returns (m: Option<Matcher>)
    ensures m.Some? <==> exists ts :: Grammatical(true, ts) && Print(ts) == pattern
    ensures m.Some? ==> m.value.Valid() && m.value.pattern == pattern
  {
    var parser := new PathParser.Parser(true);
    var ok := parser.ParsePattern(pattern);
    if !ok { return None; }
    var tokens := parser.Get();
    var compiled := new Matcher(pattern, tokens);
    return Some(compiled);
  }

  predicate Names(ts: seq<Token>, name: string) {
    exists t :: t in ts && t.kind != Static && t.value == name
  }

  lemma {:induction false} PairsApart(ts: seq<Token>, values: seq<string>)
    requires |values| == Holes(ts) && NamesApart(ts)
    ensures PathInfo.DistinctNames(Pairs(ts, values))
    ensures forall i | 0 <= i < |Pairs(ts, values)| :: Names(ts, Pairs(ts, values)[i].0)
    ensures |Pairs(ts, values)| == |values|
    ensures forall i | 0 <= i < |values| :: Pairs(ts, values)[i].1 == values[i]
    decreases |ts|
  {
    if ts == [] {
    } else {
      var tail := if ts[0].kind == Static then values else values[1..];
      PairsApart(ts[1..], tail);
      PairsUnfold(ts, values);
      if ts[0].kind != Static {
        HeadTail(values);
        FirstNameApart(ts, Pairs(ts[1..], tail));
      }
    }
  }

  lemma PairsUnfold(ts: seq<Token>, values: seq<string>)
    requires |values| == Holes(ts) && ts != []
    ensures Pairs(ts, values)
         == if ts[0].kind == Static then Pairs(ts[1..], values)
            else [(ts[0].value, values[0])] + Pairs(ts[1..], values[1..])
  {
  }

  /** The first name differs from every name that follows, so a pair with it can go in front. */
  lemma FirstNameApart(ts: seq<Token>, pairs: PathInfo.Params)
    requires ts != [] && NamesApart(ts) && ts[0].kind != Static && PathInfo.DistinctNames(pairs)
    requires forall i | 0 <= i < |pairs| :: Names(ts[1..], pairs[i].0)
    ensures forall value :: PathInfo.DistinctNames([(ts[0].value, value)] + pairs)
  {
    forall i | 0 <= i < |pairs| ensures pairs[i].0 != ts[0].value {
      assert Names(ts[1..], pairs[i].0);
      var t :| t in ts[1..] && t.kind != Static && t.value == pairs[i].0;
    }
  }

  /** One request, on a router reached by any run. */
  method Dispatch(router: TreeNode, m: Verb, path: string, ghost ops: seq<Op>) returns (d: Dispatched)
    requires router.Valid() && Parsed(ops) && router.Model() == Run(ops)
    ensures d == Answer(Run(ops), m, path)
    ensures match Find(Run(ops), m, path)
      case None => d == NotFound
      case Some(r) =>
        && Register(r) in ops && Candidate(r, m, path)
        && if SegmentsFit(ShapeOf(r.tokens), path) then ServedWith(d, r, path) else d == BadUnwrap(r)
  {
    var found := router.TryFind(m, path);
    if found.None? { return NotFound; }
    var r := found.value;
    AnswerFound(ops, m, path);
    var matcher := new Matcher(Print(r.tokens), r.tokens);
    var matches := matcher.Match(path);
    if matches.None? { return BadUnwrap(r); }
    var info := new PathInfo.Info(Print(r.tokens), path, matches.value);
    var params := info.Iterate(matches.value);
    return Served(r, params);
  }

  lemma RegisteredIsParsed(ops: seq<Op>, r: Route)
    requires Parsed(ops) && Register(r) in ops
    ensures WellFormed(r.tokens)
  {
    var i :| 0 <= i < |ops| && ops[i] == Register(r);
  }

  /** A request the router serves and the matcher refuses: the parameter's segment is empty. */
  lemma EmptySegmentDisagrees()
    ensures var ts := [Token(Static, "/"), Token(Param, "x"), Token(Static, "/y")];
      Matches(ShapeOf(ts), "//y") && Captures(ts, "//y") == None
  {
    var ts := [Token(Static, "/"), Token(Param, "x"), Token(Static, "/y")];
    assert ts[1..][1..] == [Token(Static, "/y")] && [Token(Static, "/y")][1..] == [];
    assert ShapeOf(ts[1..][1..]) == Prepend("/y", End);
    assert "/y"[1..] == "y" && "y"[1..] == "" && "//y"[1..] == "/y";
    assert AfterSegment("/y") == "/y" && Segment("/y") == "";
  }
}
