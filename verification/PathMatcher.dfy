/** The path matcher, with text read literally, and its agreement with the router: when the server
    may unwrap the match of a path the router has accepted. */
module PathMatcher {
  import opened Basics
  import opened Wrappers
  import opened PathTokens
  import opened PathGrammar
  import opened RouteShape

  // ---------------------------------------------------------------- the language of a pattern

  /** What the expression `[^{}/]+` of a parameter accepts. */
  predicate SegmentOk(v: string) {
    v != "" && '{' !in v && '}' !in v && '/' !in v
  }

  function Holes(ts: seq<Token>): nat {
    if ts == [] then 0 else (if ts[0].kind == Static then 0 else 1) + Holes(ts[1..])
  }

  /** The pattern with its parameters and wildcard replaced by values, in order. */
  function Fill(ts: seq<Token>, values: seq<string>): string
    requires |values| == Holes(ts)
    decreases |ts|
  {
    if ts == [] then ""
    else if ts[0].kind == Static then ts[0].value + Fill(ts[1..], values)
    else values[0] + Fill(ts[1..], values[1..])
  }

  predicate ValuesOk(ts: seq<Token>, values: seq<string>)
    requires |values| == Holes(ts)
    decreases |ts|
  {
    ts == [] ||
    match ts[0].kind
    case Static => ValuesOk(ts[1..], values)
    case Param => SegmentOk(values[0]) && ValuesOk(ts[1..], values[1..])
    case Wildcard => ValuesOk(ts[1..], values[1..])
  }

  /** A path matches a pattern with these captured values. */
  ghost predicate MatchesWith(ts: seq<Token>, p: string, values: seq<string>) {
    |values| == Holes(ts) && ValuesOk(ts, values) && Fill(ts, values) == p
  }

  function Segment(p: string): string {
    p[..|p| - |AfterSegment(p)|]
  }

  /** The captured values, read off the path from left to right. */
  function Captures(ts: seq<Token>, p: string): (values: Option<seq<string>>)
    ensures values.Some? ==> |values.value| == Holes(ts)
    decreases |ts|
  {
    if ts == [] then (if p == "" then Some([]) else None) else
    match ts[0].kind
    case Static => if ts[0].value <= p then Captures(ts[1..], p[|ts[0].value|..]) else None
    case Param =>
      if !SegmentOk(Segment(p)) then None else
      var rest := Captures(ts[1..], AfterSegment(p));
      if rest.None? then None else Some([Segment(p)] + rest.value)
    case Wildcard => if ts[1..] == [] then Some([p]) else None
  }

  /** What the grammar guarantees of every tail of a token list. */
  predicate Spaced(ts: seq<Token>) {
    ts == [] ||
    match ts[0].kind
    case Static => Spaced(ts[1..])
    case Param => (ts[1..] == [] || (ts[1].kind == Static && StartsWithSlash(ts[1].value))) && Spaced(ts[1..])
    case Wildcard => ts[1..] == []
  }

  lemma {:induction false} ChainedSpaced(ts: seq<Token>, i: nat)
    requires Chained(ts) && i <= |ts|
    ensures Spaced(ts[i..])
    decreases |ts| - i
  {
    if i == |ts| {
    } else {
      ChainedSpaced(ts, i + 1);
      assert ts[i..][1..] == ts[i + 1..];
      if i + 1 < |ts| {
        ChainedAt(ts, i + 1);
        assert ts[..i + 1][i] == ts[i] && ts[i..][1] == ts[i + 1];
      }
    }
  }

  // ---------------------------------------------------------------- the captured values

  lemma Cons<T>(x: T, xs: seq<T>)
    ensures ([x] + xs)[0] == x && ([x] + xs)[1..] == xs
  {
  }

  lemma MatchesConsText(ts: seq<Token>, p: string, values: seq<string>)
    requires ts != [] && ts[0].kind == Static && MatchesWith(ts[1..], p, values)
    ensures MatchesWith(ts, ts[0].value + p, values)
  {
  }

  lemma MatchesConsValue(ts: seq<Token>, p: string, value: string, values: seq<string>)
    requires ts != [] && ts[0].kind != Static && MatchesWith(ts[1..], p, values)
    requires ts[0].kind == Param ==> SegmentOk(value)
    ensures MatchesWith(ts, value + p, [value] + values)
  {
    Cons(value, values);
  }

  /** What is captured fills the pattern back to the path. */
  lemma {:induction false} CapturesSound(ts: seq<Token>, p: string)
    requires Captures(ts, p).Some?
    ensures MatchesWith(ts, p, Captures(ts, p).value)
    decreases |ts|
  {
    if ts == [] {
    } else {
      match ts[0].kind
      case Static =>
        var more := p[|ts[0].value|..];
        CapturesSound(ts[1..], more);
        MatchesConsText(ts, more, Captures(ts[1..], more).value);
        assert p == ts[0].value + more;
      case Param =>
        var more := AfterSegment(p);
        CapturesSound(ts[1..], more);
        MatchesConsValue(ts, more, Segment(p), Captures(ts[1..], more).value);
        assert p == Segment(p) + more;
      case Wildcard =>
        MatchesConsValue(ts, "", p, []);
        assert p + "" == p && [p] + [] == [p];
    }
  }

  /** The decomposition is unique: any admissible filling of the pattern is the captured one. */
  lemma {:induction false} CapturesComplete(ts: seq<Token>, p: string, values: seq<string>)
    requires Spaced(ts) && MatchesWith(ts, p, values)
    ensures Captures(ts, p) == Some(values)
    decreases |ts|
  {
    if ts == [] {
    } else {
      match ts[0].kind
      case Static =>
        var more := Fill(ts[1..], values);
        SplitAt(ts[0].value, more);
        CapturesComplete(ts[1..], more, values);
      case Param =>
        var more := Fill(ts[1..], values[1..]);
        FillStartsWithSlash(ts[1..], values[1..]);
        SegmentUpToSlash(values[0], more);
        CapturesComplete(ts[1..], more, values[1..]);
        HeadTail(values);
      case Wildcard =>
        assert Holes(ts[1..]) == 0 && Fill(ts[1..], values[1..]) == "";
        SplitAt(values[0], "");
        HeadTail(values);
        assert values[1..] == [] && [values[0]] + [] == [values[0]];
        assert p == values[0];
    }
  }

  lemma SplitAt(a: string, b: string)
    ensures a <= a + b && (a + b)[|a|..] == b && (b == "" ==> a + b == a)
  {
  }

  lemma FillStartsWithSlash(ts: seq<Token>, values: seq<string>)
    requires |values| == Holes(ts) && (ts != [] ==> ts[0].kind == Static && StartsWithSlash(ts[0].value))
    ensures Fill(ts, values) == "" || Fill(ts, values)[0] == '/'
  {
  }

  lemma {:induction false} SegmentUpToSlash(v: string, more: string)
    requires '/' !in v && (more == "" || more[0] == '/')
    ensures AfterSegment(v + more) == more && Segment(v + more) == v
  {
    AfterUpToSlash(v, more);
    assert (v + more)[..|v|] == v;
  }

  lemma {:induction false} AfterUpToSlash(v: string, more: string)
    requires '/' !in v && (more == "" || more[0] == '/')
    ensures AfterSegment(v + more) == more
  {
    if v == "" {
      assert v + more == more;
    } else {
      assert (v + more)[0] == v[0] && v[0] in v && (v + more)[1..] == v[1..] + more;
      AfterUpToSlash(v[1..], more);
    }
  }

  // ---------------------------------------------------------------- agreement with the router

  /** The segments the router skips while it matches a path. */
  function Skipped(ts: seq<Token>, p: string): (values: seq<string>)
    requires Matches(ShapeOf(ts), p)
    ensures |values| == Holes(ts) || HasWildcard(ts)
    decreases |ts|
  {
    if ts == [] then [] else
    match ts[0].kind
    case Static =>
      MatchesText(ts[0].value, ShapeOf(ts[1..]), p);
      Skipped(ts[1..], p[|ts[0].value|..])
    case Param => [Segment(p)] + Skipped(ts[1..], AfterSegment(p))
    case Wildcard => [p]
  }

  lemma {:induction false} SkippedFillsHoles(ts: seq<Token>, p: string)
    requires Spaced(ts) && Matches(ShapeOf(ts), p)
    ensures |Skipped(ts, p)| == Holes(ts)
    decreases |ts|
  {
    if ts == [] {
    } else {
      match ts[0].kind
      case Static =>
        MatchesText(ts[0].value, ShapeOf(ts[1..]), p);
        SkippedFillsHoles(ts[1..], p[|ts[0].value|..]);
      case Param => SkippedFillsHoles(ts[1..], AfterSegment(p));
      case Wildcard => assert Holes(ts[1..]) == 0;
    }
  }

  /** The matcher accepts exactly the paths the router matches to the pattern whose skipped parameter
      segments are non-empty and free of braces, and then it captures those segments. */
  lemma {:induction false} MatcherAgreesWithRouter(ts: seq<Token>, p: string)
    requires Spaced(ts)
    ensures Captures(ts, p).Some? ==> Matches(ShapeOf(ts), p)
    ensures Matches(ShapeOf(ts), p) ==> |Skipped(ts, p)| == Holes(ts)
    ensures Matches(ShapeOf(ts), p) ==>
      Captures(ts, p) == if ValuesOk(ts, Skipped(ts, p)) then Some(Skipped(ts, p)) else None
    decreases |ts|
  {
    if Matches(ShapeOf(ts), p) { SkippedFillsHoles(ts, p); }
    if ts == [] {
    } else {
      match ts[0].kind
      case Static =>
        MatchesText(ts[0].value, ShapeOf(ts[1..]), p);
        if ts[0].value <= p { MatcherAgreesWithRouter(ts[1..], p[|ts[0].value|..]); }
      case Param =>
        MatcherAgreesWithRouter(ts[1..], AfterSegment(p));
        if Matches(ShapeOf(ts), p) {
          Cons(Segment(p), Skipped(ts[1..], AfterSegment(p)));
        }
      case Wildcard =>
        assert ts[1..] == [] && [p][1..] == [];
    }
  }

  // ---------------------------------------------------------------- the matcher itself

  /** The named groups of a successful match: every parameter's and wildcard's name with its value. */
  function Groups(ts: seq<Token>, values: seq<string>): map<string, string>
    requires |values| == Holes(ts)
    decreases |ts|
  {
    if ts == [] then map[]
    else if ts[0].kind == Static then Groups(ts[1..], values)
    else Groups(ts[1..], values[1..])[ts[0].value := values[0]]
  }

  /** Names with values, in pattern order. */
  function Pairs(ts: seq<Token>, values: seq<string>): seq<(string, string)>
    requires |values| == Holes(ts)
    decreases |ts|
  {
    if ts == [] then []
    else if ts[0].kind == Static then Pairs(ts[1..], values)
    else [(ts[0].value, values[0])] + Pairs(ts[1..], values[1..])
  }

  /** The loop over the tokens: each name is looked up among the groups. */
  function Gather(ts: seq<Token>, groups: map<string, string>): seq<(string, string)>
    requires forall t | t in ts && t.kind != Static :: t.value in groups
  {
    if ts == [] then []
    else if ts[0].kind == Static then Gather(ts[1..], groups)
    else [(ts[0].value, groups[ts[0].value])] + Gather(ts[1..], groups)
  }

  /** The names with the captured values. */
  function MatchOf(ts: seq<Token>, p: string): Option<seq<(string, string)>> {
    var values := Captures(ts, p);
    if values.Some? then Some(Pairs(ts, values.value)) else None
  }

  predicate NamesApart(ts: seq<Token>) {
    ts == [] ||
    (NamesApart(ts[1..]) &&
     (ts[0].kind != Static ==> forall t | t in ts[1..] && t.kind != Static :: t.value != ts[0].value))
  }

  lemma {:induction false} ChainedNamesApart(ts: seq<Token>, i: nat)
    requires Chained(ts) && i <= |ts|
    ensures NamesApart(ts[i..])
    decreases |ts| - i
  {
    if i == |ts| {
    } else {
      ChainedNamesApart(ts, i + 1);
      assert ts[i..][1..] == ts[i + 1..];
      forall t | t in ts[i + 1..] && t.kind != Static ensures t.value != ts[i].value {
        var j :| i < j < |ts| && ts[j] == t;
        ChainedAt(ts, j);
        assert ts[..j][i] == ts[i];
      }
    }
  }

  lemma {:induction false} GroupNames(ts: seq<Token>, values: seq<string>)
    requires |values| == Holes(ts)
    ensures forall t | t in ts && t.kind != Static :: t.value in Groups(ts, values)
    ensures forall name | name in Groups(ts, values) :: exists t :: t in ts && t.kind != Static && t.value == name
    decreases |ts|
  {
    if ts == [] {
    } else {
      GroupNames(ts[1..], if ts[0].kind == Static then values else values[1..]);
      assert ts == [ts[0]] + ts[1..];
    }
  }

  /** With names apart, looking every name up gives back the captured values in order. */
  lemma {:induction false} GatherIsPairs(ts: seq<Token>, values: seq<string>, groups: map<string, string>)
    requires |values| == Holes(ts) && NamesApart(ts)
    requires forall name | name in Groups(ts, values) :: name in groups && groups[name] == Groups(ts, values)[name]
    requires forall t | t in ts && t.kind != Static :: t.value in groups
    ensures Gather(ts, groups) == Pairs(ts, values)
    decreases |ts|
  {
    if ts == [] {
    } else {
      var rest := if ts[0].kind == Static then values else values[1..];
      GroupNames(ts[1..], rest);
      assert forall t | t in ts[1..] :: t in ts;
      GatherIsPairs(ts[1..], rest, groups);
    }
  }

  /** What a parameter takes: one character or more, none of them a brace or a slash. */
  lemma ParamTakes(name: string, v: string)
    ensures Captures([Token(Static, "/"), Token(Param, name)], "/" + v) == Some([v])
       <==> v != "" && forall i | 0 <= i < |v| :: v[i] !in "{}/"
  {
    var ts, p := [Token(Static, "/"), Token(Param, name)], "/" + v;
    assert ts[1..] == [Token(Param, name)] && ts[1..][1..] == [] && p[1..] == v;
    TakesSegment(ts[1..], v);
    assert forall c :: c in "{}/" <==> c == '{' || c == '}' || c == '/';
  }

  lemma TakesSegment(ts: seq<Token>, v: string)
    requires |ts| == 1 && ts[0].kind == Param
    ensures Captures(ts, v) == Some([v]) <==> v != "" && '{' !in v && '}' !in v && '/' !in v
  {
    assert ts[1..] == [];
    if '/' !in v {
      SegmentUpToSlash(v, "");
      assert v + "" == v && [v] + [] == [v];
    }
  }

  class Matcher {
    const pattern: string
    const tokens: seq<Token>

    ghost predicate Valid() {
      Grammatical(true, tokens) && Print(tokens) == pattern
    }

    constructor (pattern: string, tokens: seq<Token>)
      requires Grammatical(true, tokens) && Print(tokens) == pattern
      ensures Valid() && this.pattern == pattern && this.tokens == tokens
    {
      this.pattern, this.tokens := pattern, tokens;
    }

    /** Matches a path: the pairs are the names and the captured values in pattern order. */
    method Match(input: string) returns (matches: Option<seq<(string, string)>>)
      requires Valid()
      ensures matches.Some? <==> exists values :: MatchesWith(tokens, input, values)
      ensures forall values | MatchesWith(tokens, input, values) :: matches == Some(Pairs(tokens, values))
      ensures matches == MatchOf(tokens, input)
    {
      ChainedSpaced(tokens, 0);
      assert tokens[0..] == tokens;
      var captured := Captures(tokens, input);
      forall values | MatchesWith(tokens, input, values) ensures captured == Some(values) {
        CapturesComplete(tokens, input, values);
      }
      if captured.None? { return None; }
      CapturesSound(tokens, input);
      var groups := Groups(tokens, captured.value);
      GroupNames(tokens, captured.value);
      ChainedNamesApart(tokens, 0);
      GatherIsPairs(tokens, captured.value, groups);
      var found := Collect(groups);
      matches := Some(found);
    }

    method Collect(groups: map<string, string>) returns (found: seq<(string, string)>)
      requires forall t | t in tokens && t.kind != Static :: t.value in groups
      ensures found == Gather(tokens, groups)
    {
      found := [];
      assert tokens[0..] == tokens;
      for k := 0 to |tokens|
        invariant found + Gather(tokens[k..], groups) == Gather(tokens, groups)
      {
        assert tokens[k..][0] == tokens[k] && tokens[k..][1..] == tokens[k + 1..];
        if tokens[k].kind == Param || tokens[k].kind == Wildcard {
          found := found + [(tokens[k].value, groups[tokens[k].value])];
        }
      }
    }
  }
}
