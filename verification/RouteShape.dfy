/** What a route pattern means to the router: its shape, the paths it matches, and which of two
    matching shapes wins. Nothing here mentions the tree. */
module RouteShape {
  import opened PathTokens
  import opened Wrappers

  /** The shape of a pattern: literal characters, parameters, and the end or a trailing wildcard.
      Names are erased and text is taken a character at a time, so fused and split texts agree. */
  datatype Shape = End | Text(c: char, rest: Shape) | Par(rest: Shape) | Wild

  function Prepend(text: string, s: Shape): Shape {
    if text == "" then s else Text(text[0], Prepend(text[1..], s))
  }

  function ShapeOf(ts: seq<Token>): Shape {
    if ts == [] then End else
    match ts[0].kind
    case Static => Prepend(ts[0].value, ShapeOf(ts[1..]))
    case Param => Par(ShapeOf(ts[1..]))
    case Wildcard => Wild
  }

  /** What is left of a shape that starts with the text. */
  function Strip(text: string, s: Shape): Option<Shape> {
    if text == "" then Some(s)
    else if s.Text? && s.c == text[0] then Strip(text[1..], s.rest)
    else None
  }

  /** The path from its first slash on: what is left once a parameter has taken its segment. */
  function AfterSegment(p: string): (r: string)
    ensures |r| <= |p| && r == p[|p| - |r|..]
    ensures r != "" ==> r[0] == '/'
    ensures '/' !in p[..|p| - |r|]
  {
    if p == "" || p[0] == '/' then p else AfterSegment(p[1..])
  }

  /** A path matches a shape: literally, with each parameter taking one segment of a non-empty
      remainder (the segment itself may be empty) and the wildcard taking whatever is left. */
  predicate Matches(s: Shape, p: string) {
    match s
    case End => p == ""
    case Text(c, rest) => p != "" && p[0] == c && Matches(rest, p[1..])
    case Par(rest) => p != "" && Matches(rest, AfterSegment(p))
    case Wild => true
  }

  /** `a` is `b`, or wins over it where they first differ: text over parameter over wildcard, and
      the end of the shape over a wildcard. */
  predicate Precedes(a: Shape, b: Shape) {
    match (a, b)
    case (End, _) => b.End? || b.Wild?
    case (Text(c, x), Text(d, y)) => c == d && Precedes(x, y)
    case (Text(_, _), _) => b.Par? || b.Wild?
    case (Par(x), Par(y)) => Precedes(x, y)
    case (Par(_), _) => b.Wild?
    case (Wild, _) => b.Wild?
  }

  // ---------------------------------------------------------------- routes and the answer to a lookup

  /** A request method; `Any` is the verb `unknown`, under which a route serves every method. */
  datatype Verb = Any | Known(code: nat)

  datatype Route = Route(verb: Verb, tokens: seq<Token>, service: nat)

  predicate Serves(r: Route, m: Verb) {
    r.verb == m || r.verb == Any
  }

  predicate Candidate(r: Route, m: Verb, p: string) {
    Serves(r, m) && Matches(ShapeOf(r.tokens), p)
  }

  /** Shape decides first; for one shape, the exact verb comes before `Any`. */
  predicate Preferred(m: Verb, s: Shape, v: Verb, s': Shape, v': Verb) {
    if s == s' then v == v' || v == m else Precedes(s, s')
  }

  /** The plain search: `answer` is a registered candidate that no other candidate outranks, or
      nothing when there is no candidate. */
  ghost predicate IsAnswer(registered: set<Route>, m: Verb, p: string, answer: Option<Route>) {
    match answer
    case None => forall r | r in registered :: !Candidate(r, m, p)
    case Some(a) =>
      && a in registered
      && Candidate(a, m, p)
      && forall r | r in registered && Candidate(r, m, p) ::
           Preferred(m, ShapeOf(a.tokens), a.verb, ShapeOf(r.tokens), r.verb)
  }

  /** Two routes the router cannot hold side by side. */
  predicate SameKey(q: Route, r: Route) {
    ShapeOf(q.tokens) == ShapeOf(r.tokens) && q.verb == r.verb
  }

  ghost predicate DistinctKeys(registered: set<Route>) {
    forall q, r | q in registered && r in registered && SameKey(q, r) :: q == r
  }

  // ---------------------------------------------------------------- laws of shapes

  /** The first takes precedence over the second, and not the other way round. */
  predicate Wins(a: seq<Token>, b: seq<Token>) {
    Precedes(ShapeOf(a), ShapeOf(b)) && !Precedes(ShapeOf(b), ShapeOf(a))
  }

  /** Where two patterns part, text comes first, then the parameter, then the wildcard, which the end of the
      pattern also comes before. */
  lemma WhereTheyPart(front: seq<Token>, t: char, name: string, x: seq<Token>, y: seq<Token>)
    requires forall i | 0 <= i < |front| :: front[i].kind != Wildcard
    ensures Wins(front + ([Token(Static, [t])] + x), front + ([Token(Param, name)] + y))
    ensures Wins(front + ([Token(Static, [t])] + x), front + ([Token(Wildcard, name)] + y))
    ensures Wins(front + ([Token(Param, name)] + x), front + ([Token(Wildcard, name)] + y))
    ensures Wins(front, front + ([Token(Wildcard, name)] + y))
  {
    var text, par, par', wild :=
      [Token(Static, [t])] + x, [Token(Param, name)] + x, [Token(Param, name)] + y, [Token(Wildcard, name)] + y;
    assert ShapeOf(text) == Prepend([t], ShapeOf(text[1..]));
    BehindFront(front, text, par');
    BehindFront(front, text, wild);
    BehindFront(front, par, wild);
    BehindFront(front, [], wild);
    assert front + [] == front;
  }

  lemma BehindFront(front: seq<Token>, a: seq<Token>, b: seq<Token>)
    requires forall i | 0 <= i < |front| :: front[i].kind != Wildcard
    ensures Wins(front + a, front + b) <==> Wins(a, b)
  {
    SameFront(front, a, b);
    SameFront(front, b, a);
  }

  /** What two patterns start with in common decides nothing. */
  lemma {:induction false} SameFront(front: seq<Token>, a: seq<Token>, b: seq<Token>)
    requires forall i | 0 <= i < |front| :: front[i].kind != Wildcard
    ensures Precedes(ShapeOf(front + a), ShapeOf(front + b)) <==> Precedes(ShapeOf(a), ShapeOf(b))
  {
    if front == [] {
      assert front + a == a && front + b == b;
    } else {
      SameFront(front[1..], a, b);
      assert (front + a)[1..] == front[1..] + a && (front + b)[1..] == front[1..] + b;
      SameText(front[0].value, ShapeOf(front[1..] + a), ShapeOf(front[1..] + b));
    }
  }

  lemma {:induction false} SameText(text: string, a: Shape, b: Shape)
    ensures Precedes(Prepend(text, a), Prepend(text, b)) <==> Precedes(a, b)
  {
    if text != "" { SameText(text[1..], a, b); }
  }

  lemma {:induction false} StripPrepend(text: string, s: Shape)
    ensures Strip(text, Prepend(text, s)) == Some(s)
  {
    if text == "" {
    } else {
      StripPrepend(text[1..], s);
    }
  }

  lemma {:induction false} StripIs(text: string, s: Shape)
    requires Strip(text, s).Some?
    ensures s == Prepend(text, Strip(text, s).value)
  {
    if text == "" {
    } else {
      StripIs(text[1..], s.rest);
    }
  }

  lemma {:induction false} PrependConcat(a: string, b: string, s: Shape)
    ensures Prepend(a + b, s) == Prepend(a, Prepend(b, s))
  {
    if a == "" {
      assert a + b == b;
    } else {
      PrependConcat(a[1..], b, s);
      assert (a + b)[1..] == a[1..] + b;
    }
  }

  lemma {:induction false} StripConcat(a: string, b: string, s: Shape)
    ensures Strip(a + b, s) == if Strip(a, s).Some? then Strip(b, Strip(a, s).value) else None
  {
    if a == "" {
      assert a + b == b;
    } else if s.Text? && s.c == a[0] {
      StripConcat(a[1..], b, s.rest);
      assert (a + b)[1..] == a[1..] + b;
    }
  }

  /** Two texts that both start a shape are comparable. */
  lemma {:induction false} StripBoth(a: string, b: string, s: Shape)
    requires Strip(a, s).Some? && Strip(b, s).Some? && |a| <= |b|
    ensures a <= b
  {
    if a == "" {
    } else {
      StripBoth(a[1..], b[1..], s.rest);
      assert a == [a[0]] + a[1..] && b == [b[0]] + b[1..];
    }
  }

  lemma PrefixTail(a: string, b: string)
    requires a != "" && b != "" && a[0] == b[0]
    ensures a <= b <==> a[1..] <= b[1..]
  {
    assert a == [a[0]] + a[1..] && b == [b[0]] + b[1..];
  }

  /** Literal text at the head of a shape is read literally. */
  lemma {:induction false} MatchesText(text: string, s: Shape, p: string)
    ensures Matches(Prepend(text, s), p) <==> text <= p && Matches(s, p[|text|..])
  {
    if text == "" {
      assert p[|text|..] == p;
    } else if p != "" && p[0] == text[0] {
      MatchesText(text[1..], s, p[1..]);
      PrefixTail(text, p);
      if text <= p { assert p[1..][|text| - 1..] == p[|text|..]; }
    }
  }

  lemma {:induction false} PrecedesAfter(text: string, a: Shape, b: Shape)
    ensures Precedes(Prepend(text, a), Prepend(text, b)) <==> Precedes(a, b)
  {
    if text == "" {
    } else {
      PrecedesAfter(text[1..], a, b);
    }
  }

  lemma {:induction false} PrecedesReflexive(a: Shape)
    ensures Precedes(a, a)
  {
    match a
    case Text(_, rest) => PrecedesReflexive(rest);
    case Par(rest) => PrecedesReflexive(rest);
    case _ =>
  }

  /** The order is one way only. */
  lemma {:induction false} PrecedesAntisymmetric(a: Shape, b: Shape)
    requires Precedes(a, b) && Precedes(b, a)
    ensures a == b
  {
    match a
    case Text(_, rest) => PrecedesAntisymmetric(rest, b.rest);
    case Par(rest) => PrecedesAntisymmetric(rest, b.rest);
    case _ =>
  }

  /** Any two shapes that match one path are comparable, so the search always has a winner. */
  lemma {:induction false} PrecedesTotal(a: Shape, b: Shape, p: string)
    requires Matches(a, p) && Matches(b, p)
    ensures Precedes(a, b) || Precedes(b, a)
  {
    match (a, b)
    case (Text(_, x), Text(_, y)) => PrecedesTotal(x, y, p[1..]);
    case (Par(x), Par(y)) => PrecedesTotal(x, y, AfterSegment(p));
    case _ =>
  }

  /** The answer is unique when no two registered routes share shape and verb. */
  lemma AnswerUnique(registered: set<Route>, m: Verb, p: string, x: Option<Route>, y: Option<Route>)
    requires DistinctKeys(registered)
    requires IsAnswer(registered, m, p, x) && IsAnswer(registered, m, p, y)
    ensures x == y
  {
    if x.Some? && y.Some? {
      var a, b := ShapeOf(x.value.tokens), ShapeOf(y.value.tokens);
      if a != b { PrecedesAntisymmetric(a, b); }
      assert SameKey(x.value, y.value);
    }
  }
}
