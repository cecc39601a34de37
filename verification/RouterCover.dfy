/** A run that loses a route from sight for good and still answers every lookup rightly: wherever the lost
    route fits, another one fits and outranks it. */
module RouterCover {
  import opened Wrappers
  import opened PathTokens
  import opened RouteShape
  import opened RouterTree
  import opened RouterEntries
  import opened RouterRuns
  import opened RouterReach
  import opened RouterSeen
  import opened RouterExamples

  const ROUTE_W := Route(GET, [Token(Static, "/b/"), Token(Wildcard, "w")], 2)
  const ROUTE_E := TextRoute("/b/", 4)
  const ROUTE_P := Route(GET, [Token(Static, "/b/"), Token(Param, "x")], 5)
  const ROUTE_Z := Route(GET, [Token(Static, "/b/"), Token(Param, "x"), Token(Static, "/"), Token(Wildcard, "z")], 6)

  function WildLeaf(text: string, r: Route): Node {
    Leaf(text).(wildcard := map[GET := r])
  }

  /** What `/b/` , `/b/{x}` and `/b/{x}/#z` make below "/". */
  function CoverNode(): Node {
    LeafFor("b/", ROUTE_E).(param := Some(LeafFor("", ROUTE_P).(statics := [WildLeaf("/", ROUTE_Z)])))
  }

  function ReachedNode(cover: Node): Node {
    LeafFor("/", ROUTE_S).(statics := [LeafFor("a", ROUTE_A), cover])
  }

  function CoveredOps(): seq<Op> {
    [Register(ROUTE_A)] + [Register(ROUTE_W)] + [Register(ROUTE_S)] + [Register(ROUTE_E)] + [Register(ROUTE_P)]
    + [Register(ROUTE_Z)]
  }

  lemma CoveredThree()
    ensures Run([Register(ROUTE_A)] + [Register(ROUTE_W)] + [Register(ROUTE_S)])
         == Root([SlashNode(), WildLeaf("/b/", ROUTE_W)])
  {
    RegisterFirst("/a", 1);
    var one, two := Root([LeafFor("/a", ROUTE_A)]), Root([LeafFor("/a", ROUTE_A), WildLeaf("/b/", ROUTE_W)]);
    RunSnoc([Register(ROUTE_A)], Register(ROUTE_W));
    WildBeside(one);
    RunSnoc([Register(ROUTE_A)] + [Register(ROUTE_W)], Register(ROUTE_S));
    RegisterText(two, "/", 3);
    SplitFirst(two, ROUTE_S, []);
    assert Insert(Leaf("/").(statics := [LeafFor("a", ROUTE_A)]), ROUTE_S, []).node
        == SlashNode();
  }

  lemma WildBeside(n: Node)
    requires n == Root([LeafFor("/a", ROUTE_A)])
    ensures Apply(n, Register(ROUTE_W)) == Root([LeafFor("/a", ROUTE_A), WildLeaf("/b/", ROUTE_W)])
  {
    assert ROUTE_W.tokens[1..] == [Token(Wildcard, "w")];
    assert "/a"[1] != "/b/"[1];
    InsertBeside(n, ROUTE_W, "/b/", [Token(Wildcard, "w")]);
    WildInserted("/b/", ROUTE_W, "w");
    assert [LeafFor("/a", ROUTE_A)] + [WildLeaf("/b/", ROUTE_W)] == [LeafFor("/a", ROUTE_A), WildLeaf("/b/", ROUTE_W)];
  }

  lemma WildInserted(text: string, r: Route, name: string)
    requires r.verb == GET
    ensures Insert(Leaf(text), r, [Token(Wildcard, name)]).node == WildLeaf(text, r)
  {
  }

  /** A pattern that starts with `/b/` goes below the first child, "/". */
  lemma BelowFirst(n: Node, c: Node, d: Node, r: Route, rest: seq<Token>)
    requires n == Root([c, d]) && c.prefix == "/" && r.tokens == [Token(Static, "/b/")] + rest
    ensures Apply(n, Register(r)) == Root([InsertStatic(c, r, "b/", rest).node, d])
  {
    assert r.tokens[1..] == rest && "/" <= "/b/" && "/b/"[1..] == "b/";
    InsertUnder(n, 0, r, "/b/", rest);
    var e := InsertStatic(c, r, "b/", rest).node;
    assert [c, d][0 := e] == [e, d];
  }

  /** Below "/" it goes on at the second child, "b/". */
  lemma BelowCover(cover: Node, r: Route, rest: seq<Token>)
    requires cover.prefix == "b/"
    ensures InsertStatic(ReachedNode(cover), r, "b/", rest).node == ReachedNode(Insert(cover, r, rest).node)
  {
    var n := ReachedNode(cover);
    assert "a"[0] != "b/"[0];
    assert FirstPrefix(n.statics, "b/") == 1;
    InsertUnder(n, 1, r, "b/", rest);
    assert "b/"[2..] == "";
    var e := Insert(cover, r, rest).node;
    assert n.statics[1 := e] == [LeafFor("a", ROUTE_A), e];
  }

  lemma CoverGrows()
    ensures
      var one := Insert(LeafFor("b/", ROUTE_E), ROUTE_P, [Token(Param, "x")]).node;
      && one == LeafFor("b/", ROUTE_E).(param := Some(LeafFor("", ROUTE_P)))
      && Insert(one, ROUTE_Z, [Token(Param, "x"), Token(Static, "/"), Token(Wildcard, "z")]).node == CoverNode()
  {
    assert [Token(Param, "x")][1..] == [];
    InsertLeaf("", ROUTE_P);
    var rest := [Token(Param, "x"), Token(Static, "/"), Token(Wildcard, "z")];
    assert rest[1..] == [Token(Static, "/"), Token(Wildcard, "z")] && rest[1..][1..] == [Token(Wildcard, "z")];
    InsertBeside(LeafFor("", ROUTE_P), ROUTE_Z, "/", [Token(Wildcard, "z")]);
    WildInserted("/", ROUTE_Z, "z");
    assert [] + [WildLeaf("/", ROUTE_Z)] == [WildLeaf("/", ROUTE_Z)];
  }

  lemma CoveredFour()
    ensures Run([Register(ROUTE_A)] + [Register(ROUTE_W)] + [Register(ROUTE_S)] + [Register(ROUTE_E)])
         == Root([ReachedNode(LeafFor("b/", ROUTE_E)), WildLeaf("/b/", ROUTE_W)])
  {
    var three := [Register(ROUTE_A)] + [Register(ROUTE_W)] + [Register(ROUTE_S)];
    var d, slash := WildLeaf("/b/", ROUTE_W), SlashNode();
    CoveredThree();
    RunSnoc(three, Register(ROUTE_E));
    BelowFirst(Run(three), slash, d, ROUTE_E, []);
    assert "a"[0] != "b/"[0];
    SecondLeaf(slash, LeafFor("a", ROUTE_A), ROUTE_E, "b/");
  }

  /** Registering below "b/" changes that node alone. */
  lemma CoveredNext(ops: seq<Op>, cover: Node, r: Route, rest: seq<Token>)
    requires Run(ops) == Root([ReachedNode(cover), WildLeaf("/b/", ROUTE_W)]) && cover.prefix == "b/"
    requires r.tokens == [Token(Static, "/b/")] + rest
    ensures Run(ops + [Register(r)]) == Root([ReachedNode(Insert(cover, r, rest).node), WildLeaf("/b/", ROUTE_W)])
  {
    RunSnoc(ops, Register(r));
    BelowFirst(Run(ops), ReachedNode(cover), WildLeaf("/b/", ROUTE_W), r, rest);
    BelowCover(cover, r, rest);
  }

  lemma CoveredSix()
    ensures Run(CoveredOps()) == Root([ReachedNode(CoverNode()), WildLeaf("/b/", ROUTE_W)])
  {
    var four := [Register(ROUTE_A)] + [Register(ROUTE_W)] + [Register(ROUTE_S)] + [Register(ROUTE_E)];
    CoveredFour();
    CoverGrows();
    CoveredNext(four, LeafFor("b/", ROUTE_E), ROUTE_P, [Token(Param, "x")]);
    CoveredNext(four + [Register(ROUTE_P)], LeafFor("b/", ROUTE_E).(param := Some(LeafFor("", ROUTE_P))),
                ROUTE_Z, [Token(Param, "x"), Token(Static, "/"), Token(Wildcard, "z")]);
  }

  lemma TailShape(r: Route, rest: seq<Token>)
    requires r.tokens == [Token(Static, "/b/")] + rest
    ensures ShapeOf(r.tokens) == Prepend("/b/", ShapeOf(rest))
  {
    assert r.tokens[1..] == rest;
  }

  /** The routes that cover the lost one, and what they have behind "/b/". */
  predicate Covers(q: Route) {
    q == ROUTE_E || q == ROUTE_P || q == ROUTE_Z
  }

  function Tail(q: Route): Shape {
    if q == ROUTE_E then End else if q == ROUTE_P then Par(End) else Par(Prepend("/", Wild))
  }

  lemma TailShapes()
    ensures ShapeOf(ROUTE_W.tokens) == Prepend("/b/", Wild)
    ensures forall q | Covers(q) :: ShapeOf(q.tokens) == Prepend("/b/", Tail(q))
  {
    var rest := [Token(Param, "x"), Token(Static, "/"), Token(Wildcard, "z")];
    assert rest[1..] == [Token(Static, "/"), Token(Wildcard, "z")] && rest[1..][1..] == [Token(Wildcard, "z")];
    assert [Token(Param, "x")][1..] == [];
    TailShape(ROUTE_W, [Token(Wildcard, "w")]);
    TailShape(ROUTE_E, []);
    TailShape(ROUTE_P, [Token(Param, "x")]);
    TailShape(ROUTE_Z, rest);
  }

  lemma TailMatches(s: Shape, p: string)
    ensures Matches(Prepend("/b/", s), p) <==> "/b/" <= p && Matches(s, p[3..])
    ensures "/b/" <= p ==> p == "/b/" + p[3..]
  {
    MatchesText("/b/", s, p);
  }

  /** Behind "/b/" one of the three always fits. */
  lemma SomeTail(t: string) returns (q: Route)
    ensures Covers(q) && Matches(Tail(q), t)
  {
    q := if t == "" then ROUTE_E else if AfterSegment(t) == "" then ROUTE_P else ROUTE_Z;
    MatchesText("/", Wild, AfterSegment(t));
  }

  /** And what fits is seen there. */
  lemma TailSeen(q: Route, t: string)
    requires Covers(q) && Matches(Tail(q), t)
    ensures Sees(CoverNode(), t, Tail(q), q)
  {
    if q != ROUTE_E {
      var below, rest := CoverNode().param.value, AfterSegment(t);
      if q == ROUTE_Z {
        MatchesText("/", Wild, rest);
        assert rest == "/" + rest[1..];
        SeenBelow(below, 0, rest[1..], Wild, ROUTE_Z);
      }
      LiftPar(CoverNode(), t, Tail(q).rest, q);
    }
  }

  lemma LiftCover(n: Node, t: string, s: Shape, r: Route)
    requires n == Root([ReachedNode(CoverNode()), WildLeaf("/b/", ROUTE_W)]) && Sees(CoverNode(), t, s, r)
    ensures Sees(n, "/b/" + t, Prepend("/b/", s), r)
  {
    assert ("b/" + t)[0] == 'b' && "/" + "b/" == "/b/";
    SeenTwoBelow(n, "/", "b/", t, s, r);
  }

  lemma CoversSeen(q: Route, p: string)
    requires Covers(q) && Matches(ShapeOf(q.tokens), p)
    ensures Sees(Run(CoveredOps()), p, ShapeOf(q.tokens), q)
  {
    TailShapes();
    TailMatches(Tail(q), p);
    TailSeen(q, p[3..]);
    CoveredSix();
    LiftCover(Run(CoveredOps()), p[3..], Tail(q), q);
  }

  /** Wherever `/b/#w` fits, one of `/b/`, `/b/{x}` and `/b/{x}/#z` fits and comes before it. */
  lemma WildcardCovered(m: Verb, p: string) returns (r: Route)
    requires Candidate(ROUTE_W, m, p)
    ensures Covers(r) && Candidate(r, m, p) && Better(r, ROUTE_W, m)
  {
    TailShapes();
    TailMatches(Wild, p);
    r := SomeTail(p[3..]);
    TailMatches(Tail(r), p);
    PrecedesAfter("/b/", Tail(r), Wild);
    StripPrepend("/b/", Tail(r));
    StripPrepend("/b/", Wild);
  }

  /** Every other route is seen wherever it fits. */
  lemma OthersSeen(q: Route, p: string)
    requires q in Everything(CoveredOps()) && q != ROUTE_W && Matches(ShapeOf(q.tokens), p)
    ensures Sees(Run(CoveredOps()), p, ShapeOf(q.tokens), q)
  {
    SixMember(q);
    if Covers(q) {
      CoversSeen(q, p);
    } else {
      CoveredSix();
      ShortSeen(Run(CoveredOps()), ReachedNode(CoverNode()), q, p);
    }
  }

  lemma ShortSeen(n: Node, c: Node, q: Route, p: string)
    requires n.statics != [] && n.statics[0] == c == ReachedNode(CoverNode())
    requires (q == ROUTE_A || q == ROUTE_S) && Matches(ShapeOf(q.tokens), p)
    ensures Sees(n, p, ShapeOf(q.tokens), q)
  {
    TextFits(if q == ROUTE_A then "/a" else "/", q.service, p);
    if q == ROUTE_A { TextBelow(c, 0, p[1..], "", q); }
    TextBelow(n, 0, p, p[1..], q);
  }

  lemma CoveredList()
    ensures CoveredOps() ==
      [Register(ROUTE_A), Register(ROUTE_W), Register(ROUTE_S), Register(ROUTE_E), Register(ROUTE_P), Register(ROUTE_Z)]
  {
  }

  lemma SixOf(u: Op, v: Op, w: Op, x: Op, y: Op, z: Op, ops: seq<Op>)
    requires ops == [u, v, w, x, y, z]
    ensures forall op :: op in ops <==> op == u || op == v || op == w || op == x || op == y || op == z
  {
  }

  lemma SixMember(r: Route)
    ensures r in Everything(CoveredOps()) <==>
      r == ROUTE_A || r == ROUTE_W || r == ROUTE_S || r == ROUTE_E || r == ROUTE_P || r == ROUTE_Z
  {
    CoveredList();
    EverythingMember(CoveredOps());
    SixOf(Register(ROUTE_A), Register(ROUTE_W), Register(ROUTE_S), Register(ROUTE_E), Register(ROUTE_P),
          Register(ROUTE_Z), CoveredOps());
  }

  /** Each of the six has its own shape. */
  lemma SixApart(q: Route, r: Route)
    requires q in Everything(CoveredOps()) && r in Everything(CoveredOps()) && SameKey(q, r)
    ensures q == r
  {
    SixMember(q);
    SixMember(r);
    TailShapes();
    TextFits("/a", 1, "/a");
    TextFits("/", 3, "/");
    StripPrepend("/b/", Wild);
    StripPrepend("/b/", Tail(q));
    StripPrepend("/b/", Tail(r));
    assert "/b/"[1..] == "b/" && "/a"[1..] == "a" && "a"[0] != "b/"[0];
    assert Strip("/b/", Prepend("/a", End)) == None && Strip("/b/", Prepend("/", End)) == None;
    assert !Matches(Prepend("/", End), "/a") by { MatchesText("/", End, "/a"); }
  }

  lemma SlashBChained(r: Route, t: Token)
    requires r.tokens == [Token(Static, "/b/"), t] && t.kind != Static && TokenOk(t) && t.value != "/b/"
    ensures Chained([Token(Static, "/b/")]) && Chained(r.tokens)
  {
    PlainText("/b/", true);
    ChainedAppend([], Token(Static, "/b/"));
    assert [] + [Token(Static, "/b/")] == [Token(Static, "/b/")];
    ChainedAppend([Token(Static, "/b/")], t);
    Pair(Token(Static, "/b/"), t);
  }

  lemma ZChained()
    ensures Chained(ROUTE_Z.tokens)
  {
    var two := [Token(Static, "/b/"), Token(Param, "x")];
    var three := [Token(Static, "/b/"), Token(Param, "x"), Token(Static, "/")];
    PlainText("/", true);
    PlainText("z", false);
    PlainText("x", false);
    SlashBChained(ROUTE_P, Token(Param, "x"));
    ChainedAppend(two, Token(Static, "/"));
    assert two + [Token(Static, "/")] == three;
    ChainedAppend(three, Token(Wildcard, "z"));
    assert three + [Token(Wildcard, "z")] == ROUTE_Z.tokens;
  }

  lemma SixParsed(r: Route)
    requires r in Everything(CoveredOps())
    ensures WellFormed(r.tokens)
  {
    SixMember(r);
    ZChained();
    PlainText("x", false);
    PlainText("w", false);
    SlashBChained(ROUTE_P, Token(Param, "x"));
    SlashBChained(ROUTE_W, Token(Wildcard, "w"));
    TextWellFormed("/a", 1);
    TextWellFormed("/", 3);
    TextWellFormed("/b/", 4);
  }

  lemma SixAt(i: nat)
    requires i < 6
    ensures CoveredOps()[i].Register? && CoveredOps()[i].route.service == i + 1
  {
    CoveredList();
  }

  lemma CoveredRun()
    ensures OnlyRegisters(CoveredOps()) && Parsed(CoveredOps()) && NoCollision(CoveredOps())
  {
    var ops := CoveredOps();
    assert |ops| == 6 by { CoveredList(); }
    forall i | 0 <= i < |ops| ensures ops[i].Register? && WellFormed(ops[i].route.tokens) {
      SixAt(i);
      SixParsed(ops[i].route);
    }
    forall i, j | 0 <= i < j < |ops| ensures !SameKey(ops[i].route, ops[j].route) {
      SixAt(i);
      SixAt(j);
      if SameKey(ops[i].route, ops[j].route) { SixApart(ops[i].route, ops[j].route); }
    }
  }

  lemma BehindLoses(n: Node, s: Shape)
    requires |n.statics| == 2 && n.statics[0].prefix == "/" && n.statics[1] == WildLeaf("/b/", ROUTE_W)
    requires s == Prepend("/b/", Wild)
    ensures Copies(Pruned(n), s, ROUTE_W) < Copies(n, s, ROUTE_W)
  {
    var d := n.statics[1];
    assert n.statics[0].prefix <= d.prefix && Behind(n.statics, 1);
    assert Has(d, Wild, ROUTE_W);
    HasIffCopies(d, Wild, ROUTE_W);
    CopiesPrepend(d, Wild, ROUTE_W);
    PrunedLess(n, 1, s, ROUTE_W);
  }

  /** Its one copy stands behind "/", so pruning takes it away. */
  lemma WildcardHidden()
    ensures ROUTE_W in Everything(CoveredOps()) && ROUTE_W !in Reached(CoveredOps())
  {
    var ops, s := CoveredOps(), ShapeOf(ROUTE_W.tokens);
    CoveredRun();
    CoveredSix();
    TailShapes();
    SixMember(ROUTE_W);
    var n := Run(ops);
    BehindLoses(n, s);
    RunConserves(ops, s, ROUTE_W);
    AcceptedOnce(ops, ROUTE_W);
    HasIffCopies(Pruned(n), s, ROUTE_W);
  }

  lemma CoveredFaithful()
    ensures Faithful(Run(CoveredOps()), Everything(CoveredOps()))
  {
    var ops := CoveredOps();
    CoveredRun();
    forall q, m, p | q in Everything(ops) && q !in Seen(ops, p) && Candidate(q, m, p)
      ensures CoveredBy(Seen(ops, p), q, m, p)
    {
      if q == ROUTE_W {
        var r := WildcardCovered(m, p);
        CoversSeen(r, p);
        SixMember(r);
      } else {
        OthersSeen(q, p);
      }
    }
    FaithfulIffOutranked(ops);
  }

  /** `/a`, `/b/#w`, `/`, `/b/`, `/b/{x}`, `/b/{x}/#z`: the third registration puts `/b/#w` out of reach for
      good; but wherever it fits another route fits and outranks it, and so every lookup is right. */
  lemma UnsafeButFaithful()
    ensures
      var ops := CoveredOps();
      && NoCollision(ops) && !Safe(ops) && Faithful(Run(ops), Everything(ops))
      && ROUTE_W in Everything(ops) && ROUTE_W !in Reached(ops)
      && forall m, p | Candidate(ROUTE_W, m, p) :: CoveredBy(Everything(ops) - {ROUTE_W}, ROUTE_W, m, p)
  {
    var ops := CoveredOps();
    CoveredRun();
    WildcardHidden();
    SafeIffAllReached(ops);
    CoveredFaithful();
    forall m, p | Candidate(ROUTE_W, m, p) ensures CoveredBy(Everything(ops) - {ROUTE_W}, ROUTE_W, m, p) {
      CoveredByOthers(m, p);
    }
  }

  lemma CoveredByOthers(m: Verb, p: string)
    requires Candidate(ROUTE_W, m, p)
    ensures CoveredBy(Everything(CoveredOps()) - {ROUTE_W}, ROUTE_W, m, p)
  {
    var r := WildcardCovered(m, p);
    SixMember(r);
    assert r.service != ROUTE_W.service;
  }
}
