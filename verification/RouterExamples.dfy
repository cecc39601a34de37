/** Three runs of a router: a split that loses a route, also in a server that was built from it; a split
    that reordering mends; and a duplicate that is taken. */
module RouterExamples {
  import opened Wrappers
  import opened PathTokens
  import opened RouteShape
  import opened RouterTree
  import opened RouterEntries
  import opened RouterSplit
  import opened RouterOptimize
  import opened RouterRuns
  import opened RouterReach
  import opened RouterSeen

  const GET := Known(0)

  function TextRoute(text: string, service: nat): Route {
    Route(GET, [Token(Static, text)], service)
  }

  /** A node with one route and no children. */
  function LeafFor(text: string, r: Route): Node {
    Leaf(text).(routes := map[GET := r])
  }

  /** A root that holds these text children. */
  function Root(statics: seq<Node>): Node {
    Leaf("").(statics := statics)
  }

  // ---------------------------------------------------------------- single steps

  lemma RunSnoc(ops: seq<Op>, op: Op)
    ensures Run(ops + [op]) == Apply(Run(ops), op)
  {
    assert (ops + [op])[..|ops|] == ops;
  }

  lemma NoneOf(ns: seq<Node>, text: string)
    requires forall k | 0 <= k < |ns| :: !(ns[k].prefix <= text) && !(text <= ns[k].prefix)
    ensures FirstPrefix(ns, text) == |ns| == FirstExtension(ns, text)
  {
  }

  /** No child starts or extends the text: a new child takes it. */
  lemma InsertBeside(n: Node, r: Route, text: string, rest: seq<Token>)
    requires text != ""
    requires forall k | 0 <= k < |n.statics| :: !(n.statics[k].prefix <= text) && !(text <= n.statics[k].prefix)
    ensures InsertStatic(n, r, text, rest).node == n.(statics := n.statics + [Insert(Leaf(text), r, rest).node])
  {
    NoneOf(n.statics, text);
  }

  /** Child `i` is the first to start the text: the rest goes below it. */
  lemma InsertUnder(n: Node, i: nat, r: Route, text: string, rest: seq<Token>)
    requires text != "" && i < |n.statics| && FirstPrefix(n.statics, text) == i
    ensures InsertStatic(n, r, text, rest).node
         == n.(statics := n.statics[i := InsertStatic(n.statics[i], r, text[|n.statics[i].prefix|..], rest).node])
  {
  }

  lemma InsertLeaf(text: string, r: Route)
    requires r.verb == GET
    ensures Insert(Leaf(text), r, []).node == LeafFor(text, r)
  {
  }

  lemma OnlyLeaf(n: Node, r: Route, text: string)
    requires text != "" && n.statics == [] && r.verb == GET
    ensures InsertStatic(n, r, text, []).node == n.(statics := [LeafFor(text, r)])
  {
    InsertBeside(n, r, text, []);
    InsertLeaf(text, r);
    assert [] + [LeafFor(text, r)] == [LeafFor(text, r)];
  }

  lemma SecondLeaf(n: Node, c: Node, r: Route, text: string)
    requires n.statics == [c] && !(c.prefix <= text) && !(text <= c.prefix) && text != "" && r.verb == GET
    ensures InsertStatic(n, r, text, []).node == n.(statics := [c, LeafFor(text, r)])
  {
    InsertBeside(n, r, text, []);
    InsertLeaf(text, r);
    assert [c] + [LeafFor(text, r)] == [c, LeafFor(text, r)];
  }

  lemma RegisterText(n: Node, text: string, service: nat)
    ensures Apply(n, Register(TextRoute(text, service))) == InsertStatic(n, TextRoute(text, service), text, []).node
  {
    assert TextRoute(text, service).tokens[1..] == [];
  }

  /** Registering a text that has nothing to do with the root's children. */
  lemma RegisterBeside(ops: seq<Op>, ns: seq<Node>, text: string, service: nat)
    requires Run(ops) == Root(ns) && text != ""
    requires forall k | 0 <= k < |ns| :: !(ns[k].prefix <= text) && !(text <= ns[k].prefix)
    ensures Run(ops + [Register(TextRoute(text, service))]) == Root(ns + [LeafFor(text, TextRoute(text, service))])
  {
    var r := TextRoute(text, service);
    RunSnoc(ops, Register(r));
    RegisterText(Root(ns), text, service);
    InsertBeside(Root(ns), r, text, []);
    InsertLeaf(text, r);
  }

  lemma RunOne(op: Op)
    ensures Run([op]) == Apply(Leaf(""), op)
  {
    assert [op][..0] == [];
  }

  lemma RegisterFirst(text: string, service: nat)
    requires text != ""
    ensures Run([Register(TextRoute(text, service))]) == Root([LeafFor(text, TextRoute(text, service))])
  {
    RunOne(Register(TextRoute(text, service)));
    RegisterText(Leaf(""), text, service);
    OnlyLeaf(Leaf(""), TextRoute(text, service), text);
  }

  /** One per non-empty table, and what is counted below the parameter. */
  function OwnWeight(n: Node): nat {
    (if n.routes != map[] then 1 else 0) + (if n.wildcard != map[] then 1 else 0)
    + (if n.param.Some? then Optimize(n.param.value).weight else 0)
  }

  function WithStatics(n: Node, statics: seq<Node>): Node {
    n.(statics := statics, param := if n.param.Some? then Some(Optimize(n.param.value).node) else None)
  }

  lemma OptimizeIs(n: Node, ws: seq<Weighted<Node>>)
    requires |ws| == |n.statics| && forall i | 0 <= i < |ws| :: ws[i] == Optimize(n.statics[i])
    ensures Optimize(n) == Weighted(Sum(Weights(ws)) + OwnWeight(n), WithStatics(n, Nodes(ByWeight(ws))))
  {
    OptimizeUnfold(n);
    assert Children(n) == ws;
  }

  lemma SlotOne<T>(a: Weighted<T>, weight: nat)
    ensures Slot([a], weight) == if a.weight < weight then 0 else 1
  {
    assert [a][1..] == [];
  }

  lemma SortOne<T>(a: Weighted<T>)
    ensures ByWeight([a]) == [a]
  {
    assert [a][..0] == [];
    assert ByWeight([a][..0]) == [];
  }

  lemma SortTwo<T>(a: Weighted<T>, b: Weighted<T>)
    ensures ByWeight([a, b]) == if a.weight >= b.weight then [a, b] else [b, a]
  {
    SortOne(a);
    assert [a, b][..1] == [a];
    PlaceOne(a, b);
  }

  lemma PlaceOne<T>(a: Weighted<T>, b: Weighted<T>)
    ensures Place([a], b) == if a.weight >= b.weight then [a, b] else [b, a]
  {
    SlotOne(a, b.weight);
    assert [a][..1] + [b] + [a][1..] == [a, b] && [a][..0] + [b] + [a][0..] == [b, a];
  }

  lemma NodesOf(a: Weighted<Node>, b: Weighted<Node>)
    ensures Nodes([]) == [] && Nodes([a]) == [a.node] && Nodes([a, b]) == [a.node, b.node]
  {
  }

  lemma WeightsOf(a: Weighted<Node>, b: Weighted<Node>)
    ensures Sum(Weights([])) == 0 && Sum(Weights([a])) == a.weight && Sum(Weights([a, b])) == a.weight + b.weight
  {
    assert Weights([]) == [] && Weights([a]) == [a.weight] && Weights([a, b]) == [a.weight, b.weight];
    SumTwo(a.weight, b.weight);
  }

  lemma SumTwo(x: nat, y: nat)
    ensures Sum([x, y]) == x + y && Sum([x]) == x
  {
    assert [x, y][1..] == [y] && [y][1..] == [] && [x][1..] == [];
    assert Sum([y]) == y && Sum([x]) == x;
  }

  lemma OptimizeLeaf(text: string, r: Route)
    ensures Optimize(LeafFor(text, r)) == Weighted(1, LeafFor(text, r))
  {
    assert GET in LeafFor(text, r).routes;
    OptimizeIs(LeafFor(text, r), []);
    NodesOf(Weighted(0, Leaf("")), Weighted(0, Leaf("")));
    WeightsOf(Weighted(0, Leaf("")), Weighted(0, Leaf("")));
  }

  lemma OptimizeOne(n: Node, w: Weighted<Node>)
    requires |n.statics| == 1 && w == Optimize(n.statics[0])
    ensures Optimize(n) == Weighted(w.weight + OwnWeight(n), WithStatics(n, [w.node]))
  {
    OptimizeIs(n, [w]);
    SortOne(w);
    NodesOf(w, w);
    WeightsOf(w, w);
  }

  lemma OptimizeTwo(n: Node, a: Weighted<Node>, b: Weighted<Node>)
    requires |n.statics| == 2 && a == Optimize(n.statics[0]) && b == Optimize(n.statics[1])
    ensures Optimize(n) == Weighted(
      a.weight + b.weight + OwnWeight(n),
      WithStatics(n, if a.weight >= b.weight then [a.node, b.node] else [b.node, a.node]))
  {
    OptimizeIs(n, [a, b]);
    SortTwo(a, b);
    NodesOf(a, b);
    NodesOf(b, a);
    WeightsOf(a, b);
  }

  // ---------------------------------------------------------------- a split that loses a route

  const ROUTE_A := TextRoute("/a", 1)
  const ROUTE_B := TextRoute("/b", 2)
  const ROUTE_X := Route(GET, [Token(Static, "/"), Token(Param, "x")], 3)

  lemma TwoLeaves()
    ensures Run([Register(ROUTE_A), Register(ROUTE_B)]) == Root([LeafFor("/a", ROUTE_A), LeafFor("/b", ROUTE_B)])
  {
    RegisterFirst("/a", 1);
    assert "/a"[1] != "/b"[1];
    RegisterBeside([Register(ROUTE_A)], [LeafFor("/a", ROUTE_A)], "/b", 2);
    Pair(Register(ROUTE_A), Register(ROUTE_B));
    Pair(LeafFor("/a", ROUTE_A), LeafFor("/b", ROUTE_B));
  }

  lemma Pair<T>(x: T, y: T)
    ensures [x] + [y] == [x, y]
  {
  }

  /** The node the split makes: it keeps `/a` and holds the parameter, but not `/b`. */
  function ParamNode(): Node {
    Node("/", map[], [LeafFor("a", ROUTE_A)], Some(LeafFor("", ROUTE_X)), map[])
  }

  /** Splitting on "/" puts a node with that text where the first child was. */
  lemma SplitFirst(n: Node, r: Route, rest: seq<Token>)
    requires |n.statics| == 2 && n.statics[0] == LeafFor("/a", ROUTE_A) && "/b" <= n.statics[1].prefix
    ensures InsertStatic(n, r, "/", rest).node
         == n.(statics := [Insert(Leaf("/").(statics := [LeafFor("a", ROUTE_A)]), r, rest).node, n.statics[1]])
    ensures !SplitSafeText(n, "/", rest)
  {
    var ns := n.statics;
    assert FirstPrefix(ns, "/") == 2 by { assert !("/a" <= "/") && !(ns[1].prefix <= "/"); }
    assert FirstExtension(ns, "/") == 0;
    assert "/" <= "/b" <= ns[1].prefix;
    assert "/a"[1..] == "a" && Split(ns[0], "/") == Leaf("/").(statics := [LeafFor("a", ROUTE_A)]);
    var c := Insert(Split(ns[0], "/"), r, rest).node;
    assert ns[0 := c] == [c, ns[1]];
  }

  lemma ParamInserted()
    ensures Insert(Leaf("/").(statics := [LeafFor("a", ROUTE_A)]), ROUTE_X, [Token(Param, "x")]).node == ParamNode()
  {
    assert [Token(Param, "x")][1..] == [];
    InsertLeaf("", ROUTE_X);
  }

  lemma OptimizeParamNode()
    ensures Optimize(ParamNode()) == Weighted(2, ParamNode())
  {
    OptimizeLeaf("a", ROUTE_A);
    OptimizeLeaf("", ROUTE_X);
    OptimizeOne(ParamNode(), Weighted(1, LeafFor("a", ROUTE_A)));
  }

  lemma LookupInParamNode()
    ensures Find(ParamNode(), GET, "b") == Some(ROUTE_X)
  {
    assert "a"[0] != "b"[0] && FirstPrefix([LeafFor("a", ROUTE_A)], "b") == 1 && AfterSegment("b") == "";
    assert Find(LeafFor("", ROUTE_X), GET, "") == Some(ROUTE_X);
  }

  lemma LookupAfterSplit(n: Node)
    requires n == Root([ParamNode(), LeafFor("/b", ROUTE_B)])
    ensures Find(n, GET, "/b") == Some(ROUTE_X)
  {
    LookupInParamNode();
    assert "/b"[1..] == "b";
    assert FirstPrefix(n.statics, "/b") == 0 by { assert n.statics[0].prefix == "/" <= "/b"; }
    assert FindStatic(n, GET, "/b") == Find(ParamNode(), GET, "b");
  }

  /** Registering `/a`, `/b` and then `/{x}` splits on "/", which starts both texts: from then on `/b` is
      served by the parameter route although its own route is registered, also once the server is built. */
  lemma SplitLosesSibling()
    ensures
      var ops := [Register(ROUTE_A), Register(ROUTE_B), Register(ROUTE_X), Reorder];
      Find(Run(ops), GET, "/b") == Some(ROUTE_X) && !Safe(ops)
  {
    var two := [Register(ROUTE_A), Register(ROUTE_B)];
    var three := two + [Register(ROUTE_X)];
    var ops := [Register(ROUTE_A), Register(ROUTE_B), Register(ROUTE_X), Reorder];
    TwoLeaves();
    RunSnoc(two, Register(ROUTE_X));
    assert ROUTE_X.tokens[1..] == [Token(Param, "x")];
    SplitFirst(Run(two), ROUTE_X, [Token(Param, "x")]);
    ParamInserted();
    assert Run(three) == Root([ParamNode(), LeafFor("/b", ROUTE_B)]);
    RunSnoc(three, Reorder);
    OptimizeParamNode();
    OptimizeLeaf("/b", ROUTE_B);
    OptimizeTwo(Run(three), Weighted(2, ParamNode()), Weighted(1, LeafFor("/b", ROUTE_B)));
    assert three + [Reorder] == ops;
    LookupAfterSplit(Run(ops));
    assert ops[..2] == two && ops[2] == Register(ROUTE_X);
  }

  // ---------------------------------------------------------------- a split that reordering mends

  const ROUTE_B1 := TextRoute("/b1", 4)
  const ROUTE_B2 := TextRoute("/b2", 5)
  const ROUTE_S := TextRoute("/", 3)

  /** What `/b`, `/b1` and `/b2` make below a text. */
  function BranchB(prefix: string): Node {
    LeafFor(prefix, ROUTE_B).(statics := [LeafFor("1", ROUTE_B1), LeafFor("2", ROUTE_B2)])
  }

  function SlashNode(): Node {
    LeafFor("/", ROUTE_S).(statics := [LeafFor("a", ROUTE_A)])
  }

  /** Inserting "1" and then "2" below a leaf for `/b`. */
  lemma BranchGrows(prefix: string)
    ensures
      var one := InsertStatic(LeafFor(prefix, ROUTE_B), ROUTE_B1, "1", []).node;
      InsertStatic(one, ROUTE_B2, "2", []).node == BranchB(prefix) && one.prefix == prefix
  {
    OnlyLeaf(LeafFor(prefix, ROUTE_B), ROUTE_B1, "1");
    assert "1"[0] != "2"[0];
    SecondLeaf(LeafFor(prefix, ROUTE_B).(statics := [LeafFor("1", ROUTE_B1)]), LeafFor("1", ROUTE_B1), ROUTE_B2, "2");
  }

  /** `/b1` or `/b2` goes below a second child that is `/b`'s. */
  lemma BelowSecond(n: Node, c: Node, r: Route, text: string)
    requires |n.statics| == 2 && n.statics[0] == LeafFor("/a", ROUTE_A) && n.statics[1] == c && c.prefix == "/b" <= text
    ensures InsertStatic(n, r, text, []).node
         == n.(statics := [LeafFor("/a", ROUTE_A), InsertStatic(c, r, text[2..], []).node])
  {
    assert "/a"[1] != "/b"[1] && text[1] == "/b"[1];
    assert FirstPrefix(n.statics, text) == 1;
    InsertUnder(n, 1, r, text, []);
    var d := InsertStatic(c, r, text[2..], []).node;
    assert n.statics[1 := d] == [LeafFor("/a", ROUTE_A), d];
  }

  function MendedOps(): seq<Op> {
    [Register(ROUTE_A), Register(ROUTE_B)] + [Register(ROUTE_B1)] + [Register(ROUTE_B2)] + [Register(ROUTE_S)]
  }

  lemma FourRegistered()
    ensures Run([Register(ROUTE_A), Register(ROUTE_B)] + [Register(ROUTE_B1)] + [Register(ROUTE_B2)])
         == Root([LeafFor("/a", ROUTE_A), BranchB("/b")])
  {
    var two := [Register(ROUTE_A), Register(ROUTE_B)];
    TwoLeaves();
    BranchGrows("/b");
    assert "/b1"[2..] == "1" && "/b2"[2..] == "2";
    var one := InsertStatic(LeafFor("/b", ROUTE_B), ROUTE_B1, "1", []).node;
    RunSnoc(two, Register(ROUTE_B1));
    RegisterText(Run(two), "/b1", 4);
    BelowSecond(Run(two), LeafFor("/b", ROUTE_B), ROUTE_B1, "/b1");
    var three := two + [Register(ROUTE_B1)];
    assert Run(three) == Root([LeafFor("/a", ROUTE_A), one]);
    RunSnoc(three, Register(ROUTE_B2));
    RegisterText(Run(three), "/b2", 5);
    BelowSecond(Run(three), one, ROUTE_B2, "/b2");
  }

  lemma FiveRegistered()
    ensures Run(MendedOps()) == Root([SlashNode(), BranchB("/b")])
  {
    var four := [Register(ROUTE_A), Register(ROUTE_B)] + [Register(ROUTE_B1)] + [Register(ROUTE_B2)];
    FourRegistered();
    RunSnoc(four, Register(ROUTE_S));
    RegisterText(Run(four), "/", 3);
    SplitFirst(Run(four), ROUTE_S, []);
    assert Insert(Leaf("/").(statics := [LeafFor("a", ROUTE_A)]), ROUTE_S, []).node == SlashNode();
  }

  /** The heavier `/b` is put first, where "/" no longer hides it. */
  lemma FiveReordered()
    ensures Run(MendedOps() + [Reorder]) == Root([BranchB("/b"), SlashNode()])
  {
    FiveRegistered();
    RunSnoc(MendedOps(), Reorder);
    OptimizeLeaf("a", ROUTE_A);
    OptimizeLeaf("1", ROUTE_B1);
    OptimizeLeaf("2", ROUTE_B2);
    assert GET in SlashNode().routes && GET in BranchB("/b").routes;
    OptimizeOne(SlashNode(), Weighted(1, LeafFor("a", ROUTE_A)));
    OptimizeTwo(BranchB("/b"), Weighted(1, LeafFor("1", ROUTE_B1)), Weighted(1, LeafFor("2", ROUTE_B2)));
    OptimizeTwo(Run(MendedOps()), Weighted(2, SlashNode()), Weighted(3, BranchB("/b")));
  }

  /** The only path that a text route fits is its text. */
  lemma TextFits(text: string, service: nat, p: string)
    ensures Matches(ShapeOf(TextRoute(text, service).tokens), p) <==> p == text
    ensures ShapeOf(TextRoute(text, service).tokens) == Prepend(text, End)
  {
    var ts := TextRoute(text, service).tokens;
    assert ts[1..] == [];
    MatchesText(text, End, p);
  }

  /** A text route that child `i` sees of the rest of its text, the node sees of the whole. */
  lemma TextBelow(n: Node, i: nat, text: string, rest: string, r: Route)
    requires i < |n.statics| && n.statics[i].prefix != "" && text == n.statics[i].prefix + rest
    requires Sees(n.statics[i], rest, Prepend(rest, End), r)
    requires forall k | 0 <= k < i :: !(n.statics[k].prefix <= text)
    ensures Sees(n, text, Prepend(text, End), r)
  {
    SeenBelow(n, i, rest, Prepend(rest, End), r);
    PrependConcat(n.statics[i].prefix, rest, End);
  }

  /** In the reordered tree the lookup of each text comes by its route. */
  lemma MendedSees(q: Route, p: string)
    requires q in [ROUTE_A, ROUTE_B, ROUTE_B1, ROUTE_B2, ROUTE_S] && q == TextRoute(p, q.service)
    ensures Sees(Root([BranchB("/b"), SlashNode()]), p, Prepend(p, End), q)
  {
    if q == ROUTE_S || q == ROUTE_A {
      SeesSlash(Root([BranchB("/b"), SlashNode()]), SlashNode(), q, p);
    } else {
      SeesBranch(Root([BranchB("/b"), SlashNode()]), BranchB("/b"), q, p);
    }
  }

  lemma SeesSlash(n: Node, c: Node, q: Route, p: string)
    requires |n.statics| == 2 && n.statics[0].prefix == "/b" && n.statics[1] == c == SlashNode()
    requires (q == ROUTE_S && p == "/") || (q == ROUTE_A && p == "/a")
    ensures Sees(n, p, Prepend(p, End), q)
  {
    if q == ROUTE_A { TextBelow(c, 0, p[1..], "", q); }
    TextBelow(n, 1, p, p[1..], q);
  }

  lemma SeesBranch(n: Node, c: Node, q: Route, p: string)
    requires n.statics != [] && n.statics[0] == c == BranchB("/b")
    requires (q == ROUTE_B && p == "/b") || (q == ROUTE_B1 && p == "/b1") || (q == ROUTE_B2 && p == "/b2")
    ensures Sees(n, p, Prepend(p, End), q)
  {
    var rest := p[2..];
    if q == ROUTE_B1 {
      TextBelow(c, 0, rest, "", q);
    } else if q == ROUTE_B2 {
      assert rest[0] == '2' && "1"[0] == '1';
      TextBelow(c, 1, rest, "", q);
    }
    TextBelow(n, 0, p, rest, q);
  }

  lemma MendedMember(q: Route, m: Verb, p: string)
    requires q in Everything(MendedOps() + [Reorder]) && Candidate(q, m, p)
    ensures Sees(Root([BranchB("/b"), SlashNode()]), p, ShapeOf(q.tokens), q)
  {
    MendedRoutes(q);
    TextFits(q.tokens[0].value, q.service, p);
    MendedSees(q, p);
  }

  lemma MendedRoutes(q: Route)
    requires q in Everything(MendedOps() + [Reorder])
    ensures q in [ROUTE_A, ROUTE_B, ROUTE_B1, ROUTE_B2, ROUTE_S]
  {
    var ops := MendedOps() + [Reorder];
    var i :| 0 <= i < |ops| && ops[i].Register? && ops[i].route == q;
  }

  lemma TextWellFormed(text: string, service: nat)
    requires text != "" && forall i | 0 <= i < |text| :: IsPlain(text[i]) || text[i] == '/'
    ensures WellFormed(TextRoute(text, service).tokens)
  {
    PlainText(text, true);
    ChainedAppend([], Token(Static, text));
    assert [] + [Token(Static, text)] == [Token(Static, text)];
  }

  lemma {:induction false} PlainText(text: string, slashes: bool)
    requires forall i | 0 <= i < |text| :: IsPlain(text[i]) || (slashes && text[i] == '/')
    ensures IsText(text, slashes)
  {
    if text == "" {
    } else {
      PlainText(text[1..], slashes);
    }
  }

  lemma MendedParsed()
    ensures Parsed(MendedOps() + [Reorder])
  {
    var ops := MendedOps() + [Reorder];
    forall i | 0 <= i < |ops| && ops[i].Register? ensures WellFormed(ops[i].route.tokens) {
      MendedRoutes(ops[i].route);
      var q := ops[i].route;
      TextWellFormed(q.tokens[0].value, q.service);
    }
  }

  /** After the split on "/" the lookup of "/b" goes below it and finds nothing. */
  lemma MissesB(n: Node)
    requires |n.statics| == 2 && n.statics[0] == SlashNode() && n.param.None? && n.wildcard == map[]
    ensures Find(n, GET, "/b") == None
  {
    assert "/b"[1..] == "b" && "a"[0] != "b"[0];
    assert FirstPrefix(n.statics, "/b") == 0 by { assert n.statics[0].prefix == "/" <= "/b"; }
    assert FirstPrefix(SlashNode().statics, "b") == 1;
    assert FindStatic(n, GET, "/b") == Find(SlashNode(), GET, "b") == None;
  }

  /** `/a`, `/b`, `/b1`, `/b2` and then `/`: the split on "/" leaves `/b` and what is below it out of reach.
      Reordering puts the heavier `/b` in front, and from then on every lookup is right, although the run
      was not safe: for a built server safety is sufficient but not necessary. */
  lemma ReorderMendsSplit()
    ensures
      var ops := MendedOps();
      && !Safe(ops) && !Faithful(Run(ops), Everything(ops))
      && Faithful(Run(ops + [Reorder]), Everything(ops))
  {
    var ops := MendedOps();
    var four := [Register(ROUTE_A), Register(ROUTE_B)] + [Register(ROUTE_B1)] + [Register(ROUTE_B2)];
    FourRegistered();
    SplitFirst(Run(four), ROUTE_S, []);
    assert ops[..4] == four && ops[4] == Register(ROUTE_S) && ROUTE_S.tokens[1..] == [];
    FiveRegistered();
    MissesB(Run(ops));
    EverythingMember(ops);
    TextFits("/b", 2, "/b");
    assert ops[1] == Register(ROUTE_B) && Candidate(ROUTE_B, GET, "/b");
    assert !IsAnswer(Everything(ops), GET, "/b", Find(Run(ops), GET, "/b"));
    MendedFaithful();
  }

  lemma MendedFaithful()
    ensures Faithful(Run(MendedOps() + [Reorder]), Everything(MendedOps()))
  {
    var ops := MendedOps() + [Reorder];
    FiveReordered();
    MendedParsed();
    forall q, m, p | q in Everything(ops) && Candidate(q, m, p) ensures q in Seen(ops, p) { MendedMember(q, m, p); }
    FaithfulIffOutranked(ops);
    EverythingSnoc(ops);
    assert ops[..|ops| - 1] == MendedOps();
  }

  // ---------------------------------------------------------------- what takes precedence

  const POST := Known(1)
  const ROUTE_ANY := Route(Any, [Token(Static, "/a")], 7)
  const ROUTE_REST := Route(GET, [Token(Static, "/"), Token(Wildcard, "w")], 8)

  lemma FourShapes(p: string)
    ensures ShapeOf(ROUTE_A.tokens) == ShapeOf(ROUTE_ANY.tokens) == Prepend("/a", End) == Text('/', Text('a', End))
    ensures ShapeOf(ROUTE_X.tokens) == Text('/', Par(End)) && ShapeOf(ROUTE_REST.tokens) == Text('/', Wild)
  {
    TextFits("/a", 1, p);
    assert "/a"[1..] == "a" && "a"[1..] == "" && "/"[1..] == "";
    assert ROUTE_X.tokens[1..] == [Token(Param, "x")] && [Token(Param, "x")][1..] == [];
    assert ROUTE_REST.tokens[1..] == [Token(Wildcard, "w")];
    assert Prepend("/", Par(End)) == Text('/', Par(End)) && Prepend("/", Wild) == Text('/', Wild);
  }

  predicate AmongFour(r: Route) {
    r == ROUTE_A || r == ROUTE_ANY || r == ROUTE_X || r == ROUTE_REST
  }

  lemma BehindSlash(s: Shape, t: string)
    ensures Matches(Text('/', s), "/" + t) <==> Matches(s, t)
  {
    assert ("/" + t)[1..] == t;
  }

  /** Which paths the four match. */
  lemma FourMatch(r: Route, t: string)
    requires AmongFour(r)
    ensures Matches(ShapeOf(r.tokens), "/" + t) <==>
      if r == ROUTE_X then t != "" && AfterSegment(t) == "" else r == ROUTE_REST || t == "a"
  {
    FourShapes(t);
    BehindSlash(Par(End), t);
    BehindSlash(Wild, t);
    BehindSlash(Text('a', End), t);
    if t != "" && t[0] == 'a' { assert t == "a" + t[1..]; }
  }

  /** With `GET /a`, `/a` for every method, `GET /{x}` and `GET /#w`: the exact method comes before the
      others, text before a parameter, a parameter before the wildcard, and a parameter takes one segment. */
  lemma Priorities(routes: set<Route>, t: string)
    requires forall r :: r in routes <==> AmongFour(r)
    ensures IsAnswer(routes, GET, "/" + t, Some(
      if t == "a" then ROUTE_A else if t != "" && AfterSegment(t) == "" then ROUTE_X else ROUTE_REST))
    ensures IsAnswer(routes, POST, "/" + t, if t == "a" then Some(ROUTE_ANY) else None)
    ensures DistinctKeys(routes)
  {
    forall r, m | AmongFour(r)
      ensures Candidate(r, m, "/" + t) <==>
        Serves(r, m) && if r == ROUTE_X then t != "" && AfterSegment(t) == "" else r == ROUTE_REST || t == "a"
    {
      FourMatch(r, t);
    }
    FourRanked();
    AnswersFour(routes, "/" + t, t == "a", t != "" && AfterSegment(t) == "");
  }

  lemma AnswersFour(routes: set<Route>, p: string, text: bool, segment: bool)
    requires forall r :: r in routes <==> AmongFour(r)
    requires forall r, m | AmongFour(r) :: Candidate(r, m, p) <==>
      Serves(r, m) && if r == ROUTE_X then segment else r == ROUTE_REST || text
    ensures IsAnswer(routes, GET, p, Some(if text then ROUTE_A else if segment then ROUTE_X else ROUTE_REST))
    ensures IsAnswer(routes, POST, p, if text then Some(ROUTE_ANY) else None)
  {
    FourRanked();
  }

  lemma FourRanked()
    ensures forall r | AmongFour(r) :: Preferred(GET, ShapeOf(ROUTE_A.tokens), GET, ShapeOf(r.tokens), r.verb)
    ensures forall r | r == ROUTE_X || r == ROUTE_REST ::
      Preferred(GET, ShapeOf(ROUTE_X.tokens), GET, ShapeOf(r.tokens), GET)
    ensures Preferred(GET, ShapeOf(ROUTE_REST.tokens), GET, ShapeOf(ROUTE_REST.tokens), GET)
    ensures Preferred(POST, ShapeOf(ROUTE_ANY.tokens), Any, ShapeOf(ROUTE_ANY.tokens), Any)
    ensures forall q, r | AmongFour(q) && AmongFour(r) && SameKey(q, r) :: q == r
  {
    FourShapes("");
  }

  // ---------------------------------------------------------------- a duplicate that is taken

  /** `/a`, `/b`, `/`, and `/b` a second time: the first `/b` is out of reach, so the second is not refused. */
  lemma DuplicateTaken()
    ensures
      var ops := [Register(ROUTE_A), Register(ROUTE_B)] + [Register(ROUTE_S)];
      var again := TextRoute("/b", 6);
      && ROUTE_B in Everything(ops) && SameKey(ROUTE_B, again)
      && Insert(Run(ops), again, again.tokens).ok
  {
    var two := [Register(ROUTE_A), Register(ROUTE_B)];
    var again := TextRoute("/b", 6);
    TwoLeaves();
    RunSnoc(two, Register(ROUTE_S));
    RegisterText(Run(two), "/", 3);
    SplitFirst(Run(two), ROUTE_S, []);
    var n := Run(two + [Register(ROUTE_S)]);
    assert n == Root([SlashNode(), LeafFor("/b", ROUTE_B)]);
    assert again.tokens[1..] == [] && "/b"[1..] == "b" && "a"[0] != "b"[0];
    assert FirstPrefix(n.statics, "/b") == 0 by { assert n.statics[0].prefix == "/" <= "/b"; }
    NoneOf(SlashNode().statics, "b");
    RoomBeside(SlashNode(), again, "b", []);
    assert Insert(n, again, again.tokens) == InsertStatic(n, again, "/b", []);
    EverythingMember(two + [Register(ROUTE_S)]);
    assert (two + [Register(ROUTE_S)])[1] == Register(ROUTE_B);
    assert again.tokens == ROUTE_B.tokens;
  }
}
