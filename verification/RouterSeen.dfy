/** Any run, with `optimize` anywhere: which stored routes the lookup of one path comes by, that its
    answer is the plain search over those, and exactly when that is the plain search over all. */
module RouterSeen {
  import opened Basics
  import opened PathTokens
  import opened RouteShape
  import opened RouterTree
  import opened RouterEntries
  import opened RouterOptimize
  import opened RouterRuns
  import opened RouterReach

  /** `n` stores `r` under `s`, and the lookup of `p` comes by: wherever the way there goes through a text
      child, it is the first sibling that starts what is left of the path. */
  ghost predicate Sees(n: Node, p: string, s: Shape, r: Route)
    decreases n, 1
  {
    || (s.Wild? && InTable(n.wildcard, r))
    || if p == "" then s.End? && InTable(n.routes, r)
       else SeesBelow(n, p, s, r) || (s.Par? && n.param.Some? && Sees(n.param.value, AfterSegment(p), s.rest, r))
  }

  ghost predicate SeesBelow(n: Node, p: string, s: Shape, r: Route)
    decreases n, 0
  {
    var i := FirstPrefix(n.statics, p);
    && i < |n.statics|
    && var t := Strip(n.statics[i].prefix, s);
    t.Some? && Sees(n.statics[i], p[|n.statics[i].prefix|..], t.value, r)
  }

  /** What the lookup comes by is stored there, and its shape matches the path. */
  lemma {:induction false} SeenMatches(n: Node, p: string, s: Shape, r: Route)
    requires Sees(n, p, s, r)
    ensures Has(n, s, r) && Matches(s, p)
    decreases n
  {
    if p != "" && SeesBelow(n, p, s, r) {
      var i := FirstPrefix(n.statics, p);
      var x := n.statics[i].prefix;
      SeenMatches(n.statics[i], p[|x|..], Strip(x, s).value, r);
      StripIs(x, s);
      MatchesText(x, Strip(x, s).value, p);
      assert HasBelow(n.statics[i], s, r);
    } else if p != "" && s.Par? {
      SeenMatches(n.param.value, AfterSegment(p), s.rest, r);
    }
  }

  /** No text child is empty, so the shapes below it start with text. */
  ghost predicate Spelled(n: Node)
    decreases n
  {
    && (n.param.Some? ==> Spelled(n.param.value))
    && forall i | 0 <= i < |n.statics| :: n.statics[i].prefix != "" && Spelled(n.statics[i])
  }

  // ---------------------------------------------------------------- the lookup is the search over what it sees

  lemma LiftSeen(n: Node, p: string, i: nat, t: Shape, r: Route)
    requires p != "" && i == FirstPrefix(n.statics, p) < |n.statics|
    requires Sees(n.statics[i], p[|n.statics[i].prefix|..], t, r)
    ensures Sees(n, p, Prepend(n.statics[i].prefix, t), r)
  {
    StripPrepend(n.statics[i].prefix, t);
    assert SeesBelow(n, p, Prepend(n.statics[i].prefix, t), r);
  }

  /** What child `i` sees of a path, the node sees of the path with the child's text in front. */
  lemma SeenBelow(n: Node, i: nat, p: string, s: Shape, r: Route)
    requires i < |n.statics| && n.statics[i].prefix != "" && Sees(n.statics[i], p, s, r)
    requires forall k | 0 <= k < i :: !(n.statics[k].prefix <= n.statics[i].prefix + p)
    ensures Sees(n, n.statics[i].prefix + p, Prepend(n.statics[i].prefix, s), r)
  {
    var x := n.statics[i].prefix;
    assert (x + p)[|x|..] == p;
    LiftSeen(n, x + p, i, s, r);
  }

  /** Two levels down: child 1 of child 0. */
  lemma SeenTwoBelow(n: Node, x: string, y: string, t: string, s: Shape, r: Route)
    requires n.statics != [] && |n.statics[0].statics| > 1
    requires n.statics[0].prefix == x != "" && n.statics[0].statics[1].prefix == y != ""
    requires !(n.statics[0].statics[0].prefix <= y + t) && Sees(n.statics[0].statics[1], t, s, r)
    ensures Sees(n, x + y + t, Prepend(x + y, s), r)
  {
    SeenBelow(n.statics[0], 1, t, s, r);
    SeenBelow(n, 0, y + t, Prepend(y, s), r);
    PrependConcat(x, y, s);
    Associative(x, y, t);
  }

  lemma LiftPar(n: Node, p: string, s: Shape, r: Route)
    requires p != "" && n.param.Some? && Sees(n.param.value, AfterSegment(p), s, r)
    ensures Sees(n, p, Par(s), r)
  {
  }

  /** What a lookup returns, it has come by. */
  lemma {:induction false} FoundSeen(n: Node, m: Verb, p: string) returns (s: Shape)
    requires Keyed(n) && Find(n, m, p).Some?
    ensures Sees(n, p, s, Find(n, m, p).value) && Serves(Find(n, m, p).value, m)
    decreases n
  {
    if p == "" {
      s := if FindRoute(n.routes, m).Some? then End else Wild;
    } else if FindStatic(n, m, p).Some? {
      s := FoundBelow(n, m, p);
    } else if FindParam(n, m, p).Some? {
      s := FoundSeen(n.param.value, m, AfterSegment(p));
      s := Par(s);
    } else {
      s := Wild;
    }
  }

  lemma {:induction false} FoundBelow(n: Node, m: Verb, p: string) returns (s: Shape)
    requires Keyed(n) && p != "" && FindStatic(n, m, p).Some?
    ensures Sees(n, p, s, FindStatic(n, m, p).value) && Serves(FindStatic(n, m, p).value, m)
    ensures Spelled(n) ==> s.Text?
    decreases n, 0
  {
    var i := FirstPrefix(n.statics, p);
    var t := FoundSeen(n.statics[i], m, p[|n.statics[i].prefix|..]);
    LiftSeen(n, p, i, t, FindStatic(n, m, p).value);
    s := Prepend(n.statics[i].prefix, t);
  }

  /** If the lookup comes by a route that serves the method, it succeeds with one at least as preferred. */
  lemma {:induction false} SeenBest(n: Node, m: Verb, p: string, s: Shape, r: Route) returns (t: Shape)
    requires Keyed(n) && Spelled(n) && Sees(n, p, s, r) && Serves(r, m)
    ensures Find(n, m, p).Some?
    ensures var found := Find(n, m, p).value; Sees(n, p, t, found) && Preferred(m, t, found.verb, s, r.verb)
    decreases n
  {
    if p == "" {
      t := if FindRoute(n.routes, m).Some? then End else Wild;
    } else if s.Text? {
      t := SeenBestBelow(n, m, p, s, r);
    } else if FindStatic(n, m, p).Some? {
      t := FoundBelow(n, m, p);
      NotBelow(n, p, s, r);
    } else if s.Par? {
      NotBelow(n, p, s, r);
      t := SeenBest(n.param.value, m, AfterSegment(p), s.rest, r);
      t := Par(t);
    } else {
      NotBelow(n, p, s, r);
      t := SeenBestWildcard(n, m, p, r);
    }
  }

  lemma NotBelow(n: Node, p: string, s: Shape, r: Route)
    requires Spelled(n) && !s.Text?
    ensures !SeesBelow(n, p, s, r)
  {
  }

  lemma {:induction false} SeenBestBelow(n: Node, m: Verb, p: string, s: Shape, r: Route) returns (t: Shape)
    requires Keyed(n) && Spelled(n) && p != "" && SeesBelow(n, p, s, r) && Serves(r, m)
    ensures FindStatic(n, m, p).Some? && Find(n, m, p) == FindStatic(n, m, p)
    ensures var found := Find(n, m, p).value; Sees(n, p, t, found) && Preferred(m, t, found.verb, s, r.verb)
    decreases n, 0
  {
    var i := FirstPrefix(n.statics, p);
    var x := n.statics[i].prefix;
    var s' := Strip(x, s).value;
    var t' := SeenBest(n.statics[i], m, p[|x|..], s', r);
    assert Find(n, m, p) == FindStatic(n, m, p) == Find(n.statics[i], m, p[|x|..]);
    LiftSeen(n, p, i, t', Find(n, m, p).value);
    StripIs(x, s);
    StripPrepend(x, t');
    PrecedesAfter(x, t', s');
    t := Prepend(x, t');
  }

  lemma SeenBestWildcard(n: Node, m: Verb, p: string, r: Route) returns (t: Shape)
    requires Keyed(n) && p != "" && FindStatic(n, m, p).None? && InTable(n.wildcard, r) && Serves(r, m)
    ensures Find(n, m, p).Some?
    ensures var found := Find(n, m, p).value; Sees(n, p, t, found) && Preferred(m, t, found.verb, Wild, r.verb)
  {
    if FindParam(n, m, p).Some? {
      t := FoundSeen(n.param.value, m, AfterSegment(p));
      t := Par(t);
    } else {
      t := Wild;
    }
  }

  // ---------------------------------------------------------------- no run makes an empty text child

  lemma {:induction false} InsertKeepsSpelled(n: Node, r: Route, rest: seq<Token>)
    requires Spelled(n)
    ensures Spelled(Insert(n, r, rest).node)
    decreases |rest|, 0, n
  {
    if rest == [] {
    } else {
      match rest[0].kind
      case Static => InsertTextKeepsSpelled(n, r, rest[0].value, rest[1..]);
      case Param => InsertKeepsSpelled(if n.param.Some? then n.param.value else Leaf(""), r, rest[1..]);
      case Wildcard =>
    }
  }

  lemma {:induction false} InsertTextKeepsSpelled(n: Node, r: Route, text: string, rest: seq<Token>)
    requires Spelled(n)
    ensures Spelled(InsertStatic(n, r, text, rest).node)
    decreases |rest|, 1, n
  {
    var ns, i, j := n.statics, FirstPrefix(n.statics, text), FirstExtension(n.statics, text);
    if text == "" {
      InsertKeepsSpelled(n, r, rest);
    } else if i < |ns| {
      InsertTextKeepsSpelled(ns[i], r, text[|ns[i].prefix|..], rest);
      InsertStaticKeepsPrefix(ns[i], r, text[|ns[i].prefix|..], rest);
    } else {
      var c := if j < |ns| then Split(ns[j], text) else Leaf(text);
      if j < |ns| { SpelledSplit(ns[j], text); }
      InsertKeepsSpelled(c, r, rest);
      InsertKeepsPrefix(c, r, rest);
    }
  }

  lemma SpelledSplit(c: Node, text: string)
    requires Spelled(c) && text < c.prefix
    ensures Spelled(Split(c, text))
  {
    assert Spelled(Split(c, text).statics[0]);
  }

  lemma {:induction false} OptimizeKeepsSpelled(n: Node)
    requires Spelled(n)
    ensures Spelled(Optimize(n).node)
    decreases n
  {
    if n.param.Some? { OptimizeKeepsSpelled(n.param.value); }
    forall k | 0 <= k < |Optimize(n).node.statics|
      ensures Optimize(n).node.statics[k].prefix != "" && Spelled(Optimize(n).node.statics[k])
    {
      var i := SortedMembers(n, k);
      OptimizeKeepsSpelled(n.statics[i]);
    }
  }

  lemma {:induction false} RunSpelled(ops: seq<Op>)
    ensures Spelled(Run(ops))
  {
    if ops == [] {
    } else {
      var k := |ops| - 1;
      RunSpelled(ops[..k]);
      match ops[k]
      case Register(r) => InsertKeepsSpelled(Run(ops[..k]), r, r.tokens);
      case Reorder => OptimizeKeepsSpelled(Run(ops[..k]));
    }
  }

  // ---------------------------------------------------------------- whole runs

  /** The registered routes that the lookup of a path comes by. */
  ghost function Seen(ops: seq<Op>, p: string): set<Route> {
    set r | r in Everything(ops) && Sees(Run(ops), p, ShapeOf(r.tokens), r)
  }

  lemma SeenRegistered(ops: seq<Op>, p: string, s: Shape, r: Route)
    requires Sees(Run(ops), p, s, r)
    ensures r in Seen(ops, p) && s == ShapeOf(r.tokens)
  {
    SeenMatches(Run(ops), p, s, r);
    HasIffCopies(Run(ops), s, r);
    RunConserves(ops, s, r);
    AcceptedWasRegistered(ops, r);
    EverythingMember(ops);
  }

  /** Any run, safe or not, reordered or not: a lookup is the plain search over the routes it comes by. */
  lemma SeenAnswers(ops: seq<Op>, m: Verb, p: string)
    requires Parsed(ops)
    ensures IsAnswer(Seen(ops, p), m, p, Find(Run(ops), m, p))
  {
    var n := Run(ops);
    RunKeyed(ops);
    RunSpelled(ops);
    if Find(n, m, p).Some? {
      var t := FoundSeen(n, m, p);
      SeenRegistered(ops, p, t, Find(n, m, p).value);
      SeenMatches(n, p, t, Find(n, m, p).value);
    }
    forall r | r in Seen(ops, p) && Candidate(r, m, p)
      ensures Find(n, m, p).Some? && Better(Find(n, m, p).value, r, m)
    {
      var t := SeenBest(n, m, p, ShapeOf(r.tokens), r);
      SeenRegistered(ops, p, t, Find(n, m, p).value);
    }
  }

  /** Wherever a lookup passes by a route that fits, it comes by one that fits and is at least as preferred. */
  ghost predicate Outranked(ops: seq<Op>) {
    forall q, m, p | q in Everything(ops) && q !in Seen(ops, p) && Candidate(q, m, p) ::
      CoveredBy(Seen(ops, p), q, m, p)
  }

  /** The exact condition for every run, so also for a built server: every lookup is right if and only if
      each route it misses is outranked by one it comes by. */
  lemma FaithfulIffOutranked(ops: seq<Op>)
    requires Parsed(ops)
    ensures Faithful(Run(ops), Everything(ops)) <==> Outranked(ops)
  {
    if Faithful(Run(ops), Everything(ops)) {
      forall q, m, p | q in Everything(ops) && q !in Seen(ops, p) && Candidate(q, m, p)
        ensures CoveredBy(Seen(ops, p), q, m, p)
      {
        SeenAnswers(ops, m, p);
        assert IsAnswer(Everything(ops), m, p, Find(Run(ops), m, p));
        assert Better(Find(Run(ops), m, p).value, q, m);
      }
    }
    if Outranked(ops) {
      forall m, p ensures IsAnswer(Everything(ops), m, p, Find(Run(ops), m, p)) {
        SeenAnswers(ops, m, p);
        CoveredAnswer(Seen(ops, p), Everything(ops), m, p, Find(Run(ops), m, p));
      }
    }
  }
}
