/** A server from end to end: the flat routes of nested scopes are registered one by one, the tree is
    reordered, and requests are answered as the nesting says. */
module ServerBuild {
  import opened Wrappers
  import opened PathTokens
  import opened PathGrammar
  import opened RequestPaths
  import opened RouteShape
  import opened RouterTree
  import opened RouterSplit
  import opened RouterOptimize
  import opened RouterRuns
  import opened RouterReach
  import opened RouterSeen
  import opened RouterHeap
  import opened RequestDispatch
  import S = ScopeFlatten

  /** The path of every endpoint is one the route parser accepts. */
  predicate PathsOk<Q, R>(es: seq<S.Endpoint<Q, R>>) {
    forall i | 0 <= i < |es| :: Parse(true, es[i].path).Some?
  }

  /** The router's view of an endpoint: its verb, its tokens, and which service it is. */
  function RouteAt<Q, R>(es: seq<S.Endpoint<Q, R>>, i: nat): Route
    requires i < |es|
  {
    var tokens := Parse(true, es[i].path);
    Route(es[i].verb, if tokens.Some? then tokens.value else [], i)
  }

  function Registrations<Q, R>(es: seq<S.Endpoint<Q, R>>): (ops: seq<Op>)
    ensures |ops| == |es| && forall i | 0 <= i < |es| :: ops[i] == Register(RouteAt(es, i))
  {
    seq(|es|, i requires 0 <= i < |es| => Register(RouteAt(es, i)))
  }

  /** Register everything, then reorder once. */
  function Built<Q, R>(es: seq<S.Endpoint<Q, R>>): seq<Op> {
    Registrations(es) + [Reorder]
  }

  predicate Fits<Q, R>(es: seq<S.Endpoint<Q, R>>, i: nat, m: Verb, p: string)
    requires i < |es|
  {
    Candidate(RouteAt(es, i), m, p)
  }

  predicate Outranks<Q, R>(es: seq<S.Endpoint<Q, R>>, i: nat, j: nat, m: Verb)
    requires i < |es| && j < |es|
  {
    var a, b := RouteAt(es, i), RouteAt(es, j);
    Preferred(m, ShapeOf(a.tokens), a.verb, ShapeOf(b.tokens), b.verb)
  }

  // ---------------------------------------------------------------- registration

  /** An endpoint is tried for its own method, or for every one if it is for any, and on the paths that
      match the pattern it was written with. */
  lemma FitsMeans<Q, R>(es: seq<S.Endpoint<Q, R>>, i: nat, m: Verb, p: string)
    requires i < |es| && Parse(true, es[i].path).Some?
    ensures RouteAt(es, i).service == i && Print(RouteAt(es, i).tokens) == es[i].path
    ensures Fits(es, i, m, p) <==>
      (es[i].verb == m || es[i].verb == Any) && Matches(ShapeOf(Parse(true, es[i].path).value), p)
  {
    PrintParse(true, es[i].path);
  }

  lemma ParsedRegistrations<Q, R>(es: seq<S.Endpoint<Q, R>>)
    requires PathsOk(es)
    ensures Parsed(Registrations(es)) && Parsed(Built(es))
  {
    forall i | 0 <= i < |es| ensures WellFormed(RouteAt(es, i).tokens) {
      PrintParse(true, es[i].path);
    }
  }

  lemma BuiltSafe<Q, R>(es: seq<S.Endpoint<Q, R>>)
    requires Safe(Registrations(es))
    ensures Safe(Built(es))
  {
    var ops := Built(es);
    forall i {:trigger ops[i]} | 0 <= i < |ops| && ops[i].Register?
      ensures SplitSafe(Run(ops[..i]), ops[i].route.tokens)
    {
      assert ops[..i] == Registrations(es)[..i] && ops[i] == Registrations(es)[i];
    }
  }

  /** The registry after building: all endpoints, when no two collide. */
  lemma RegisteredBuilt<Q, R>(es: seq<S.Endpoint<Q, R>>, r: Route)
    requires PathsOk(es) && Safe(Registrations(es)) && NoCollision(Registrations(es))
    ensures r in Registered(Built(es)) <==> exists i | 0 <= i < |es| :: r == RouteAt(es, i)
  {
    var ops := Registrations(es);
    ParsedRegistrations(es);
    assert Built(es)[..|es|] == ops && ops[..|es|] == ops;
    if r in Registered(ops) {
      var i := RegisteredSoFar(ops, |es|, r);
      assert r == RouteAt(es, i);
    }
    forall i | 0 <= i < |es| ensures RouteAt(es, i) in Registered(ops) {
      ApartAccepted(ops, i);
      AcceptedStays(ops, i, |es|);
    }
  }

  // ---------------------------------------------------------------- building and answering

  /** The first `k` calls succeed: each path parses, and the tree left so far takes the route. */
  predicate Succeeds<Q, R>(es: seq<S.Endpoint<Q, R>>, k: nat)
    requires k <= |es|
    decreases k
  {
    k == 0 || (Succeeds(es, k - 1) && Parse(true, es[k - 1].path).Some? && OkAt(Registrations(es), k - 1))
  }

  lemma {:induction false} SucceedsBefore<Q, R>(es: seq<S.Endpoint<Q, R>>, k: nat, n: nat)
    requires k <= n <= |es| && Succeeds(es, n)
    ensures Succeeds(es, k)
    decreases n
  {
    if k == n {
    } else {
      SucceedsBefore(es, k, n - 1);
    }
  }

  lemma FailsLater<Q, R>(es: seq<S.Endpoint<Q, R>>, k: nat)
    requires k <= |es| && !Succeeds(es, k)
    ensures !Succeeds(es, |es|)
  {
    if Succeeds(es, |es|) { SucceedsBefore(es, k, |es|); }
  }

  lemma {:induction false} SucceedsAll<Q, R>(es: seq<S.Endpoint<Q, R>>, k: nat)
    requires k <= |es| && PathsOk(es) && forall i | 0 <= i < k :: OkAt(Registrations(es), i)
    ensures Succeeds(es, k)
    decreases k
  {
    if k == 0 {
    } else {
      SucceedsAll(es, k - 1);
    }
  }

  /** With paths that parse and no unsafe split, the builder throws exactly when two endpoints collide. */
  lemma SucceedsIffApart<Q, R>(es: seq<S.Endpoint<Q, R>>)
    requires PathsOk(es) && Safe(Registrations(es))
    ensures Succeeds(es, |es|) <==> NoCollision(Registrations(es))
  {
    ParsedRegistrations(es);
    AcceptedIffApart(Registrations(es));
    if Succeeds(es, |es|) {
      forall k | 0 <= k < |es| ensures OkAt(Registrations(es), k) {
        SucceedsBefore(es, k + 1, |es|);
      }
    } else if NoCollision(Registrations(es)) {
      SucceedsAll(es, |es|);
    }
  }

  /** No endpoint before the `k`-th that is still in reach has its verb and shape. */
  ghost predicate Unmet<Q, R>(es: seq<S.Endpoint<Q, R>>, k: nat)
    requires k < |es|
  {
    forall q | q in Reached(Registrations(es)[..k]) :: !SameKey(q, RouteAt(es, k))
  }

  lemma OkIffUnmet<Q, R>(es: seq<S.Endpoint<Q, R>>, k: nat)
    requires PathsOk(es) && k < |es|
    ensures OkAt(Registrations(es), k) <==> Unmet(es, k)
  {
    ParsedRegistrations(es);
    assert Registrations(es)[k] == Register(RouteAt(es, k)) && WellFormed(RouteAt(es, k).tokens);
    RejectedIffReached(Registrations(es)[..k], RouteAt(es, k));
  }

  /** Safe splits or not, the builder throws exactly at a path that does not parse or at an endpoint that
      meets an earlier one still in reach. */
  lemma SucceedsIffUnmet<Q, R>(es: seq<S.Endpoint<Q, R>>)
    ensures Succeeds(es, |es|) <==> PathsOk(es) && forall k | 0 <= k < |es| :: Unmet(es, k)
  {
    SucceedsIffOk(es);
    if PathsOk(es) {
      forall k | 0 <= k < |es| ensures OkAt(Registrations(es), k) <==> Unmet(es, k) { OkIffUnmet(es, k); }
    }
  }

  lemma SucceedsIffOk<Q, R>(es: seq<S.Endpoint<Q, R>>)
    ensures Succeeds(es, |es|) <==> PathsOk(es) && forall k | 0 <= k < |es| :: OkAt(Registrations(es), k)
  {
    if Succeeds(es, |es|) {
      forall k | 0 <= k < |es| ensures Parse(true, es[k].path).Some? && OkAt(Registrations(es), k) {
        SucceedsBefore(es, k + 1, |es|);
      }
    } else if PathsOk(es) && forall k | 0 <= k < |es| :: OkAt(Registrations(es), k) {
      SucceedsAll(es, |es|);
    }
  }

  /** The builder: matchers are compiled, routes registered in order, and the first refusal throws. */
  method BuildServer<Q, R>(es: seq<S.Endpoint<Q, R>>) returns (router: Option<TreeNode>)
    ensures router.Some? <==> Succeeds(es, |es|)
    ensures router.Some? ==> fresh(router.value) && router.value.Valid() && router.value.Model() == Run(Built(es))
    ensures router.Some? ==> router.value.Model() == Optimize(Run(Registrations(es))).node
  {
    router := ServeAll(es);
    if router.None? { return; }
    LastRun(es);
    var _ := router.value.Reorder();
  }

  method ServeAll<Q, R>(es: seq<S.Endpoint<Q, R>>) returns (router: Option<TreeNode>)
    ensures router.Some? <==> Succeeds(es, |es|)
    ensures router.Some? ==>
      router.value.Valid() && fresh(router.value.repr) && router.value.Model() == Run(Registrations(es)[..|es|])
  {
    var root := new TreeNode("");
    FirstRun(es);
    for k := 0 to |es|
      invariant Succeeds(es, k)
      invariant root.Valid() && fresh(root.repr) && root.Model() == Run(Registrations(es)[..k])
    {
      var ok := Serve(root, es, k);
      if !ok {
        FailsLater(es, k + 1);
        return None;
      }
    }
    return Some(root);
  }

  /** Serving one route: its matcher is compiled and the tree takes it, or refuses. */
  method Serve<Q, R>(root: TreeNode, es: seq<S.Endpoint<Q, R>>, k: nat) returns (ok: bool)
    requires k < |es| && Succeeds(es, k) && root.Valid() && root.Model() == Run(Registrations(es)[..k])
    modifies root.repr
    ensures root.Valid() && fresh(root.repr - old(root.repr))
    ensures ok <==> Succeeds(es, k + 1)
    ensures ok ==> root.Model() == Run(Registrations(es)[..k + 1])
  {
    ghost var before := root.Model();
    var route := CompileRoute(es, k);
    if route.None? { return false; }
    assert root.Valid() && root.Model() == before;
    NextRun(es, k);
    assert route.value.tokens[0..] == route.value.tokens;
    ok := root.TryInsert(route.value, 0);
  }

  method CompileRoute<Q, R>(es: seq<S.Endpoint<Q, R>>, k: nat) returns (route: Option<Route>)
    requires k < |es|
    ensures route == if Parse(true, es[k].path).Some? then Some(RouteAt(es, k)) else None
  {
    AcceptsExactlyGrammar(true, es[k].path);
    var matcher := Compile(es[k].path);
    if matcher.None? { return None; }
    RouteIs(es, k, matcher.value.tokens);
    return Some(Route(es[k].verb, matcher.value.tokens, k));
  }

  lemma RouteIs<Q, R>(es: seq<S.Endpoint<Q, R>>, k: nat, tokens: seq<Token>)
    requires k < |es| && Grammatical(true, tokens) && Print(tokens) == es[k].path
    ensures Parse(true, es[k].path).Some? && RouteAt(es, k) == Route(es[k].verb, tokens, k)
  {
    ParsePrint(true, tokens);
  }

  lemma FirstRun<Q, R>(es: seq<S.Endpoint<Q, R>>)
    ensures Run(Registrations(es)[..0]) == Leaf("")
  {
  }

  lemma NextRun<Q, R>(es: seq<S.Endpoint<Q, R>>, k: nat)
    requires k < |es|
    ensures
      var r := RouteAt(es, k);
      var step := Insert(Run(Registrations(es)[..k]), r, r.tokens);
      Run(Registrations(es)[..k + 1]) == step.node && OkAt(Registrations(es), k) == step.ok
  {
    assert Registrations(es)[..k + 1][..k] == Registrations(es)[..k];
  }

  lemma LastRun<Q, R>(es: seq<S.Endpoint<Q, R>>)
    ensures Run(Built(es)) == Optimize(Run(Registrations(es)[..|es|])).node
  {
    assert Registrations(es)[..|es|] == Registrations(es);
    assert Built(es)[..|es|] == Registrations(es);
  }

  // ---------------------------------------------------------------- answering

  /** This route stands for an endpoint that fits the request and that no other fitting one outranks. */
  ghost predicate IsBest<Q, R>(es: seq<S.Endpoint<Q, R>>, r: Route, m: Verb, p: string) {
    && r.service < |es| && r == RouteAt(es, r.service) && Fits(es, r.service, m, p)
    && forall j | 0 <= j < |es| && Fits(es, j, m, p) :: Outranks(es, r.service, j, m)
  }

  /** The right outcome of a request. Nothing fits, and nothing is found; or a best endpoint is found, and
      it is served with the path's segments if they fit its pattern, else its match fails to unwrap. */
  ghost predicate IsRight<Q, R>(es: seq<S.Endpoint<Q, R>>, m: Verb, p: string, d: Dispatched) {
    match d
    case NotFound => forall i | 0 <= i < |es| :: !Fits(es, i, m, p)
    case Served(r, _) => IsBest(es, r, m, p) && SegmentsFit(ShapeOf(r.tokens), p) && ServedWith(d, r, p)
    case BadUnwrap(r) => IsBest(es, r, m, p) && !SegmentsFit(ShapeOf(r.tokens), p)
  }

  ghost predicate AnsweredRight<Q, R>(es: seq<S.Endpoint<Q, R>>, m: Verb, p: string) {
    IsRight(es, m, p, Answer(Run(Built(es)), m, p))
  }

  /** Right, and not by failing to unwrap. */
  ghost predicate AnsweredBest<Q, R>(es: seq<S.Endpoint<Q, R>>, m: Verb, p: string) {
    AnsweredRight(es, m, p) && !Answer(Run(Built(es)), m, p).BadUnwrap?
  }

  lemma EverythingBuilt<Q, R>(es: seq<S.Endpoint<Q, R>>, r: Route)
    ensures r in Everything(Built(es)) <==> exists i | 0 <= i < |es| :: r == RouteAt(es, i)
  {
    var ops := Built(es);
    forall i | 0 <= i < |es| ensures ops[i] == Register(RouteAt(es, i)) { assert ops[i] == Registrations(es)[i]; }
    if i :| 0 <= i < |es| && r == RouteAt(es, i) { assert ops[i].Register? && ops[i].route == r; }
  }

  /** The found route is a registered one, so it stands for its own endpoint. */
  lemma FoundIsEndpoint<Q, R>(es: seq<S.Endpoint<Q, R>>, m: Verb, p: string)
    requires PathsOk(es) && Find(Run(Built(es)), m, p).Some?
    ensures var r := Find(Run(Built(es)), m, p).value; r.service < |es| && r == RouteAt(es, r.service)
  {
    ParsedRegistrations(es);
    AnswerFound(Built(es), m, p);
    EverythingMember(Built(es));
    EverythingBuilt(es, Find(Run(Built(es)), m, p).value);
  }

  /** The lookup finds a best endpoint, or nothing if nothing fits. */
  ghost predicate FoundBest<Q, R>(es: seq<S.Endpoint<Q, R>>, m: Verb, p: string) {
    match Find(Run(Built(es)), m, p)
    case None => forall i | 0 <= i < |es| :: !Fits(es, i, m, p)
    case Some(r) => IsBest(es, r, m, p)
  }

  lemma FoundBestIsAnswer<Q, R>(es: seq<S.Endpoint<Q, R>>, m: Verb, p: string)
    requires PathsOk(es)
    ensures FoundBest(es, m, p) <==> IsAnswer(Everything(Built(es)), m, p, Find(Run(Built(es)), m, p))
  {
    var found, all := Find(Run(Built(es)), m, p), Everything(Built(es));
    forall i | 0 <= i < |es| ensures RouteAt(es, i) in all { EverythingBuilt(es, RouteAt(es, i)); }
    if found.Some? { FoundIsEndpoint(es, m, p); }
    if FoundBest(es, m, p) {
      forall r | r in all && Candidate(r, m, p) ensures found.Some? && Better(found.value, r, m) {
        EverythingBuilt(es, r);
        var i :| 0 <= i < |es| && r == RouteAt(es, i);
        assert Fits(es, i, m, p);
        assert Outranks(es, found.value.service, i, m);
      }
    }
  }

  /** What is served or fails to unwrap is the found route, so the outcome is right when the lookup is. */
  lemma RightIffFoundBest<Q, R>(es: seq<S.Endpoint<Q, R>>, m: Verb, p: string)
    requires PathsOk(es)
    ensures AnsweredRight(es, m, p) <==> FoundBest(es, m, p)
  {
    ParsedRegistrations(es);
    if Find(Run(Built(es)), m, p).Some? { AnswerFound(Built(es), m, p); }
  }

  /** Any server, any request: the outcome is right exactly when the lookup is the plain search. */
  lemma RightIffFound<Q, R>(es: seq<S.Endpoint<Q, R>>, m: Verb, p: string)
    requires PathsOk(es)
    ensures AnsweredRight(es, m, p) <==> IsAnswer(Everything(Built(es)), m, p, Find(Run(Built(es)), m, p))
  {
    RightIffFoundBest(es, m, p);
    FoundBestIsAnswer(es, m, p);
  }

  /** The outcome of every request to a built server is right if and only if each endpoint that some
      lookup passes by is outranked there by one it comes by. */
  lemma AlwaysRightIff<Q, R>(es: seq<S.Endpoint<Q, R>>)
    requires PathsOk(es)
    ensures (forall m, p :: AnsweredRight(es, m, p)) <==> Outranked(Built(es))
  {
    ParsedRegistrations(es);
    FaithfulIffOutranked(Built(es));
    forall m, p
      ensures AnsweredRight(es, m, p) <==> IsAnswer(Everything(Built(es)), m, p, Find(Run(Built(es)), m, p))
    {
      RightIffFound(es, m, p);
    }
  }

  /** Safe splits are enough, when no two endpoints collide. */
  lemma AnswersRight<Q, R>(es: seq<S.Endpoint<Q, R>>, m: Verb, p: string)
    requires PathsOk(es) && NoCollision(Registrations(es)) && Safe(Registrations(es))
    ensures AnsweredRight(es, m, p)
  {
    ParsedRegistrations(es);
    BuiltSafe(es);
    RunRefinesSearch(Built(es), m, p);
    forall r ensures r in Registered(Built(es)) <==> r in Everything(Built(es)) {
      RegisteredBuilt(es, r);
      EverythingBuilt(es, r);
    }
    assert Registered(Built(es)) == Everything(Built(es));
    RightIffFound(es, m, p);
  }

  // ---------------------------------------------------------------- served, whatever the request

  /** A path without braces and empty segments never fails to unwrap, on any server. */
  lemma CleanUnwraps<Q, R>(es: seq<S.Endpoint<Q, R>>, m: Verb, p: string)
    requires PathsOk(es) && Clean(p)
    ensures !Answer(Run(Built(es)), m, p).BadUnwrap?
  {
    ParsedRegistrations(es);
    if Find(Run(Built(es)), m, p).Some? {
      var r := Find(Run(Built(es)), m, p).value;
      AnswerFound(Built(es), m, p);
      ParsedBehindSlash(r.tokens);
      CleanFits(ShapeOf(r.tokens), p, false);
    }
  }

  /** If outcomes are right and some request finds a route with a parameter, then another request, that
      differs in one segment, finds a route of the same shape and fails to unwrap. */
  lemma SpoiltFails<Q, R>(es: seq<S.Endpoint<Q, R>>, r: Route, m: Verb, p: string) returns (q: string)
    requires PathsOk(es) && Outranked(Built(es)) && Find(Run(Built(es)), m, p) == Some(r) && HasPar(ShapeOf(r.tokens))
    ensures Replaced(p, q) && Answer(Run(Built(es)), m, q).BadUnwrap?
  {
    var ops, s := Built(es), ShapeOf(r.tokens);
    ParsedRegistrations(es);
    FaithfulIffOutranked(ops);
    AnswerFound(ops, m, p);
    assert IsAnswer(Everything(ops), m, p, Some(r));
    q := Spoilt(s, p);
    SpoiltMatches(s, p);
    SpoiltReplaced(s, p);
    assert IsAnswer(Everything(ops), m, q, Find(Run(ops), m, q));
    assert Candidate(r, m, q);
    var f := Find(Run(ops), m, q).value;
    AnswerFound(ops, m, q);
    ParsedShapeOk(f.tokens);
    ReplacedMatches(ShapeOf(f.tokens), p, q);
    assert Better(r, f, m) && Better(f, r, m);
    if ShapeOf(f.tokens) != s { PrecedesAntisymmetric(s, ShapeOf(f.tokens)); }
  }

  /** The lookup finds a route with a parameter. */
  predicate FindsPar<Q, R>(es: seq<S.Endpoint<Q, R>>, m: Verb, p: string) {
    var found := Find(Run(Built(es)), m, p);
    found.Some? && HasPar(ShapeOf(found.value.tokens))
  }

  lemma UnwrapsWithoutPar<Q, R>(es: seq<S.Endpoint<Q, R>>, m: Verb, p: string)
    requires PathsOk(es) && !FindsPar(es, m, p)
    ensures !Answer(Run(Built(es)), m, p).BadUnwrap?
  {
    ParsedRegistrations(es);
    if Find(Run(Built(es)), m, p).Some? {
      AnswerFound(Built(es), m, p);
      NoParFits(ShapeOf(Find(Run(Built(es)), m, p).value.tokens), p);
    }
  }

  /** Every request is answered, and rightly, if and only if outcomes are right and no request finds a
      route with a parameter. */
  lemma AlwaysBestIff<Q, R>(es: seq<S.Endpoint<Q, R>>)
    requires PathsOk(es)
    ensures (forall m, p :: AnsweredBest(es, m, p)) <==> Outranked(Built(es)) && forall m, p :: !FindsPar(es, m, p)
  {
    AlwaysRightIff(es);
    if !Outranked(Built(es)) {
      var m, p :| !AnsweredRight(es, m, p);
      assert !AnsweredBest(es, m, p);
    } else if m, p :| FindsPar(es, m, p) {
      var q := SpoiltFails(es, Find(Run(Built(es)), m, p).value, m, p);
      assert !AnsweredBest(es, m, q);
    } else {
      forall m, p ensures AnsweredBest(es, m, p) {
        assert AnsweredRight(es, m, p);
        UnwrapsWithoutPar(es, m, p);
      }
    }
  }

  /** An endpoint that does not end in a wildcard is found on its own instance, or one of its shape is. */
  lemma FoundOnInstance<Q, R>(es: seq<S.Endpoint<Q, R>>, i: nat)
    requires PathsOk(es) && i < |es| && !EndsInWildcard(ShapeOf(RouteAt(es, i).tokens))
    requires AnsweredRight(es, es[i].verb, Instance(ShapeOf(RouteAt(es, i).tokens)))
    ensures var found := Find(Run(Built(es)), es[i].verb, Instance(ShapeOf(RouteAt(es, i).tokens)));
      found.Some? && ShapeOf(found.value.tokens) == ShapeOf(RouteAt(es, i).tokens)
  {
    var r := RouteAt(es, i);
    var s := ShapeOf(r.tokens);
    var p := Instance(s);
    ParsedRegistrations(es);
    assert Registrations(es)[i] == Register(r) && WellFormed(r.tokens);
    ParsedShapeOk(r.tokens);
    InstanceMatches(s);
    RightIffFoundBest(es, r.verb, p);
    assert Fits(es, i, r.verb, p);
    var f := Find(Run(Built(es)), r.verb, p).value;
    AnswerFound(Built(es), r.verb, p);
    ParsedShapeOk(f.tokens);
    InstanceBest(s, ShapeOf(f.tokens));
    assert Outranks(es, f.service, i, r.verb);
    if ShapeOf(f.tokens) != s { PrecedesAntisymmetric(s, ShapeOf(f.tokens)); }
  }

  /** What can be checked beforehand: a server with safe splits, without collisions and without wildcards
      answers every request if and only if no endpoint has a parameter. */
  lemma AlwaysBestIffNoPar<Q, R>(es: seq<S.Endpoint<Q, R>>)
    requires PathsOk(es) && NoCollision(Registrations(es)) && Safe(Registrations(es))
    requires forall i | 0 <= i < |es| :: !EndsInWildcard(ShapeOf(RouteAt(es, i).tokens))
    ensures (forall m, p :: AnsweredBest(es, m, p)) <==>
      forall i | 0 <= i < |es| :: !HasPar(ShapeOf(RouteAt(es, i).tokens))
  {
    forall m, p ensures AnsweredRight(es, m, p) { AnswersRight(es, m, p); }
    AlwaysRightIff(es);
    AlwaysBestIff(es);
    if i :| 0 <= i < |es| && HasPar(ShapeOf(RouteAt(es, i).tokens)) {
      FoundOnInstance(es, i);
      assert FindsPar(es, es[i].verb, Instance(ShapeOf(RouteAt(es, i).tokens)));
    } else {
      forall m, p ensures !FindsPar(es, m, p) {
        if Find(Run(Built(es)), m, p).Some? { FoundIsEndpoint(es, m, p); }
      }
    }
  }

  /** From the builder calls to the outcome: the flat routes of a scope are registered, and the outcome of a
      request is the one that is right by the meaning of the nesting, with the service it means. */
  lemma ScopesAnswer<Q, R>(path: string, steps: S.Steps<Q, R>, extra: seq<S.Middleware<Q, R>>, m: Verb, p: string)
    requires
      var es := S.Meaning(path, steps, extra);
      PathsOk(es) && NoCollision(Registrations(es)) && Safe(Registrations(es))
    ensures
      var es := S.Meaning(path, steps, extra);
      var built := S.BuildAll(S.Compile(path, steps).routes, extra);
      && IsRight(es, m, p, Answer(Run(Built(built)), m, p))
      && |built| == |es| && forall i | 0 <= i < |es| :: built[i].service == es[i].service
  {
    S.FlatteningKeepsMeaning(path, steps, extra);
    AnswersRight(S.Meaning(path, steps, extra), m, p);
  }
}
