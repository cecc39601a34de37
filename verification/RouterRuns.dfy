/** Whole runs of a router: any sequence of registrations and reorderings, from the empty tree. */
module RouterRuns {
  import opened PathTokens
  import opened RouteShape
  import opened RouterTree
  import opened RouterEntries
  import opened RouterSearch
  import opened RouterSplit
  import opened RouterShadow
  import opened RouterOptimize

  datatype Op = Register(route: Route) | Reorder

  function Apply(n: Node, op: Op): Node {
    match op
    case Register(r) => Insert(n, r, r.tokens).node
    case Reorder => Optimize(n).node
  }

  function Run(ops: seq<Op>): Node {
    if ops == [] then Leaf("") else Apply(Run(ops[..|ops| - 1]), ops[|ops| - 1])
  }

  /** Only patterns the parser accepts reach the router. */
  predicate Parsed(ops: seq<Op>) {
    forall i | 0 <= i < |ops| && ops[i].Register? :: WellFormed(ops[i].route.tokens)
  }

  /** No registration of the run splits a node whose text also starts a second sibling. */
  predicate Safe(ops: seq<Op>) {
    forall i {:trigger ops[i]} | 0 <= i < |ops| && ops[i].Register? :: SplitSafe(Run(ops[..i]), ops[i].route.tokens)
  }

  // ---------------------------------------------------------------- the specification, without a tree

  /** The registered routes: a route is refused when its shape and verb are already there. */
  function Registered(ops: seq<Op>): set<Route> {
    if ops == [] then {} else
    var before, op := Registered(ops[..|ops| - 1]), ops[|ops| - 1];
    if op.Reorder? || (exists q | q in before :: SameKey(q, op.route)) then before else before + {op.route}
  }

  /** The tree stores exactly the registered routes, each under its own shape. */
  ghost predicate Represents(n: Node, registered: set<Route>) {
    forall s, r :: Has(n, s, r) <==> r in registered && s == ShapeOf(r.tokens)
  }

  // ---------------------------------------------------------------- laws without a premise

  function Accepted(ops: seq<Op>, q: Route): nat {
    if ops == [] then 0 else
    var before, op := Run(ops[..|ops| - 1]), ops[|ops| - 1];
    Accepted(ops[..|ops| - 1], q)
    + if op == Register(q) && Insert(before, q, q.tokens).ok then 1 else 0
  }

  /** Conservation over any run, safe or not: a route is stored once for each time it was accepted,
      always under its own shape and nowhere else. */
  lemma {:induction false} RunConserves(ops: seq<Op>, s: Shape, q: Route)
    ensures Copies(Run(ops), s, q) == if s == ShapeOf(q.tokens) then Accepted(ops, q) else 0
  {
    if ops == [] {
      LeafIsEmpty("", s, q);
    } else {
      var before, op := ops[..|ops| - 1], ops[|ops| - 1];
      RunConserves(before, s, q);
      match op
      case Register(r) =>
        InsertAddsOne(Run(before), r, r.tokens, s, q);
      case Reorder =>
        OptimizeKeepsCopies(Run(before), s, q);
    }
  }

  lemma {:induction false} AcceptedWasRegistered(ops: seq<Op>, q: Route)
    requires Accepted(ops, q) > 0
    ensures Register(q) in ops
  {
    var before := ops[..|ops| - 1];
    assert ops == before + [ops[|ops| - 1]];
    if ops[|ops| - 1] == Register(q) {
    } else {
      AcceptedWasRegistered(before, q);
    }
  }

  lemma {:induction false} RunKeyed(ops: seq<Op>)
    ensures Keyed(Run(ops)) && Populated(Run(ops))
  {
    if ops == [] {
    } else {
      var before, op := ops[..|ops| - 1], ops[|ops| - 1];
      RunKeyed(before);
      match op
      case Register(r) =>
        InsertKeepsKeyed(Run(before), r, r.tokens);
        InsertKeepsPopulated(Run(before), r, r.tokens);
      case Reorder =>
        OptimizeKeepsKeyed(Run(before));
        OptimizeKeepsPopulated(Run(before));
    }
  }

  /** Soundness of any run, safe or not: a lookup returns only a route that was registered, serves
      the method, and whose own pattern matches the path. */
  lemma RunSound(ops: seq<Op>, m: Verb, p: string)
    requires Find(Run(ops), m, p).Some?
    ensures Register(Find(Run(ops), m, p).value) in ops
    ensures Candidate(Find(Run(ops), m, p).value, m, p)
  {
    RunKeyed(ops);
    var r := Find(Run(ops), m, p).value;
    var s := FindSound(Run(ops), m, p);
    HasIffCopies(Run(ops), s, r);
    RunConserves(ops, s, r);
    AcceptedWasRegistered(ops, r);
  }

  // ---------------------------------------------------------------- refinement on safe runs

  lemma {:induction false} SafeRunPrefixFree(ops: seq<Op>)
    requires Parsed(ops) && Safe(ops)
    ensures PrefixFree(Run(ops))
  {
    if ops == [] {
    } else {
      var k := |ops| - 1;
      SafePrefix(ops, k);
      SafeRunPrefixFree(ops[..k]);
      match ops[k]
      case Register(r) =>
        ChainedPlaceable(r.tokens);
        PrefixFreeIffSplitSafe(Run(ops[..k]), r, r.tokens);
      case Reorder =>
        OptimizeKeepsPrefixFree(Run(ops[..k]));
    }
  }

  lemma SafePrefix(ops: seq<Op>, k: nat)
    requires Parsed(ops) && Safe(ops) && k <= |ops|
    ensures Parsed(ops[..k]) && Safe(ops[..k])
  {
    forall i {:trigger ops[..k][i]} | 0 <= i < k && ops[..k][i].Register?
      ensures SplitSafe(Run(ops[..k][..i]), ops[..k][i].route.tokens)
    {
      assert ops[..k][..i] == ops[..i] && ops[..k][i] == ops[i];
    }
  }

  /** On a safe run the router refuses exactly what the plain registry refuses, and its tree stores
      exactly the registered routes. */
  lemma {:induction false} SafeRunRepresents(ops: seq<Op>)
    requires Parsed(ops) && Safe(ops)
    ensures Represents(Run(ops), Registered(ops)) && DistinctKeys(Registered(ops))
  {
    if ops == [] {
      forall s, r ensures !Has(Run(ops), s, r) {
        HasIffCopies(Run(ops), s, r);
        LeafIsEmpty("", s, r);
      }
    } else {
      var k := |ops| - 1;
      SafePrefix(ops, k);
      SafeRunRepresents(ops[..k]);
      match ops[k]
      case Register(r) =>
        SafeRunPrefixFree(ops[..k]);
        RegisterRepresents(ops[..k], r);
      case Reorder =>
        forall s, r ensures Has(Run(ops), s, r) <==> Has(Run(ops[..k]), s, r) {
          OptimizeKeepsCopies(Run(ops[..k]), s, r);
          HasIffCopies(Run(ops), s, r);
          HasIffCopies(Run(ops[..k]), s, r);
        }
    }
  }

  /** One registration into a tree that represents the registry: accepted exactly when its key is new. */
  lemma RegisterRepresents(ops: seq<Op>, r: Route)
    requires WellFormed(r.tokens) && PrefixFree(Run(ops)) && Represents(Run(ops), Registered(ops))
    requires DistinctKeys(Registered(ops))
    ensures var n, now := Run(ops), Registered(ops + [Register(r)]);
      && (Insert(n, r, r.tokens).ok <==> forall q | q in Registered(ops) :: !SameKey(q, r))
      && now == (if Insert(n, r, r.tokens).ok then Registered(ops) + {r} else Registered(ops))
      && Represents(Insert(n, r, r.tokens).node, now) && DistinctKeys(now)
  {
    var n, before, shape := Run(ops), Registered(ops), ShapeOf(r.tokens);
    var step := Insert(n, r, r.tokens);
    RunKeyed(ops);
    ChainedPlaceable(r.tokens);
    RejectedIffTaken(n, r, r.tokens);
    assert (ops + [Register(r)])[..|ops|] == ops;
    if Taken(n, shape, r.verb) {
      var q: Route :| q.verb == r.verb && Has(n, shape, q);
      assert q in before && SameKey(q, r);
    } else {
      forall q | q in before ensures !SameKey(q, r) { assert Has(n, ShapeOf(q.tokens), q); }
    }
    forall s, q ensures Has(step.node, s, q) <==> Has(n, s, q) || (step.ok && s == shape && q == r) {
      InsertAddsOne(n, r, r.tokens, s, q);
      HasIffCopies(n, s, q);
      HasIffCopies(step.node, s, q);
    }
  }

  /** Call `k` of the run is not refused. */
  predicate OkAt(ops: seq<Op>, k: nat)
    requires k < |ops|
  {
    ops[k].Register? ==> Insert(Run(ops[..k]), ops[k].route, ops[k].route.tokens).ok
  }

  /** No two registrations of the run share verb and shape. */
  predicate NoCollision(ops: seq<Op>) {
    forall i, j | 0 <= i < j < |ops| && ops[i].Register? && ops[j].Register? :: !SameKey(ops[i].route, ops[j].route)
  }

  lemma RegisteredStep(ops: seq<Op>, k: nat)
    requires Parsed(ops) && Safe(ops) && k < |ops| && ops[k].Register?
    ensures
      var before, r := Registered(ops[..k]), ops[k].route;
      && (OkAt(ops, k) <==> forall q | q in before :: !SameKey(q, r))
      && Registered(ops[..k + 1]) == if OkAt(ops, k) then before + {r} else before
  {
    SafePrefix(ops, k);
    SafeRunPrefixFree(ops[..k]);
    SafeRunRepresents(ops[..k]);
    RegisterRepresents(ops[..k], ops[k].route);
    assert ops[..k + 1] == ops[..k] + [Register(ops[k].route)];
  }

  lemma RegisteredNext(ops: seq<Op>, k: nat)
    requires Parsed(ops) && Safe(ops) && k < |ops|
    ensures Registered(ops[..k]) <= Registered(ops[..k + 1])
    ensures ops[k].Register? && OkAt(ops, k) ==> ops[k].route in Registered(ops[..k + 1])
    ensures forall r | r in Registered(ops[..k + 1]) :: r in Registered(ops[..k]) || ops[k] == Register(r)
  {
    if ops[k].Register? {
      RegisteredStep(ops, k);
    } else {
      assert ops[..k + 1][..k] == ops[..k];
    }
  }

  /** Nothing is ever unregistered. */
  lemma {:induction false} RegisteredGrows(ops: seq<Op>, i: nat, k: nat)
    requires i <= k <= |ops|
    ensures Registered(ops[..i]) <= Registered(ops[..k])
    decreases k
  {
    if i == k {
    } else {
      RegisteredGrows(ops, i, k - 1);
      assert ops[..k][..k - 1] == ops[..k - 1];
    }
  }

  lemma AcceptedStays(ops: seq<Op>, i: nat, k: nat)
    requires Parsed(ops) && Safe(ops) && i < k <= |ops| && ops[i].Register? && OkAt(ops, i)
    ensures ops[i].route in Registered(ops[..k])
  {
    RegisteredNext(ops, i);
    RegisteredGrows(ops, i + 1, k);
  }

  lemma {:induction false} RegisteredSoFar(ops: seq<Op>, k: nat, r: Route) returns (i: nat)
    requires Parsed(ops) && Safe(ops) && k <= |ops| && r in Registered(ops[..k])
    ensures i < k && ops[i] == Register(r)
    decreases k
  {
    if r in Registered(ops[..k - 1]) {
      i := RegisteredSoFar(ops, k - 1, r);
    } else {
      RegisteredNext(ops, k - 1);
      i := k - 1;
    }
  }

  lemma AcceptedPair(ops: seq<Op>, i: nat, j: nat)
    requires Parsed(ops) && Safe(ops) && i < j < |ops| && ops[i].Register? && ops[j].Register?
    requires OkAt(ops, i) && OkAt(ops, j)
    ensures !SameKey(ops[i].route, ops[j].route)
  {
    AcceptedStays(ops, i, j);
    RegisteredStep(ops, j);
  }

  lemma ApartAccepted(ops: seq<Op>, k: nat)
    requires Parsed(ops) && Safe(ops) && NoCollision(ops) && k < |ops|
    ensures OkAt(ops, k)
  {
    if ops[k].Register? {
      RegisteredStep(ops, k);
      forall q | q in Registered(ops[..k]) ensures !SameKey(q, ops[k].route) {
        var i := RegisteredSoFar(ops, k, q);
      }
    }
  }

  /** In a safe run no registration is refused exactly when no two of them collide. */
  lemma AcceptedIffApart(ops: seq<Op>)
    requires Parsed(ops) && Safe(ops)
    ensures (forall k | 0 <= k < |ops| :: OkAt(ops, k)) <==> NoCollision(ops)
  {
    if forall k | 0 <= k < |ops| :: OkAt(ops, k) {
      forall i, j | 0 <= i < j < |ops| && ops[i].Register? && ops[j].Register?
        ensures !SameKey(ops[i].route, ops[j].route)
      {
        AcceptedPair(ops, i, j);
      }
    }
    if NoCollision(ops) {
      forall k | 0 <= k < |ops| ensures OkAt(ops, k) { ApartAccepted(ops, k); }
    }
  }

  /** A tree that represents the registry and is prefix-free answers as the plain search does. */
  lemma FindIsAnswer(n: Node, registered: set<Route>, m: Verb, p: string)
    requires PrefixFree(n) && Keyed(n) && Represents(n, registered)
    ensures IsAnswer(registered, m, p, Find(n, m, p))
  {
    if Find(n, m, p).Some? {
      var a := Find(n, m, p).value;
      var s := FindSound(n, m, p);
      forall r | r in registered && Candidate(r, m, p)
        ensures Preferred(m, ShapeOf(a.tokens), a.verb, ShapeOf(r.tokens), r.verb)
      {
        assert Has(n, ShapeOf(r.tokens), r);
        var t := FindBest(n, m, p, ShapeOf(r.tokens), r);
      }
    } else {
      forall r | r in registered ensures !Candidate(r, m, p) {
        assert Has(n, ShapeOf(r.tokens), r);
        if Candidate(r, m, p) { var t := FindBest(n, m, p, ShapeOf(r.tokens), r); }
      }
    }
  }

  /** The main theorem: after any safe run of registrations and reorderings, every lookup returns
      what the plain priority search over the registered patterns returns. */
  lemma RunRefinesSearch(ops: seq<Op>, m: Verb, p: string)
    requires Parsed(ops) && Safe(ops)
    ensures IsAnswer(Registered(ops), m, p, Find(Run(ops), m, p))
  {
    SafeRunPrefixFree(ops);
    SafeRunRepresents(ops);
    RunKeyed(ops);
    FindIsAnswer(Run(ops), Registered(ops), m, p);
  }

  /** Registration order and reordering do not show: two safe runs that registered the same routes
      answer every lookup alike. */
  lemma OrderIndependent(a: seq<Op>, b: seq<Op>, m: Verb, p: string)
    requires Parsed(a) && Safe(a) && Parsed(b) && Safe(b) && Registered(a) == Registered(b)
    ensures Find(Run(a), m, p) == Find(Run(b), m, p)
  {
    RunRefinesSearch(a, m, p);
    RunRefinesSearch(b, m, p);
    SafeRunRepresents(a);
    AnswerUnique(Registered(a), m, p, Find(Run(a), m, p), Find(Run(b), m, p));
  }

  /** `optimize` on a safe run returns the number of distinct registered shapes. */
  lemma ReorderCountsShapes(ops: seq<Op>)
    requires Parsed(ops) && Safe(ops)
    ensures Optimize(Run(ops)).weight == |set r | r in Registered(ops) :: ShapeOf(r.tokens)|
  {
    SafeRunPrefixFree(ops);
    SafeRunRepresents(ops);
    RunKeyed(ops);
    WeightCountsShapes(Run(ops));
    ShapesOfRegistered(Run(ops), Registered(ops));
  }

  lemma ShapesOfRegistered(n: Node, registered: set<Route>)
    requires Keyed(n) && Represents(n, registered)
    ensures Shapes(n) == set r | r in registered :: ShapeOf(r.tokens)
  {
    forall s | s in Shapes(n) ensures exists r :: r in registered && s == ShapeOf(r.tokens) {
      var r := StoredUnder(n, s);
    }
    forall r | r in registered ensures ShapeOf(r.tokens) in Shapes(n) {
      ShapeOfStored(n, ShapeOf(r.tokens), r);
    }
  }

  // ---------------------------------------------------------------- the exact condition

  ghost predicate Faithful(n: Node, registered: set<Route>) {
    forall m, p :: IsAnswer(registered, m, p, Find(n, m, p))
  }

  /** After a safe run, one more accepted registration keeps every lookup right if and only if its
      split is safe: otherwise some route registered earlier is lost or outranked. */
  lemma FaithfulIffSplitSafe(ops: seq<Op>, r: Route)
    requires Parsed(ops) && Safe(ops) && WellFormed(r.tokens)
    requires forall q | q in Registered(ops) :: !SameKey(q, r)
    ensures Faithful(Run(ops + [Register(r)]), Registered(ops) + {r}) <==> SplitSafe(Run(ops), r.tokens)
  {
    var n, n', now := Run(ops), Run(ops + [Register(r)]), Registered(ops) + {r};
    assert (ops + [Register(r)])[..|ops|] == ops;
    SafeRunPrefixFree(ops);
    SafeRunRepresents(ops);
    RunKeyed(ops);
    RunKeyed(ops + [Register(r)]);
    RegisterRepresents(ops, r);
    ChainedPlaceable(r.tokens);
    PrefixFreeIffSplitSafe(n, r, r.tokens);
    if SplitSafe(n, r.tokens) {
      forall m, p ensures IsAnswer(now, m, p, Find(n', m, p)) { FindIsAnswer(n', now, m, p); }
    } else {
      RegisteredShapesOk(ops + [Register(r)], n', now);
      var m, p, s, q, t := UnsafeSplitMisses(n, r, r.tokens);
      MissedIsNotAnswer(n', now, m, p, s, q, t);
    }
  }

  lemma {:induction false} RegisteredParsed(ops: seq<Op>, q: Route)
    requires Parsed(ops) && q in Registered(ops)
    ensures WellFormed(q.tokens)
  {
    var k := |ops| - 1;
    if q in Registered(ops[..k]) { RegisteredParsed(ops[..k], q); }
  }

  lemma RegisteredShapesOk(ops: seq<Op>, n: Node, registered: set<Route>)
    requires Parsed(ops) && registered <= Registered(ops) && Represents(n, registered)
    ensures AllShapesOk(n)
  {
    forall s, q | Has(n, s, q) ensures ShapeOk(s) {
      RegisteredParsed(ops, q);
      ParsedShapeOk(q.tokens);
    }
  }

  lemma MissedIsNotAnswer(n: Node, registered: set<Route>, m: Verb, p: string, s: Shape, q: Route, t: Shape)
    requires Represents(n, registered) && Missed(n, m, p, s, q, t)
    ensures !IsAnswer(registered, m, p, Find(n, m, p))
  {
    assert q in registered && s == ShapeOf(q.tokens) && Candidate(q, m, p);
    if Find(n, m, p).Some? {
      assert t == ShapeOf(Find(n, m, p).value.tokens);
      PrecedesReflexive(s);
    }
  }
}
