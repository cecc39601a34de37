/** Nested scopes compiled to a flat list of routes, and what the nesting means: the two agree. */
module ScopeFlatten {
  import opened Basics
  import opened RouteShape

  type Service<!Q, !R> = Q -> R

  type Middleware<!Q, !R> = Service<Q, R> -> Service<Q, R>

  /** A route as its author writes it. State is kept by type; types and values are numbered. */
  datatype Leaf<!Q, !R> = Leaf(verb: Verb, path: string, states: seq<State>, middlewares: seq<Middleware<Q, R>>,
                               handler: Service<Q, R>)

  datatype State = State(kind: nat, value: nat)

  /** The builder calls on a scope, in order. */
  datatype Step<!Q, !R> =
    | Use(middleware: Middleware<Q, R>)
    | UseState(state: State)
    | ServeRoute(leaf: Leaf<Q, R>)
    | ServeScope(child: Scope<Q, R>)

  datatype Steps<!Q, !R> = Start | Then(before: Steps<Q, R>, step: Step<Q, R>)

  datatype Scope<!Q, !R> = Scope(path: string, steps: Steps<Q, R>)

  // ---------------------------------------------------------------- the compiler

  /** What a scope object holds: its middlewares so far and the routes served so far, all flat. */
  datatype Flat<!Q, !R> = Flat(middlewares: seq<Middleware<Q, R>>, routes: seq<Leaf<Q, R>>)

  function RebindParent<Q, R>(route: Leaf<Q, R>, path: string, middlewares: seq<Middleware<Q, R>>): Leaf<Q, R> {
    route.(path := path + route.path, middlewares := middlewares + route.middlewares)
  }

  function RebindAll<Q, R>(routes: seq<Leaf<Q, R>>, path: string, middlewares: seq<Middleware<Q, R>>): seq<Leaf<Q, R>> {
    if routes == [] then [] else
    RebindAll(routes[..|routes| - 1], path, middlewares) + [RebindParent(routes[|routes| - 1], path, middlewares)]
  }

  function Compile<Q, R>(path: string, steps: Steps<Q, R>): Flat<Q, R>
    decreases steps
  {
    match steps
    case Start => Flat([], [])
    case Then(before, step) =>
      var flat := Compile(path, before);
      match step
      case Use(m) => flat.(middlewares := flat.middlewares + [m])
      case UseState(_) => flat
      case ServeRoute(leaf) => flat.(routes := flat.routes + [RebindParent(leaf, path, flat.middlewares)])
      case ServeScope(child) =>
        flat.(routes := flat.routes + RebindAll(Compile(child.path, child.steps).routes, path, flat.middlewares))
  }

  /** The innermost service first, then each middleware put around what is there. */
  function BuildService<Q, R>(s0: Service<Q, R>, rest: seq<Middleware<Q, R>>): Service<Q, R>
    decreases |rest|
  {
    if rest == [] then s0 else BuildService(rest[0](s0), rest[1..])
  }

  function Reverse<T>(s: seq<T>): seq<T> {
    if s == [] then [] else Reverse(s[1..]) + [s[0]]
  }

  /** What the router is given for a route. */
  datatype Endpoint<!Q, !R> = Endpoint(verb: Verb, path: string, service: Service<Q, R>)

  /** `extra` is what the server adds between the middlewares and the handler. */
  function Build<Q, R>(route: Leaf<Q, R>, extra: seq<Middleware<Q, R>>): Endpoint<Q, R> {
    Endpoint(route.verb, route.path, BuildService(route.handler, Reverse(route.middlewares + extra)))
  }

  function BuildAll<Q, R>(routes: seq<Leaf<Q, R>>, extra: seq<Middleware<Q, R>>): seq<Endpoint<Q, R>> {
    if routes == [] then []
    else BuildAll(routes[..|routes| - 1], extra) + [Build(routes[|routes| - 1], extra)]
  }

  // ---------------------------------------------------------------- the meaning of the nesting

  /** A service inside a stack of middlewares, the first one outermost. */
  function Wrap<Q, R>(middlewares: seq<Middleware<Q, R>>, service: Service<Q, R>): Service<Q, R>
    decreases |middlewares|
  {
    if middlewares == [] then service else middlewares[0](Wrap(middlewares[1..], service))
  }

  /** The middlewares used before a point of the builder chain. */
  function InForce<Q, R>(steps: Steps<Q, R>): seq<Middleware<Q, R>> {
    match steps
    case Start => []
    case Then(before, Use(m)) => InForce(before) + [m]
    case Then(before, _) => InForce(before)
  }

  /** An endpoint seen from one scope further out. */
  function Enclosed<Q, R>(e: Endpoint<Q, R>, path: string, middlewares: seq<Middleware<Q, R>>): Endpoint<Q, R> {
    Endpoint(e.verb, path + e.path, Wrap(middlewares, e.service))
  }

  function EnclosedAll<Q, R>(es: seq<Endpoint<Q, R>>, path: string, middlewares: seq<Middleware<Q, R>>)
    : seq<Endpoint<Q, R>>
  {
    if es == [] then []
    else EnclosedAll(es[..|es| - 1], path, middlewares) + [Enclosed(es[|es| - 1], path, middlewares)]
  }

  /** The nesting, read directly: a scope adds its prefix and the middlewares in force at `serve` around
      whatever the thing served means by itself. */
  function Meaning<Q, R>(path: string, steps: Steps<Q, R>, extra: seq<Middleware<Q, R>>): seq<Endpoint<Q, R>>
    decreases steps
  {
    match steps
    case Start => []
    case Then(before, ServeRoute(leaf)) =>
      var own := Endpoint(leaf.verb, leaf.path, Wrap(leaf.middlewares, Wrap(extra, leaf.handler)));
      Meaning(path, before, extra) + [Enclosed(own, path, InForce(before))]
    case Then(before, ServeScope(child)) =>
      Meaning(path, before, extra) + EnclosedAll(Meaning(child.path, child.steps, extra), path, InForce(before))
    case Then(before, _) => Meaning(path, before, extra)
  }

  /** What is served later comes later. */
  lemma ServedInOrder<Q, R>(path: string, before: Steps<Q, R>, step: Step<Q, R>, extra: seq<Middleware<Q, R>>)
    ensures Meaning(path, before, extra) <= Meaning(path, Then(before, step), extra)
  {
    var all := Meaning(path, Then(before, step), extra);
    if step.ServeRoute? || step.ServeScope? {
      assert all[..|Meaning(path, before, extra)|] == Meaning(path, before, extra);
    }
  }

  /** A route in a scope in a scope: prefixes from the outside in, and each scope's middlewares around
      what is inside it, the outermost first. */
  lemma NestedMeans<Q, R>(outer: string, m1: Middleware<Q, R>, m2: Middleware<Q, R>, inner: string, n: Middleware<Q, R>,
                          leaf: Leaf<Q, R>, k: Middleware<Q, R>, extra: Middleware<Q, R>)
    requires leaf.middlewares == [k]
    ensures
      var child := Scope(inner, Then(Then(Start, Use(n)), ServeRoute(leaf)));
      var steps := Then(Then(Then(Start, Use(m1)), Use(m2)), ServeScope(child));
      Meaning(outer, steps, [extra])
        == [Endpoint(leaf.verb, outer + (inner + leaf.path), m1(m2(n(k(extra(leaf.handler))))))]
  {
    var start: Steps<Q, R> := Start;
    var steps1 := Then(Then(start, Use(n)), ServeRoute(leaf));
    var own := Endpoint(leaf.verb, leaf.path, k(extra(leaf.handler)));
    WrapOne(extra, leaf.handler);
    WrapOne(k, extra(leaf.handler));
    WrapOne(n, own.service);
    WrapTwo(m1, m2, n(own.service));
    assert InForce(Then(start, Use(n))) == [] + [n] == [n];
    assert InForce(Then(start, Use(m1))) == [] + [m1] == [m1];
    assert InForce(Then(Then(start, Use(m1)), Use(m2))) == [m1] + [m2] == [m1, m2];
    assert Meaning(inner, Then(start, Use(n)), [extra]) == [];
    var e := Endpoint(leaf.verb, inner + leaf.path, n(own.service));
    assert Enclosed(own, inner, [n]) == e;
    assert Meaning(inner, steps1, [extra]) == [] + [e] == [e];
    EnclosedOne(e, outer, [m1, m2]);
    assert Meaning(outer, Then(start, Use(m1)), [extra]) == [];
    assert Meaning(outer, Then(Then(start, Use(m1)), Use(m2)), [extra]) == [];
    assert [] + [Enclosed(e, outer, [m1, m2])] == [Enclosed(e, outer, [m1, m2])];
  }

  lemma EnclosedOne<Q, R>(e: Endpoint<Q, R>, path: string, middlewares: seq<Middleware<Q, R>>)
    ensures EnclosedAll([e], path, middlewares) == [Enclosed(e, path, middlewares)]
  {
    assert [e][..0] == [];
  }

  lemma WrapOne<Q, R>(m: Middleware<Q, R>, service: Service<Q, R>)
    ensures Wrap([m], service) == m(service)
  {
    assert [m][1..] == [];
  }

  lemma WrapTwo<Q, R>(m: Middleware<Q, R>, n: Middleware<Q, R>, service: Service<Q, R>)
    ensures Wrap([m, n], service) == m(n(service))
  {
    assert [m, n][1..] == [n];
    WrapOne(n, service);
  }

  function LeafCount<Q, R>(steps: Steps<Q, R>): nat {
    match steps
    case Start => 0
    case Then(before, ServeRoute(_)) => LeafCount(before) + 1
    case Then(before, ServeScope(child)) => LeafCount(before) + LeafCount(child.steps)
    case Then(before, _) => LeafCount(before)
  }

  // ---------------------------------------------------------------- the two agree

  lemma {:induction false} BuildServiceSnoc<Q, R>(s0: Service<Q, R>, rest: seq<Middleware<Q, R>>, m: Middleware<Q, R>)
    ensures BuildService(s0, rest + [m]) == m(BuildService(s0, rest))
    decreases |rest|
  {
    if rest != [] {
      assert (rest + [m])[0] == rest[0] && (rest + [m])[1..] == rest[1..] + [m];
      BuildServiceSnoc(rest[0](s0), rest[1..], m);
    } else {
      assert rest + [m] == [m] && [m][1..] == [];
      assert BuildService(m(s0), []) == m(s0);
    }
  }

  /** Folding the reversed list from the handler outwards is the stack with the first one outermost. */
  lemma {:induction false} FoldIsWrap<Q, R>(s0: Service<Q, R>, ms: seq<Middleware<Q, R>>)
    ensures BuildService(s0, Reverse(ms)) == Wrap(ms, s0)
    decreases |ms|
  {
    if ms == [] {
    } else {
      FoldIsWrap(s0, ms[1..]);
      BuildServiceSnoc(s0, Reverse(ms[1..]), ms[0]);
    }
  }

  lemma {:induction false} WrapConcat<Q, R>(a: seq<Middleware<Q, R>>, b: seq<Middleware<Q, R>>, s: Service<Q, R>)
    ensures Wrap(a + b, s) == Wrap(a, Wrap(b, s))
    decreases |a|
  {
    if a == [] {
      assert a + b == b;
    } else {
      assert (a + b)[0] == a[0] && (a + b)[1..] == a[1..] + b;
      WrapConcat(a[1..], b, s);
    }
  }

  lemma BuildMeans<Q, R>(route: Leaf<Q, R>, extra: seq<Middleware<Q, R>>)
    ensures Build(route, extra)
         == Endpoint(route.verb, route.path, Wrap(route.middlewares, Wrap(extra, route.handler)))
  {
    FoldIsWrap(route.handler, route.middlewares + extra);
    WrapConcat(route.middlewares, extra, route.handler);
  }

  lemma BuildRebound<Q, R>(route: Leaf<Q, R>, path: string, ms: seq<Middleware<Q, R>>, extra: seq<Middleware<Q, R>>)
    ensures Build(RebindParent(route, path, ms), extra) == Enclosed(Build(route, extra), path, ms)
  {
    BuildMeans(route, extra);
    BuildMeans(RebindParent(route, path, ms), extra);
    WrapConcat(ms, route.middlewares, Wrap(extra, route.handler));
  }

  lemma {:induction false} BuildAllConcat<Q, R>(a: seq<Leaf<Q, R>>, b: seq<Leaf<Q, R>>, extra: seq<Middleware<Q, R>>)
    ensures BuildAll(a + b, extra) == BuildAll(a, extra) + BuildAll(b, extra)
    decreases |b|
  {
    if b == [] {
      assert a + b == a && BuildAll(a, extra) + [] == BuildAll(a, extra);
    } else {
      var n := |b| - 1;
      assert (a + b)[..|a + b| - 1] == a + b[..n] && (a + b)[|a + b| - 1] == b[n];
      BuildAllConcat(a, b[..n], extra);
      Associative(BuildAll(a, extra), BuildAll(b[..n], extra), [Build(b[n], extra)]);
    }
  }

  lemma {:induction false} BuildReboundAll<Q, R>(routes: seq<Leaf<Q, R>>, path: string, ms: seq<Middleware<Q, R>>,
                                                extra: seq<Middleware<Q, R>>)
    ensures BuildAll(RebindAll(routes, path, ms), extra) == EnclosedAll(BuildAll(routes, extra), path, ms)
    decreases |routes|
  {
    if routes == [] {
    } else {
      var front, last := routes[..|routes| - 1], routes[|routes| - 1];
      BuildReboundAll(front, path, ms, extra);
      BuildRebound(last, path, ms, extra);
      LastOf(RebindAll(front, path, ms), RebindParent(last, path, ms));
      LastOf(BuildAll(front, extra), Build(last, extra));
    }
  }

  lemma LastOf<T>(front: seq<T>, last: T)
    ensures (front + [last])[..|front + [last]| - 1] == front && (front + [last])[|front + [last]| - 1] == last
  {
  }

  lemma {:induction false} CompiledInForce<Q, R>(path: string, steps: Steps<Q, R>)
    ensures Compile(path, steps).middlewares == InForce(steps)
  {
    match steps
    case Start =>
    case Then(before, _) => CompiledInForce(path, before);
  }

  lemma BuildOne<Q, R>(route: Leaf<Q, R>, extra: seq<Middleware<Q, R>>)
    ensures BuildAll([route], extra) == [Build(route, extra)]
  {
    LastOf<Leaf<Q, R>>([], route);
    assert [] + [route] == [route];
    assert BuildAll<Q, R>([], extra) == [];
  }

  /** Building the flat routes gives the meaning of the nesting: prefixes joined from the root to the leaf;
      each enclosing scope's middlewares as they stood when it served, outermost first; then the route's
      own; then the handler. */
  lemma {:induction false} FlatteningKeepsMeaning<Q, R>(path: string, steps: Steps<Q, R>, extra: seq<Middleware<Q, R>>)
    ensures BuildAll(Compile(path, steps).routes, extra) == Meaning(path, steps, extra)
    decreases steps
  {
    match steps
    case Start =>
    case Then(before, step) =>
      FlatteningKeepsMeaning(path, before, extra);
      CompiledInForce(path, before);
      var flat := Compile(path, before);
      match step
      case Use(_) =>
      case UseState(_) =>
      case ServeRoute(leaf) =>
        var route := RebindParent(leaf, path, flat.middlewares);
        BuildAllConcat(flat.routes, [route], extra);
        BuildOne(route, extra);
        BuildRebound(leaf, path, flat.middlewares, extra);
        BuildMeans(leaf, extra);
      case ServeScope(child) =>
        FlatteningKeepsMeaning(child.path, child.steps, extra);
        var inner := Compile(child.path, child.steps).routes;
        BuildAllConcat(flat.routes, RebindAll(inner, path, flat.middlewares), extra);
        BuildReboundAll(inner, path, flat.middlewares, extra);
  }

  lemma {:induction false} ReboundCount<Q, R>(routes: seq<Leaf<Q, R>>, path: string, ms: seq<Middleware<Q, R>>)
    ensures |RebindAll(routes, path, ms)| == |routes|
    ensures forall i | 0 <= i < |routes| ::
      RebindAll(routes, path, ms)[i] == RebindParent(routes[i], path, ms)
    decreases |routes|
  {
    if routes == [] {
    } else {
      ReboundCount(routes[..|routes| - 1], path, ms);
    }
  }

  /** One flat route per leaf. */
  lemma {:induction false} OneRoutePerLeaf<Q, R>(path: string, steps: Steps<Q, R>)
    ensures |Compile(path, steps).routes| == LeafCount(steps)
    decreases steps
  {
    match steps
    case Start =>
    case Then(before, step) =>
      OneRoutePerLeaf(path, before);
      if step.ServeScope? {
        OneRoutePerLeaf(step.child.path, step.child.steps);
        ReboundCount(Compile(step.child.path, step.child.steps).routes, path, Compile(path, before).middlewares);
      }
  }
}
