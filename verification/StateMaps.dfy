/** State by type: maps shared between scopes and routes, on the heap, and which value a lookup finds. */
module StateMaps {
  import opened Wrappers
  import opened ScopeFlatten

  type Entries = map<nat, nat>

  class StateMap {
    var entries: Entries

    constructor ()
      ensures entries == map[]
    {
      entries := map[];
    }
  }

  /** A list of shared maps, innermost first. */
  datatype Storage = Storage(maps: seq<StateMap>)

  /** The first level that knows the type decides. */
  function FirstWith(levels: seq<Entries>, kind: nat): Option<nat> {
    if levels == [] then None
    else if kind in levels[0] then Some(levels[0][kind])
    else FirstWith(levels[1..], kind)
  }

  function Contents(s: Storage): (r: seq<Entries>)
    reads s.maps
    ensures |r| == |s.maps| && forall i | 0 <= i < |r| :: r[i] == s.maps[i].entries
  {
    seq(|s.maps|, i requires 0 <= i < |s.maps| reads s.maps => s.maps[i].entries)
  }

  function Lookup(s: Storage, kind: nat): Option<nat>
    reads s.maps
  {
    FirstWith(Contents(s), kind)
  }

  // ---------------------------------------------------------------- the storage operations

  method FindState(s: Storage, kind: nat) returns (r: Option<nat>)
    ensures r == Lookup(s, kind)
  {
    var i := 0;
    while i < |s.maps|
      invariant 0 <= i <= |s.maps|
      invariant FirstWith(Contents(s)[i..], kind) == Lookup(s, kind)
    {
      if kind in s.maps[i].entries { return Some(s.maps[i].entries[kind]); }
      assert Contents(s)[i..][1..] == Contents(s)[i + 1..];
      i := i + 1;
    }
    return None;
  }

  /** The new map is asked first; nothing changes for the original. */
  method CopyPrepend(s: Storage, m: StateMap) returns (r: Storage)
    ensures r.maps == [m] + s.maps
    ensures forall kind :: Lookup(r, kind) == if kind in m.entries then Some(m.entries[kind]) else Lookup(s, kind)
  {
    r := Storage([m] + s.maps);
    assert Contents(r)[1..] == Contents(s);
  }

  lemma {:induction false} FirstWithConcat(a: seq<Entries>, b: seq<Entries>, kind: nat)
    ensures FirstWith(a + b, kind) == if FirstWith(a, kind).Some? then FirstWith(a, kind) else FirstWith(b, kind)
    decreases |a|
  {
    if a == [] {
      assert a + b == b;
    } else {
      assert (a + b)[0] == a[0] && (a + b)[1..] == a[1..] + b;
      FirstWithConcat(a[1..], b, kind);
    }
  }

  lemma LastLevel(front: seq<Entries>, last: Entries, kind: nat)
    ensures FirstWith(front + [last], kind) ==
      if FirstWith(front, kind).Some? then FirstWith(front, kind) else if kind in last then Some(last[kind]) else None
  {
    FirstWithConcat(front, [last], kind);
    assert [last][1..] == [];
  }

  /** The new map is asked last; nothing changes for the original. */
  method CopyAppend(s: Storage, m: StateMap) returns (r: Storage)
    ensures r.maps == s.maps + [m]
    ensures forall kind | Lookup(s, kind).Some? :: Lookup(r, kind) == Lookup(s, kind)
    ensures forall kind | Lookup(s, kind).None? ::
      Lookup(r, kind) == if kind in m.entries then Some(m.entries[kind]) else None
  {
    r := Storage(s.maps + [m]);
    assert Contents(r) == Contents(s) + [m.entries];
    forall kind { LastLevel(Contents(s), m.entries, kind); }
  }

  /** The copy finds the new value. If there was a front map it is shared with the original, and so does
      the original. */
  method CopyInsertFront(s: Storage, kind: nat, value: nat) returns (r: Storage)
    modifies if s.maps == [] then {} else {s.maps[0]}
    ensures s.maps == [] ==> |r.maps| == 1 && fresh(r.maps[0]) && r.maps[0].entries == map[kind := value]
    ensures s.maps != [] ==> r.maps == s.maps && s.maps[0].entries == old(s.maps[0].entries)[kind := value]
    ensures Lookup(r, kind) == Some(value)
    ensures s.maps != [] ==> Lookup(s, kind) == Some(value)
  {
    var maps := s.maps;
    if maps == [] {
      var m := new StateMap();
      maps := [m];
    }
    maps[0].entries := maps[0].entries[kind := value];
    r := Storage(maps);
  }

  // ---------------------------------------------------------------- what builder chains leave behind

  /** A route's own state, or a scope's: later calls overwrite earlier ones. */
  function Collected(states: seq<State>): Entries {
    if states == [] then map[]
    else Collected(states[..|states| - 1])[states[|states| - 1].kind := states[|states| - 1].value]
  }

  /** Call `i` gives the type a value, and no later call does. */
  predicate LastOf(states: seq<State>, i: nat, kind: nat) {
    i < |states| && states[i].kind == kind && forall j | i < j < |states| :: states[j].kind != kind
  }

  /** A type is held if and only if some call gave it a value, and then with the value of the last that did. */
  lemma {:induction false} CollectedLast(states: seq<State>, kind: nat)
    ensures kind in Collected(states) <==> exists i | 0 <= i < |states| :: states[i].kind == kind
    ensures kind in Collected(states) ==>
      exists i | 0 <= i < |states| :: LastOf(states, i, kind) && states[i].value == Collected(states)[kind]
  {
    if states == [] {
    } else {
      var k := |states| - 1;
      CollectedLast(states[..k], kind);
      if states[k].kind == kind {
        assert LastOf(states, k, kind);
      } else if kind in Collected(states[..k]) {
        var i :| 0 <= i < k && LastOf(states[..k], i, kind) && states[..k][i].value == Collected(states[..k])[kind];
        assert forall j | i <= j < k :: states[j] == states[..k][j];
        assert LastOf(states, i, kind);
      }
    }
  }

  /** The calls of a chain, in order. */
  function Calls<Q, R>(steps: Steps<Q, R>): seq<Step<Q, R>> {
    match steps case Start => [] case Then(before, step) => Calls(before) + [step]
  }

  predicate Uses<Q, R>(step: Step<Q, R>, kind: nat) {
    step.UseState? && step.state.kind == kind
  }

  /** Call `i` uses state of the type, and no later call does. */
  predicate LastUse<Q, R>(calls: seq<Step<Q, R>>, i: nat, kind: nat) {
    i < |calls| && Uses(calls[i], kind) && forall j | i < j < |calls| :: !Uses(calls[j], kind)
  }

  lemma {:induction false} UsedIsHeld<Q, R>(steps: Steps<Q, R>, i: nat, kind: nat)
    requires i < |Calls(steps)| && Uses(Calls(steps)[i], kind)
    ensures kind in StatesOf(steps)
    decreases steps
  {
    match steps
    case Then(before, step) =>
      if i < |Calls(before)| { UsedIsHeld(before, i, kind); }
  }

  /** The same law for a scope: its map holds a type exactly when some call of its chain used it. */
  lemma StatesOfUsed<Q, R>(steps: Steps<Q, R>, kind: nat)
    ensures kind in StatesOf(steps) <==> exists i | 0 <= i < |Calls(steps)| :: Uses(Calls(steps)[i], kind)
  {
    if kind in StatesOf(steps) { var i := StatesOfLast(steps, kind); }
    if i :| 0 <= i < |Calls(steps)| && Uses(Calls(steps)[i], kind) { UsedIsHeld(steps, i, kind); }
  }

  /** And then with the value of the last such call. */
  lemma {:induction false} StatesOfLast<Q, R>(steps: Steps<Q, R>, kind: nat) returns (i: nat)
    requires kind in StatesOf(steps)
    ensures LastUse(Calls(steps), i, kind) && Calls(steps)[i].state.value == StatesOf(steps)[kind]
    decreases steps
  {
    match steps
    case Then(before, step) =>
      var calls, k := Calls(steps), |Calls(before)|;
      assert calls[k] == step && forall j | 0 <= j < k :: calls[j] == Calls(before)[j];
      if Uses(step, kind) {
        i := k;
      } else {
        i := StatesOfLast(before, kind);
        assert calls[i] == Calls(before)[i];
        assert StatesOf(steps)[kind] == StatesOf(before)[kind];
        assert forall j | i < j < |calls| :: !Uses(calls[j], kind);
      }
  }

  function StatesOf<Q, R>(steps: Steps<Q, R>): Entries {
    match steps
    case Start => map[]
    case Then(before, UseState(s)) => StatesOf(before)[s.kind := s.value]
    case Then(before, _) => StatesOf(before)
  }

  /** A scope whose map is empty when it serves is not linked at all. */
  function Link(held: Entries, content: Entries): seq<Entries> {
    if held == map[] then [] else [content]
  }

  function OwnLevel(states: seq<State>): seq<Entries> {
    if states == [] then [] else [Collected(states)]
  }

  function AppendEach(levels: seq<seq<Entries>>, tail: seq<Entries>): (r: seq<seq<Entries>>)
    ensures |r| == |levels| && forall i | 0 <= i < |r| :: r[i] == levels[i] + tail
  {
    seq(|levels|, i requires 0 <= i < |levels| => levels[i] + tail)
  }

  /** The levels each route of a scope sees, when the scope's own map holds `content`. */
  function Visible<Q, R>(steps: Steps<Q, R>, content: Entries): (r: seq<seq<Entries>>)
    decreases steps
  {
    match steps
    case Start => []
    case Then(before, ServeRoute(leaf)) =>
      Visible(before, content) + [OwnLevel(leaf.states) + Link(StatesOf(before), content)]
    case Then(before, ServeScope(child)) =>
      Visible(before, content)
      + AppendEach(Visible(child.steps, StatesOf(child.steps)), Link(StatesOf(before), content))
    case Then(before, _) => Visible(before, content)
  }

  /** A storage's levels if the map `m` held `content`. */
  function LevelsIf(s: Storage, m: StateMap, content: Entries): (r: seq<Entries>)
    reads set x | x in s.maps && x != m
    ensures |r| == |s.maps|
    ensures forall i | 0 <= i < |r| :: r[i] == if s.maps[i] == m then content else s.maps[i].entries
  {
    seq(|s.maps|, i requires 0 <= i < |s.maps| reads set x | x in s.maps && x != m =>
      if s.maps[i] == m then content else s.maps[i].entries)
  }

  /** Whatever the scope's map comes to hold, its routes see the levels they should. */
  ghost predicate Tracks<Q, R>(routes: seq<Storage>, m: StateMap, steps: Steps<Q, R>)
    reads set r, x | r in routes && x in r.maps && x != m :: x
  {
    forall content :: |Visible(steps, content)| == |routes| &&
      forall i | 0 <= i < |routes| :: LevelsIf(routes[i], m, content) == Visible(steps, content)[i]
  }

  method BuildRoute(states: seq<State>) returns (r: Storage)
    ensures forall x | x in r.maps :: fresh(x)
    ensures Contents(r) == OwnLevel(states)
    ensures forall kind ::
      Lookup(r, kind).None? <==> forall i | 0 <= i < |states| :: states[i].kind != kind
    ensures forall kind | Lookup(r, kind).Some? ::
      exists i | 0 <= i < |states| :: LastOf(states, i, kind) && states[i].value == Lookup(r, kind).value
  {
    r := Storage([]);
    for i := 0 to |states|
      invariant forall x | x in r.maps :: fresh(x)
      invariant Contents(r) == OwnLevel(states[..i])
    {
      assert states[..i + 1][..i] == states[..i];
      assert r.maps != [] ==> r.maps[0] in r.maps;
      r := CopyInsertFront(r, states[i].kind, states[i].value);
      assert Contents(r)[0] == Collected(states[..i + 1]);
    }
    assert states[..|states|] == states;
    forall kind ensures Lookup(r, kind) == if kind in Collected(states) then Some(Collected(states)[kind]) else None {
      OwnLookup(states, kind);
    }
    forall kind { CollectedLast(states, kind); }
  }

  lemma OwnLookup(states: seq<State>, kind: nat)
    ensures FirstWith(OwnLevel(states), kind)
         == if kind in Collected(states) then Some(Collected(states)[kind]) else None
  {
  }

  method RebindParent(s: Storage, m: StateMap) returns (r: Storage)
    ensures r.maps == if m.entries == map[] then s.maps else s.maps + [m]
  {
    if m.entries == map[] { return s; }
    r := CopyAppend(s, m);
  }

  lemma TracksUse<Q, R>(routes: seq<Storage>, m: StateMap, before: Steps<Q, R>, step: Step<Q, R>)
    requires Tracks(routes, m, before) && (step.Use? || step.UseState?)
    ensures Tracks(routes, m, Then(before, step))
  {
    forall content ensures Visible(Then(before, step), content) == Visible(before, content) {}
  }

  /** A rebound storage: its own maps, and the scope's if that holds something. */
  ghost predicate Rebound(r: Storage, s: Storage, m: StateMap, held: Entries) {
    m !in s.maps && r.maps == if held == map[] then s.maps else s.maps + [m]
  }

  lemma ReboundLevels(r: Storage, s: Storage, m: StateMap, held: Entries, content: Entries)
    requires Rebound(r, s, m, held)
    ensures LevelsIf(r, m, content) == Contents(s) + Link(held, content)
  {
  }

  lemma TracksRoute<Q, R>(routes: seq<Storage>, m: StateMap, before: Steps<Q, R>, leaf: Leaf<Q, R>,
                          own: Storage, route: Storage)
    requires Tracks(routes, m, before) && Contents(own) == OwnLevel(leaf.states)
    requires Rebound(route, own, m, StatesOf(before))
    ensures Tracks(routes + [route], m, Then(before, ServeRoute(leaf)))
  {
    forall content ensures Visible(Then(before, ServeRoute(leaf)), content)
        == Visible(before, content) + [LevelsIf(route, m, content)]
    {
      ReboundLevels(route, own, m, StatesOf(before), content);
    }
  }

  lemma TracksScope<Q, R>(routes: seq<Storage>, m: StateMap, before: Steps<Q, R>, child: Scope<Q, R>,
                          inner: StateMap, childRoutes: seq<Storage>, rebound: seq<Storage>)
    requires Tracks(routes, m, before)
    requires Tracks(childRoutes, inner, child.steps) && inner.entries == StatesOf(child.steps)
    requires |rebound| == |childRoutes|
    requires forall k | 0 <= k < |rebound| :: Rebound(rebound[k], childRoutes[k], m, StatesOf(before))
    ensures Tracks(routes + rebound, m, Then(before, ServeScope(child)))
  {
    forall content
      ensures |Visible(Then(before, ServeScope(child)), content)| == |routes + rebound|
      ensures forall i | 0 <= i < |routes + rebound| ::
        LevelsIf((routes + rebound)[i], m, content) == Visible(Then(before, ServeScope(child)), content)[i]
    {
      ReboundScope(m, StatesOf(before), child, inner, childRoutes, rebound, content);
    }
  }

  lemma ReboundScope<Q, R>(m: StateMap, held: Entries, child: Scope<Q, R>, inner: StateMap,
                           childRoutes: seq<Storage>, rebound: seq<Storage>, content: Entries)
    requires Tracks(childRoutes, inner, child.steps) && inner.entries == StatesOf(child.steps)
    requires |rebound| == |childRoutes|
    requires forall k | 0 <= k < |rebound| :: Rebound(rebound[k], childRoutes[k], m, held)
    ensures var levels := AppendEach(Visible(child.steps, StatesOf(child.steps)), Link(held, content));
      |levels| == |rebound| && forall k | 0 <= k < |rebound| :: LevelsIf(rebound[k], m, content) == levels[k]
  {
    var levels := Visible(child.steps, StatesOf(child.steps));
    assert |levels| == |childRoutes|;
    forall k | 0 <= k < |rebound|
      ensures LevelsIf(rebound[k], m, content) == AppendEach(levels, Link(held, content))[k]
    {
      ReboundLevels(rebound[k], childRoutes[k], m, held, content);
      assert Contents(childRoutes[k]) == LevelsIf(childRoutes[k], inner, inner.entries) == levels[k];
    }
  }

  /** Running a scope's builder chain: all its calls share one map, written in place by `use_state`. */
  method BuildScope<Q, R>(steps: Steps<Q, R>) returns (m: StateMap, routes: seq<Storage>)
    ensures fresh(m) && forall r, x | r in routes && x in r.maps :: fresh(x)
    ensures m.entries == StatesOf(steps)
    ensures Tracks(routes, m, steps)
    decreases steps
  {
    match steps {
      case Start =>
        m := new StateMap();
        routes := [];
      case Then(before, step) =>
        m, routes := BuildScope(before);
        match step {
          case Use(_) =>
            TracksUse(routes, m, before, step);
          case UseState(s) =>
            TracksUse(routes, m, before, step);
            m.entries := m.entries[s.kind := s.value];
          case ServeRoute(leaf) =>
            var own := BuildRoute(leaf.states);
            var route := RebindParent(own, m);
            TracksRoute(routes, m, before, leaf, own, route);
            routes := routes + [route];
          case ServeScope(child) =>
            var inner, childRoutes := BuildScope(child.steps);
            var rebound := RebindEach(childRoutes, m);
            TracksScope(routes, m, before, child, inner, childRoutes, rebound);
            routes := routes + rebound;
        }
    }
  }

  method RebindEach(childRoutes: seq<Storage>, m: StateMap) returns (rebound: seq<Storage>)
    ensures |rebound| == |childRoutes|
    ensures forall k | 0 <= k < |rebound| ::
      rebound[k].maps == if m.entries == map[] then childRoutes[k].maps else childRoutes[k].maps + [m]
  {
    rebound := [];
    for i := 0 to |childRoutes|
      modifies {}
      invariant |rebound| == i
      invariant forall k | 0 <= k < i ::
        rebound[k].maps == if m.entries == map[] then childRoutes[k].maps else childRoutes[k].maps + [m]
    {
      var route := RebindParent(childRoutes[i], m);
      rebound := rebound + [route];
    }
  }

  /** A lookup on a built route, in terms of the levels it sees. */
  lemma LookupMeans<Q, R>(routes: seq<Storage>, m: StateMap, steps: Steps<Q, R>, i: nat, kind: nat)
    requires Tracks(routes, m, steps) && m.entries == StatesOf(steps) && i < |routes|
    ensures i < |Visible(steps, StatesOf(steps))|
    ensures Lookup(routes[i], kind) == FirstWith(Visible(steps, StatesOf(steps))[i], kind)
  {
    assert LevelsIf(routes[i], m, m.entries) == Contents(routes[i]);
  }

  // ---------------------------------------------------------------- the nearest enclosing level

  /** The levels by the nesting: the route's own state, then what each enclosing scope holds at its
      `serve`, outward. */
  function Chain<Q, R>(steps: Steps<Q, R>): seq<seq<Entries>>
    decreases steps
  {
    match steps
    case Start => []
    case Then(before, ServeRoute(leaf)) => Chain(before) + [[Collected(leaf.states), StatesOf(before)]]
    case Then(before, ServeScope(child)) => Chain(before) + AppendEach(Chain(child.steps), [StatesOf(before)])
    case Then(before, _) => Chain(before)
  }

  /** At every `serve` the scope holds nothing yet, or all that it will ever hold. */
  predicate Settled<Q, R>(steps: Steps<Q, R>, content: Entries)
    decreases steps
  {
    match steps
    case Start => true
    case Then(before, ServeRoute(_)) =>
      Settled(before, content) && (StatesOf(before) == map[] || StatesOf(before) == content)
    case Then(before, ServeScope(child)) =>
      && Settled(before, content)
      && (StatesOf(before) == map[] || StatesOf(before) == content || LeafCount(child.steps) == 0)
      && Settled(child.steps, StatesOf(child.steps))
    case Then(before, _) => Settled(before, content)
  }

  /** The levels that hold something. */
  function Solid(levels: seq<Entries>): seq<Entries> {
    if levels == [] then []
    else Solid(levels[..|levels| - 1]) + (if levels[|levels| - 1] == map[] then [] else [levels[|levels| - 1]])
  }

  lemma SolidSnoc(front: seq<Entries>, last: Entries)
    ensures Solid(front + [last]) == Solid(front) + if last == map[] then [] else [last]
  {
    assert (front + [last])[..|front|] == front;
  }

  /** Empty levels make no difference to a lookup. */
  lemma {:induction false} FirstWithSolid(levels: seq<Entries>, kind: nat)
    ensures FirstWith(Solid(levels), kind) == FirstWith(levels, kind)
    decreases |levels|
  {
    if levels == [] {
    } else {
      var front, last := levels[..|levels| - 1], levels[|levels| - 1];
      FirstWithSolid(front, kind);
      LastLevel(front, last, kind);
      LastLevel(Solid(front), last, kind);
      assert levels == front + [last];
      assert Solid(front) + [] == Solid(front);
    }
  }

  lemma {:induction false} OneLevelList<Q, R>(steps: Steps<Q, R>, content: Entries)
    ensures |Visible(steps, content)| == LeafCount(steps) == |Chain(steps)|
    decreases steps
  {
    match steps
    case Start =>
    case Then(before, step) =>
      OneLevelList(before, content);
      if step.ServeScope? { OneLevelList(step.child.steps, StatesOf(step.child.steps)); }
  }

  lemma {:induction false} SolidLink(a: seq<Entries>, b: seq<Entries>, held: Entries, content: Entries)
    requires held != map[] ==> content != map[]
    ensures Solid(a + if held == map[] then [] else [content]) == Solid(b + [held])
       <==> Solid(a) == Solid(b) && (held == map[] || held == content)
  {
    SolidSnoc(b, held);
    if held == map[] {
      assert a + [] == a && Solid(b) + [] == Solid(b);
    } else {
      SolidSnoc(a, content);
      SnocEqual(Solid(a), content, Solid(b), held);
    }
  }

  lemma SnocEqual<T>(a: seq<T>, x: T, b: seq<T>, y: T)
    ensures a + [x] == b + [y] <==> a == b && x == y
  {
    if a + [x] == b + [y] {
      assert a == (a + [x])[..|a|] && b == (b + [y])[..|b|];
      assert x == (a + [x])[|a|] && y == (b + [y])[|b|];
    }
  }

  lemma OwnSolid(states: seq<State>)
    ensures Solid(OwnLevel(states)) == Solid([Collected(states)])
  {
    assert [Collected(states)][..0] == [];
  }

  /** The levels a route sees are those of the nesting, but for empty ones. */
  ghost predicate Agree(seen: seq<seq<Entries>>, chain: seq<seq<Entries>>) {
    |seen| == |chain| && forall i | 0 <= i < |seen| :: Solid(seen[i]) == Solid(chain[i])
  }

  lemma AgreeSnoc(seen: seq<seq<Entries>>, x: seq<Entries>, chain: seq<seq<Entries>>, y: seq<Entries>)
    requires |seen| == |chain|
    ensures Agree(seen + [x], chain + [y]) <==> Agree(seen, chain) && Solid(x) == Solid(y)
  {
    AgreeConcat(seen, [x], chain, [y]);
    assert Agree([x], [y]) <==> Solid([x][0]) == Solid([y][0]);
  }

  lemma AgreeConcat(a: seq<seq<Entries>>, b: seq<seq<Entries>>, c: seq<seq<Entries>>, d: seq<seq<Entries>>)
    requires |a| == |c| && |b| == |d|
    ensures Agree(a + b, c + d) <==> Agree(a, c) && Agree(b, d)
  {
    if Agree(a + b, c + d) {
      assert forall i | 0 <= i < |a| :: a[i] == (a + b)[i] && c[i] == (c + d)[i];
      assert forall i | 0 <= i < |b| :: b[i] == (a + b)[|a| + i] && d[i] == (c + d)[|a| + i];
    }
  }

  lemma AgreeLinked<Q, R>(seen: seq<seq<Entries>>, chain: seq<seq<Entries>>, before: Steps<Q, R>, content: Entries)
    requires |seen| == |chain| && (StatesOf(before) != map[] ==> content != map[])
    ensures Agree(AppendEach(seen, Link(StatesOf(before), content)), AppendEach(chain, [StatesOf(before)]))
       <==> Agree(seen, chain) && (seen == [] || StatesOf(before) == map[] || StatesOf(before) == content)
  {
    var held := StatesOf(before);
    var x, y := AppendEach(seen, Link(StatesOf(before), content)), AppendEach(chain, [held]);
    forall i | 0 <= i < |seen|
      ensures Solid(x[i]) == Solid(y[i]) <==> Solid(seen[i]) == Solid(chain[i]) && (held == map[] || held == content)
    {
      SolidLink(seen[i], chain[i], held, content);
    }
    if seen != [] && Agree(x, y) {
      assert Solid(x[0]) == Solid(y[0]);
    }
  }

  lemma {:induction false} SubKeys<Q, R>(before: Steps<Q, R>, step: Step<Q, R>)
    ensures StatesOf(before).Keys <= StatesOf(Then(before, step)).Keys
  {
  }

  /** Every route sees the nearest enclosing state exactly when the scopes are settled at each `serve`. */
  lemma {:induction false} SeenIsNearest<Q, R>(steps: Steps<Q, R>, content: Entries)
    requires StatesOf(steps).Keys <= content.Keys
    ensures Agree(Visible(steps, content), Chain(steps)) <==> Settled(steps, content)
    decreases steps
  {
    match steps
    case Start =>
    case Then(before, step) =>
      SubKeys(before, step);
      SeenIsNearest(before, content);
      OneLevelList(before, content);
      NonEmptyKeys(StatesOf(before), content);
      match step
      case Use(_) =>
      case UseState(_) =>
      case ServeRoute(leaf) =>
        SeenIsNearestLeaf(before, leaf, content);
      case ServeScope(child) =>
        SeenIsNearestScope(before, child, content);
  }

  lemma SeenIsNearestLeaf<Q, R>(before: Steps<Q, R>, leaf: Leaf<Q, R>, content: Entries)
    requires StatesOf(before).Keys <= content.Keys
    ensures
      var steps := Then(before, ServeRoute(leaf));
      Agree(Visible(steps, content), Chain(steps)) <==>
        Agree(Visible(before, content), Chain(before)) && (StatesOf(before) == map[] || StatesOf(before) == content)
  {
    var own := OwnLevel(leaf.states) + Link(StatesOf(before), content);
    var levels := [Collected(leaf.states), StatesOf(before)];
    OneLevelList(before, content);
    NonEmptyKeys(StatesOf(before), content);
    AgreeSnoc(Visible(before, content), own, Chain(before), levels);
    SolidLink(OwnLevel(leaf.states), [Collected(leaf.states)], StatesOf(before), content);
    OwnSolid(leaf.states);
    assert [Collected(leaf.states)] + [StatesOf(before)] == levels;
  }

  lemma NonEmptyKeys(a: Entries, b: Entries)
    requires a.Keys <= b.Keys
    ensures a != map[] ==> b != map[]
  {
    if a != map[] {
      var k :| k in a;
      assert k in b;
    }
  }

  lemma {:induction false} SeenIsNearestScope<Q, R>(before: Steps<Q, R>, child: Scope<Q, R>, content: Entries)
    requires StatesOf(before).Keys <= content.Keys
    ensures
      var steps := Then(before, ServeScope(child));
      Agree(Visible(steps, content), Chain(steps)) <==>
        Agree(Visible(before, content), Chain(before))
        && (StatesOf(before) == map[] || StatesOf(before) == content || LeafCount(child.steps) == 0)
        && Settled(child.steps, StatesOf(child.steps))
    decreases child
  {
    var inner := StatesOf(child.steps);
    SeenIsNearest(child.steps, inner);
    OneLevelList(before, content);
    OneLevelList(child.steps, inner);
    NonEmptyKeys(StatesOf(before), content);
    AgreeConcat(Visible(before, content), AppendEach(Visible(child.steps, inner), Link(StatesOf(before), content)),
                Chain(before), AppendEach(Chain(child.steps), [StatesOf(before)]));
    AgreeLinked(Visible(child.steps, inner), Chain(child.steps), before, content);
  }

  /** On settled scopes a lookup returns the value registered at the nearest enclosing level. */
  lemma LookupNearest<Q, R>(routes: seq<Storage>, m: StateMap, steps: Steps<Q, R>, i: nat, kind: nat)
    requires Tracks(routes, m, steps) && m.entries == StatesOf(steps) && i < |routes|
    requires Settled(steps, StatesOf(steps))
    ensures i < |Chain(steps)| && Lookup(routes[i], kind) == FirstWith(Chain(steps)[i], kind)
  {
    LookupMeans(routes, m, steps, i, kind);
    SeenIsNearest(steps, StatesOf(steps));
    FirstWithSolid(Visible(steps, StatesOf(steps))[i], kind);
    FirstWithSolid(Chain(steps)[i], kind);
  }

  /** The discipline that settles every scope: all `use_state` calls before the first `serve`. */
  predicate StatesFirst<Q, R>(steps: Steps<Q, R>)
    decreases steps
  {
    match steps
    case Start => true
    case Then(before, UseState(_)) => StatesFirst(before) && !Serves(before)
    case Then(before, ServeScope(child)) => StatesFirst(before) && StatesFirst(child.steps)
    case Then(before, _) => StatesFirst(before)
  }

  predicate Serves<Q, R>(steps: Steps<Q, R>) {
    steps.Then? && (steps.step.ServeRoute? || steps.step.ServeScope? || Serves(steps.before))
  }

  lemma {:induction false} StatesFirstSettles<Q, R>(steps: Steps<Q, R>, content: Entries)
    requires StatesFirst(steps) && (Serves(steps) ==> StatesOf(steps) == content)
    ensures Settled(steps, content)
    decreases steps
  {
    match steps
    case Start =>
    case Then(before, step) =>
      StatesFirstSettles(before, content);
      if step.ServeScope? { StatesFirstSettles(step.child.steps, StatesOf(step.child.steps)); }
  }

  /** A route in a scope in a scope: its own state is found first, then the inner scope's, then the outer's. */
  lemma NearestWins<Q, R>(leaf: Leaf<Q, R>, path: string, inner: State, outer: State, kind: nat)
    ensures
      var child := Scope(path, Then(Then(Start, UseState(inner)), ServeRoute(leaf)));
      var steps := Then(Then(Start, UseState(outer)), ServeScope(child));
      |Visible(steps, StatesOf(steps))| == 1 && FirstWith(Visible(steps, StatesOf(steps))[0], kind) ==
        if kind in Collected(leaf.states) then Some(Collected(leaf.states)[kind])
        else if kind == inner.kind then Some(inner.value)
        else if kind == outer.kind then Some(outer.value)
        else None
  {
    var start: Steps<Q, R> := Start;
    var one, two := Then(start, UseState(inner)), Then(start, UseState(outer));
    var served := Then(one, ServeRoute(leaf));
    var held, around := map[inner.kind := inner.value], map[outer.kind := outer.value];
    assert StatesOf(one) == held && StatesOf(served) == held && StatesOf(two) == around;
    assert inner.kind in held && outer.kind in around;
    assert Visible(start, held) == [] && Visible(start, around) == [];
    assert Visible(one, held) == [];
    assert Visible(two, around) == [];
    var levels := OwnLevel(leaf.states) + [held];
    assert Visible(served, held) == [] + [levels] == [levels];
    var child := Scope(path, served);
    assert Visible(Then(two, ServeScope(child)), around) == [] + AppendEach([levels], [around]);
    assert AppendEach([levels], [around])[0] == levels + [around];
    FirstWithConcat(OwnLevel(leaf.states), [held, around], kind);
    assert OwnLevel(leaf.states) + [held, around] == levels + [around];
    assert [held] + [around] == [held, around];
    FirstWithConcat([held], [around], kind);
    OwnLookup(leaf.states, kind);
  }

  /** State used after `serve`: seen if the scope held anything before, and not seen if it held nothing. */
  lemma LateState<Q, R>(leaf: Leaf<Q, R>)
    requires leaf.states == []
    ensures
      var early := Then(Then(Then(Start, UseState(State(0, 1))), ServeRoute(leaf)), UseState(State(0, 2)));
      Visible(early, StatesOf(early)) == [[map[0 := 2]]] && Chain(early) == [[map[], map[0 := 1]]]
    ensures
      var late := Then(Then(Start, ServeRoute(leaf)), UseState(State(0, 2)));
      Visible(late, StatesOf(late)) == [[]] && StatesOf(late) == map[0 := 2]
  {
    var start: Steps<Q, R> := Start;
    var one := Then(start, UseState(State(0, 1)));
    var served := Then(one, ServeRoute(leaf));
    var early := Then(served, UseState(State(0, 2)));
    assert StatesOf(one) == map[0 := 1] && StatesOf(served) == map[0 := 1];
    assert StatesOf(early) == map[0 := 2];
    assert Visible(one, map[0 := 2]) == [] && Chain(one) == [];
    assert 0 in StatesOf(one) && StatesOf(one) != map[];
    assert Link(StatesOf(one), map[0 := 2]) == [map[0 := 2]];
    assert OwnLevel(leaf.states) + Link(StatesOf(one), map[0 := 2]) == [map[0 := 2]];
    assert Visible(served, map[0 := 2]) == [] + [[map[0 := 2]]];
    assert Chain(served) == [[map[], map[0 := 1]]];
    var plain := Then(start, ServeRoute(leaf));
    assert OwnLevel(leaf.states) + Link(StatesOf(start), map[0 := 2]) == [];
    assert Visible(start, map[0 := 2]) == [];
    assert Visible(plain, map[0 := 2]) == [] + [[]];
    assert StatesOf(plain) == map[];
  }
}
