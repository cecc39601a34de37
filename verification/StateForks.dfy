/** Scope values used more than once: a builder call leaves the value it was made on as it was, and any
    value can be built upon again; but all values made from one scope share its map of state. */
module StateForks {
  import opened ScopeFlatten
  import opened StateMaps

  /** A call on one of the values made so far. Value 0 is the new scope, and call `k` makes value `k + 1`. */
  datatype Call<!Q, !R> = Call(from: nat, step: Step<Q, R>)

  predicate InOrder<Q, R>(calls: seq<Call<Q, R>>) {
    forall k | 0 <= k < |calls| :: calls[k].from <= k
  }

  /** What the shared map holds after some calls, whichever values they were made on. */
  function Held<Q, R>(calls: seq<Call<Q, R>>): Entries {
    if calls == [] then map[] else
    var before, step := Held(calls[..|calls| - 1]), calls[|calls| - 1].step;
    if step.UseState? then before[step.state.kind := step.state.value] else before
  }

  predicate UsedBy<Q, R>(call: Call<Q, R>, kind: nat) {
    Uses(call.step, kind)
  }

  /** What the shared map holds is what the last `use_state` call of a type gave, on whichever value. */
  lemma {:induction false} HeldLast<Q, R>(calls: seq<Call<Q, R>>, kind: nat)
    ensures kind in Held(calls) <==> exists i | 0 <= i < |calls| :: UsedBy(calls[i], kind)
    ensures kind in Held(calls) ==> exists i | 0 <= i < |calls| ::
      && UsedBy(calls[i], kind) && (forall j | i < j < |calls| :: !UsedBy(calls[j], kind))
      && calls[i].step.state.value == Held(calls)[kind]
  {
    if calls == [] {
    } else {
      var k := |calls| - 1;
      var front := calls[..k];
      HeldLast(front, kind);
      assert forall j | 0 <= j < k :: front[j] == calls[j];
      if !UsedBy(calls[k], kind) && kind in Held(front) {
        var i :| 0 <= i < k && UsedBy(front[i], kind) && (forall j | i < j < k :: !UsedBy(front[j], kind))
          && front[i].step.state.value == Held(front)[kind];
        assert UsedBy(calls[i], kind);
      }
    }
  }

  /** The levels of the routes that a call adds, when the map held `held` and comes to hold `content`. */
  function Added<Q, R>(step: Step<Q, R>, held: Entries, content: Entries): seq<seq<Entries>> {
    match step
    case ServeRoute(leaf) => [OwnLevel(leaf.states) + Link(held, content)]
    case ServeScope(child) => AppendEach(Visible(child.steps, StatesOf(child.steps)), Link(held, content))
    case _ => []
  }

  /** The levels that each route of value `v` sees, when the shared map holds `content`. */
  function ForkVisible<Q, R>(calls: seq<Call<Q, R>>, v: nat, content: Entries): seq<seq<Entries>>
    requires InOrder(calls) && v <= |calls|
    decreases v
  {
    if v == 0 then [] else
    ForkVisible(calls, calls[v - 1].from, content) + Added(calls[v - 1].step, Held(calls[..v - 1]), content)
  }

  // ---------------------------------------------------------------- on the heap

  function LevelsOf(routes: seq<Storage>, m: StateMap, content: Entries): (r: seq<seq<Entries>>)
    reads set s, x | s in routes && x in s.maps && x != m :: x
    ensures |r| == |routes| && forall i | 0 <= i < |r| :: r[i] == LevelsIf(routes[i], m, content)
  {
    seq(|routes|, i requires 0 <= i < |routes| reads set s, x | s in routes && x in s.maps && x != m :: x =>
      LevelsIf(routes[i], m, content))
  }

  /** Whatever the shared map comes to hold, the routes of value `v` see the levels they should. */
  ghost predicate TracksFork<Q, R>(routes: seq<Storage>, m: StateMap, calls: seq<Call<Q, R>>, v: nat)
    requires InOrder(calls) && v <= |calls|
    reads set s, x | s in routes && x in s.maps && x != m :: x
  {
    forall content :: LevelsOf(routes, m, content) == ForkVisible(calls, v, content)
  }

  /** The routes that a call adds to a value. */
  method Serve<Q, R>(step: Step<Q, R>, m: StateMap) returns (added: seq<Storage>)
    ensures forall s, x | s in added && x in s.maps :: x == m || fresh(x)
    ensures forall content :: LevelsOf(added, m, content) == Added(step, m.entries, content)
  {
    match step {
      case Use(_) =>
        added := [];
      case UseState(_) =>
        added := [];
      case ServeRoute(leaf) =>
        var own := BuildRoute(leaf.states);
        var route := StateMaps.RebindParent(own, m);
        added := [route];
        forall content ensures LevelsOf(added, m, content) == Added(step, m.entries, content) {
          ReboundLevels(route, own, m, m.entries, content);
        }
      case ServeScope(child) =>
        var inner, childRoutes := BuildScope(child.steps);
        added := RebindEach(childRoutes, m);
        forall content ensures LevelsOf(added, m, content) == Added(step, m.entries, content) {
          ReboundScope(m, m.entries, child, inner, childRoutes, added, content);
        }
    }
  }

  /** Values 0 to `|values| - 1` hold the routes they should. */
  ghost predicate AllTrack<Q, R>(values: seq<seq<Storage>>, m: StateMap, calls: seq<Call<Q, R>>)
    requires InOrder(calls)
    reads set v, s, x | v in values && s in v && x in s.maps && x != m :: x
  {
    |values| <= |calls| + 1 && forall v | 0 <= v < |values| :: TracksFork(values[v], m, calls, v)
  }

  /** Running the calls: every value keeps its own list of routes, and `use_state` writes the one map. */
  method BuildForks<Q, R>(calls: seq<Call<Q, R>>) returns (m: StateMap, values: seq<seq<Storage>>)
    requires InOrder(calls)
    ensures fresh(m) && m.entries == Held(calls)
    ensures |values| == |calls| + 1 && AllTrack(values, m, calls)
  {
    m := new StateMap();
    values := [[]];
    for k := 0 to |calls|
      invariant fresh(m) && m.entries == Held(calls[..k])
      invariant |values| == k + 1 && AllTrack(values, m, calls)
    {
      values := MakeCall(values, m, calls, k);
    }
    assert calls[..|calls|] == calls;
  }

  method MakeCall<Q, R>(values: seq<seq<Storage>>, m: StateMap, calls: seq<Call<Q, R>>, k: nat)
    returns (more: seq<seq<Storage>>)
    requires InOrder(calls) && k < |calls| && m.entries == Held(calls[..k])
    requires |values| == k + 1 && AllTrack(values, m, calls)
    modifies m
    ensures m.entries == Held(calls[..k + 1])
    ensures |more| == k + 2 && more[..k + 1] == values && AllTrack(more, m, calls)
  {
    assert calls[..k + 1][..k] == calls[..k];
    var call := calls[k];
    var added := Serve(call.step, m);
    Extends(values[call.from], added, m, calls, k);
    AllTrackMore(values, values[call.from] + added, m, calls);
    more := values + [values[call.from] + added];
    if call.step.UseState? { m.entries := m.entries[call.step.state.kind := call.step.state.value]; }
  }

  lemma AllTrackMore<Q, R>(values: seq<seq<Storage>>, routes: seq<Storage>, m: StateMap, calls: seq<Call<Q, R>>)
    requires InOrder(calls) && AllTrack(values, m, calls)
    requires |values| <= |calls| && TracksFork(routes, m, calls, |values|)
    ensures AllTrack(values + [routes], m, calls)
  {
  }

  lemma Extends<Q, R>(routes: seq<Storage>, added: seq<Storage>, m: StateMap, calls: seq<Call<Q, R>>, k: nat)
    requires InOrder(calls) && k < |calls| && TracksFork(routes, m, calls, calls[k].from)
    requires forall content :: LevelsOf(added, m, content) == Added(calls[k].step, Held(calls[..k]), content)
    ensures TracksFork(routes + added, m, calls, k + 1)
  {
    forall content ensures LevelsOf(routes + added, m, content) == ForkVisible(calls, k + 1, content) {
      LevelsConcat(routes, added, m, content);
    }
  }

  lemma LevelsConcat(a: seq<Storage>, b: seq<Storage>, m: StateMap, content: Entries)
    ensures LevelsOf(a + b, m, content) == LevelsOf(a, m, content) + LevelsOf(b, m, content)
  {
  }

  /** A lookup on a route of any value, in terms of the levels it sees. */
  lemma ForkLookup<Q, R>(routes: seq<Storage>, m: StateMap, calls: seq<Call<Q, R>>, v: nat, i: nat, kind: nat)
    requires InOrder(calls) && v <= |calls| && TracksFork(routes, m, calls, v)
    requires m.entries == Held(calls) && i < |routes|
    ensures |ForkVisible(calls, v, Held(calls))| == |routes|
    ensures Lookup(routes[i], kind) == FirstWith(ForkVisible(calls, v, Held(calls))[i], kind)
  {
    assert LevelsOf(routes, m, m.entries) == ForkVisible(calls, v, Held(calls));
    assert LevelsIf(routes[i], m, m.entries) == Contents(routes[i]);
  }

  // ---------------------------------------------------------------- each value for itself

  /** The chain of calls that made value `v`. */
  function Own<Q, R>(calls: seq<Call<Q, R>>, v: nat): Steps<Q, R>
    requires InOrder(calls) && v <= |calls|
    decreases v
  {
    if v == 0 then Start else Then(Own(calls, calls[v - 1].from), calls[v - 1].step)
  }

  /** Each `serve` on the way to value `v` links the map as its own chain would, to the same content. */
  predicate Undisturbed<Q, R>(calls: seq<Call<Q, R>>, v: nat, content: Entries, own: Entries)
    requires InOrder(calls) && v <= |calls|
    decreases v
  {
    v == 0 ||
    var call := calls[v - 1];
    && Undisturbed(calls, call.from, content, own)
    && (Added(call.step, map[], map[]) == []
        || Link(Held(calls[..v - 1]), content) == Link(StatesOf(Own(calls, call.from)), own))
  }

  lemma AddedEqual<Q, R>(step: Step<Q, R>, a: Entries, content: Entries, b: Entries, own: Entries)
    ensures |Added(step, a, content)| == |Added(step, b, own)|
    ensures Added(step, a, content) == Added(step, b, own)
       <==> Added(step, map[], map[]) == [] || Link(a, content) == Link(b, own)
  {
    match step
    case ServeRoute(leaf) => SameFront(OwnLevel(leaf.states), Link(a, content), Link(b, own));
    case ServeScope(child) =>
      var levels := Visible(child.steps, StatesOf(child.steps));
      if levels != [] {
        SameFront(levels[0], Link(a, content), Link(b, own));
        assert AppendEach(levels, Link(a, content))[0] == levels[0] + Link(a, content);
        assert AppendEach(levels, Link(b, own))[0] == levels[0] + Link(b, own);
      }
    case _ =>
  }

  lemma SameFront<T>(front: seq<T>, x: seq<T>, y: seq<T>)
    ensures front + x == front + y <==> x == y
  {
    assert (front + x)[|front|..] == x && (front + y)[|front|..] == y;
  }

  lemma ConcatEqual<T>(a: seq<T>, x: seq<T>, b: seq<T>, y: seq<T>)
    requires |a| == |b|
    ensures a + x == b + y <==> a == b && x == y
  {
    assert (a + x)[..|a|] == a && (a + x)[|a|..] == x && (b + y)[..|b|] == b && (b + y)[|b|..] == y;
  }

  /** The routes of a value see what they would see if no other value had been built, exactly when the
      calls on other values disturb no `serve` on its own way. */
  lemma {:induction false} ForkIsAlone<Q, R>(calls: seq<Call<Q, R>>, v: nat, content: Entries, own: Entries)
    requires InOrder(calls) && v <= |calls|
    ensures |ForkVisible(calls, v, content)| == |Visible(Own(calls, v), own)|
    ensures ForkVisible(calls, v, content) == Visible(Own(calls, v), own) <==> Undisturbed(calls, v, content, own)
    decreases v
  {
    if v == 0 {
    } else {
      var call := calls[v - 1];
      var a, b := ForkVisible(calls, call.from, content), Visible(Own(calls, call.from), own);
      var held, mine := Held(calls[..v - 1]), StatesOf(Own(calls, call.from));
      ForkIsAlone(calls, call.from, content, own);
      AddedEqual(call.step, held, content, mine, own);
      ConcatEqual(a, Added(call.step, held, content), b, Added(call.step, mine, own));
      VisibleAdds(Own(calls, call.from), call.step, own);
    }
  }

  lemma VisibleAdds<Q, R>(before: Steps<Q, R>, step: Step<Q, R>, content: Entries)
    ensures Visible(Then(before, step), content) == Visible(before, content) + Added(step, StatesOf(before), content)
  {
    if step.Use? || step.UseState? { assert Visible(before, content) + [] == Visible(before, content); }
  }

  /** The discipline that keeps values apart: state is used first, in one chain, and all building upon a
      value again comes later. */
  predicate StatesBeforeForks<Q, R>(calls: seq<Call<Q, R>>, n: nat) {
    && n <= |calls|
    && (forall k | 0 <= k < n :: calls[k].from == k)
    && (forall k | n <= k < |calls| :: n <= calls[k].from <= k && !calls[k].step.UseState?)
  }

  lemma {:induction false} HeldStays<Q, R>(calls: seq<Call<Q, R>>, n: nat, k: nat)
    requires StatesBeforeForks(calls, n) && n <= k <= |calls|
    ensures Held(calls[..k]) == Held(calls[..n])
    decreases k
  {
    if k == n {
    } else {
      HeldStays(calls, n, k - 1);
      assert calls[..k][..k - 1] == calls[..k - 1];
    }
  }

  lemma {:induction false} OwnHeld<Q, R>(calls: seq<Call<Q, R>>, n: nat, v: nat)
    requires InOrder(calls) && StatesBeforeForks(calls, n) && v <= |calls|
    ensures StatesOf(Own(calls, v)) == Held(calls[..if v < n then v else n])
    decreases v
  {
    if v == 0 {
    } else {
      OwnHeld(calls, n, calls[v - 1].from);
      if v <= n { assert calls[..v][..v - 1] == calls[..v - 1]; }
    }
  }

  lemma {:induction false} DisciplineUndisturbed<Q, R>(calls: seq<Call<Q, R>>, n: nat, v: nat)
    requires InOrder(calls) && StatesBeforeForks(calls, n) && v <= |calls|
    ensures Undisturbed(calls, v, Held(calls), Held(calls))
    decreases v
  {
    if v == 0 {
    } else {
      DisciplineUndisturbed(calls, n, calls[v - 1].from);
      OwnHeld(calls, n, calls[v - 1].from);
      if v > n { HeldStays(calls, n, v - 1); }
    }
  }

  /** So under that discipline every value sees what its own chain would give it. */
  lemma StatesFirstApart<Q, R>(calls: seq<Call<Q, R>>, n: nat, v: nat)
    requires InOrder(calls) && StatesBeforeForks(calls, n) && n <= v <= |calls|
    ensures ForkVisible(calls, v, Held(calls)) == Visible(Own(calls, v), StatesOf(Own(calls, v)))
  {
    HeldStays(calls, n, |calls|);
    assert calls[..|calls|] == calls;
    OwnHeld(calls, n, v);
    DisciplineUndisturbed(calls, n, v);
    ForkIsAlone(calls, v, Held(calls), StatesOf(Own(calls, v)));
  }

  /** Two values built upon one scope: the state used for one is what the route of the other sees. */
  lemma ForkLeaks<Q, R>(leaf: Leaf<Q, R>)
    requires leaf.states == []
    ensures
      var calls := [Call(0, UseState(State(0, 1))), Call(1, ServeRoute(leaf)), Call(1, UseState(State(0, 2)))];
      && InOrder(calls) && ForkVisible(calls, 2, Held(calls)) == [[map[0 := 2]]]
      && Visible(Own(calls, 2), StatesOf(Own(calls, 2))) == [[map[0 := 1]]]
  {
    var calls := [Call(0, UseState(State(0, 1))), Call(1, ServeRoute(leaf)), Call(1, UseState(State(0, 2)))];
    var start: Steps<Q, R> := Start;
    var one := Then(start, UseState(State(0, 1)));
    HeldThree(calls);
    assert 0 in map[0 := 1] && StatesOf(one) == map[0 := 1] && Own(calls, 1) == one;
    LeafAdds(leaf, map[0 := 1], map[0 := 2]);
    LeafAdds(leaf, map[0 := 1], map[0 := 1]);
    VisibleAdds(one, ServeRoute(leaf), map[0 := 1]);
    assert ForkVisible(calls, 1, map[0 := 2]) == [] && Visible(one, map[0 := 1]) == [];
  }

  lemma HeldThree<Q, R>(calls: seq<Call<Q, R>>)
    requires |calls| == 3 && calls[0].step == UseState(State(0, 1))
    requires calls[1].step.ServeRoute? && calls[2].step == UseState(State(0, 2))
    ensures Held(calls[..1]) == map[0 := 1] && Held(calls) == map[0 := 2]
  {
    assert calls[..2][..1] == calls[..1] && calls[..1][..0] == [];
    assert Held(calls[..2]) == Held(calls[..1]) == map[][0 := 1];
  }

  lemma LeafAdds<Q, R>(leaf: Leaf<Q, R>, held: Entries, content: Entries)
    requires leaf.states == [] && held != map[]
    ensures Added(ServeRoute(leaf), held, content) == [[content]]
  {
    assert OwnLevel(leaf.states) + Link(held, content) == [content];
  }
}
