/** Reordering siblings by weight: it returns the number of distinct registered shapes, keeps every
    stored copy where its shape says, and changes no lookup of a prefix-free tree. */
module RouterOptimize {
  import opened Wrappers
  import opened RouteShape
  import opened RouterTree
  import opened RouterEntries
  import opened RouterSearch
  import opened RouterSplit

  datatype Weighted<T> = Weighted(weight: nat, node: T)

  /** The first position held by something lighter. */
  function Slot<T>(ws: seq<Weighted<T>>, weight: nat): (k: nat)
    ensures k <= |ws| && (k < |ws| ==> ws[k].weight < weight)
    ensures forall i | 0 <= i < k :: ws[i].weight >= weight
  {
    if ws == [] || ws[0].weight < weight then 0 else 1 + Slot(ws[1..], weight)
  }

  /** Puts `w` after the leading entries at least as heavy, as an ordered multimap does. */
  function Place<T>(ws: seq<Weighted<T>>, w: Weighted<T>): seq<Weighted<T>> {
    var k := Slot(ws, w.weight);
    ws[..k] + [w] + ws[k..]
  }

  function ByWeight<T>(ws: seq<Weighted<T>>): seq<Weighted<T>> {
    if ws == [] then [] else Place(ByWeight(ws[..|ws| - 1]), ws[|ws| - 1])
  }

  function Nodes(ws: seq<Weighted<Node>>): (ns: seq<Node>)
    ensures |ns| == |ws| && forall i | 0 <= i < |ws| :: ns[i] == ws[i].node
  {
    seq(|ws|, i requires 0 <= i < |ws| => ws[i].node)
  }

  function Weights(ws: seq<Weighted<Node>>): (xs: seq<nat>)
    ensures |xs| == |ws| && forall i | 0 <= i < |ws| :: xs[i] == ws[i].weight
  {
    seq(|ws|, i requires 0 <= i < |ws| => ws[i].weight)
  }

  function Optimize(n: Node): (w: Weighted<Node>)
    ensures w.node.prefix == n.prefix
    decreases n
  {
    var ws := seq(|n.statics|, i requires 0 <= i < |n.statics| => Optimize(n.statics[i]));
    var param := if n.param.Some? then Some(Optimize(n.param.value)) else None;
    Weighted(
      Sum(Weights(ws))
      + (if n.routes != map[] then 1 else 0)
      + (if param.Some? then param.value.weight else 0)
      + (if n.wildcard != map[] then 1 else 0),
      n.(statics := Nodes(ByWeight(ws)), param := if param.Some? then Some(param.value.node) else None))
  }

  ghost function Children(n: Node): (ws: seq<Weighted<Node>>)
    ensures |ws| == |n.statics| && forall i | 0 <= i < |ws| :: ws[i] == Optimize(n.statics[i])
  {
    seq(|n.statics|, i requires 0 <= i < |n.statics| => Optimize(n.statics[i]))
  }

  lemma OptimizeUnfold(n: Node)
    ensures var w := Optimize(n);
      && w.node.statics == Nodes(ByWeight(Children(n)))
      && w.weight == Sum(Weights(Children(n))) + (if n.routes != map[] then 1 else 0)
           + (if n.param.Some? then Optimize(n.param.value).weight else 0) + (if n.wildcard != map[] then 1 else 0)
  {
    assert Children(n) == seq(|n.statics|, i requires 0 <= i < |n.statics| => Optimize(n.statics[i]));
  }

  // ---------------------------------------------------------------- the sort

  ghost predicate Descending<T>(ws: seq<Weighted<T>>) {
    forall i, j | 0 <= i < j < |ws| :: ws[i].weight >= ws[j].weight
  }

  /** The sort orders by falling weight and neither loses nor invents a sibling. */
  lemma {:induction false} ByWeightSorts<T>(ws: seq<Weighted<T>>)
    ensures Descending(ByWeight(ws)) && multiset(ByWeight(ws)) == multiset(ws)
  {
    if ws == [] {
    } else {
      var init, w := ws[..|ws| - 1], ws[|ws| - 1];
      ByWeightSorts(init);
      PlaceOrdered(ByWeight(init), w);
      assert ws == init + [w];
    }
  }

  /** The entries of one weight, in their order. */
  function OfWeight<T>(ws: seq<Weighted<T>>, weight: nat): seq<Weighted<T>> {
    if ws == [] then []
    else OfWeight(ws[..|ws| - 1], weight) + if ws[|ws| - 1].weight == weight then [ws[|ws| - 1]] else []
  }

  lemma {:induction false} OfWeightConcat<T>(a: seq<Weighted<T>>, b: seq<Weighted<T>>, weight: nat)
    ensures OfWeight(a + b, weight) == OfWeight(a, weight) + OfWeight(b, weight)
    decreases |b|
  {
    if b == [] {
      assert a + b == a;
    } else {
      var k := |b| - 1;
      assert (a + b)[..|a + b| - 1] == a + b[..k];
      OfWeightConcat(a, b[..k], weight);
    }
  }

  lemma {:induction false} NoneOfWeight<T>(ws: seq<Weighted<T>>, weight: nat)
    requires forall i | 0 <= i < |ws| :: ws[i].weight != weight
    ensures OfWeight(ws, weight) == []
  {
    if ws == [] {
    } else {
      NoneOfWeight(ws[..|ws| - 1], weight);
    }
  }

  lemma OfWeightOne<T>(w: Weighted<T>, weight: nat)
    ensures OfWeight([w], weight) == if w.weight == weight then [w] else []
  {
    assert [w][..0] == [];
  }

  lemma PlaceStable<T>(sorted: seq<Weighted<T>>, w: Weighted<T>, weight: nat)
    requires Descending(sorted)
    ensures OfWeight(Place(sorted, w), weight) == OfWeight(sorted, weight) + OfWeight([w], weight)
  {
    var k := Slot(sorted, w.weight);
    if w.weight == weight { NoneOfWeight(sorted[k..], weight); }
    assert sorted[..k] + sorted[k..] == sorted;
    BetweenStable(sorted[..k], w, sorted[k..], weight);
  }

  lemma BetweenStable<T>(front: seq<Weighted<T>>, w: Weighted<T>, back: seq<Weighted<T>>, weight: nat)
    requires w.weight == weight ==> OfWeight(back, weight) == []
    ensures OfWeight(front + [w] + back, weight) == OfWeight(front + back, weight) + OfWeight([w], weight)
  {
    OfWeightConcat(front + [w], back, weight);
    OfWeightConcat(front, [w], weight);
    OfWeightConcat(front, back, weight);
    OfWeightOne(w, weight);
    if w.weight == weight {
      EmptyEnd(OfWeight(front, weight), [w]);
    } else {
      EmptyMiddle(OfWeight(front, weight), OfWeight(back, weight));
    }
  }

  lemma EmptyEnd<T>(a: seq<T>, b: seq<T>)
    ensures (a + b) + [] == (a + []) + b
  {
  }

  lemma EmptyMiddle<T>(a: seq<T>, b: seq<T>)
    ensures (a + []) + b == (a + b) + []
  {
  }

  /** Entries of equal weight keep their order. */
  lemma {:induction false} ByWeightStable<T>(ws: seq<Weighted<T>>, weight: nat)
    ensures OfWeight(ByWeight(ws), weight) == OfWeight(ws, weight)
  {
    if ws == [] {
    } else {
      var init, w := ws[..|ws| - 1], ws[|ws| - 1];
      ByWeightStable(init, weight);
      ByWeightSorts(init);
      PlaceStable(ByWeight(init), w, weight);
      OfWeightOne(w, weight);
    }
  }

  lemma PlaceOrdered<T>(sorted: seq<Weighted<T>>, w: Weighted<T>)
    requires Descending(sorted)
    ensures Descending(Place(sorted, w)) && multiset(Place(sorted, w)) == multiset(sorted) + multiset{w}
  {
    var k := Slot(sorted, w.weight);
    InsertedMultiset(sorted, k, w);
    InsertedDescending(sorted, k, w);
  }

  lemma InsertedMultiset<T>(xs: seq<T>, k: nat, x: T)
    requires k <= |xs|
    ensures multiset(xs[..k] + [x] + xs[k..]) == multiset(xs) + multiset{x}
  {
    assert xs == xs[..k] + xs[k..];
  }

  lemma InsertedDescending<T>(ws: seq<Weighted<T>>, k: nat, w: Weighted<T>)
    requires k <= |ws| && Descending(ws)
    requires (forall i | 0 <= i < k :: ws[i].weight >= w.weight) && (k < |ws| ==> ws[k].weight < w.weight)
    ensures Descending(ws[..k] + [w] + ws[k..])
  {
    var vs := ws[..k] + [w] + ws[k..];
    assert forall i | 0 <= i < k :: vs[i] == ws[i];
    assert forall i | k < i < |vs| :: vs[i] == ws[i - 1];
  }

  ghost function Mapped(ws: seq<Weighted<Node>>, f: Weighted<Node> -> nat): (xs: seq<nat>)
    ensures |xs| == |ws| && forall i | 0 <= i < |ws| :: xs[i] == f(ws[i])
  {
    seq(|ws|, i requires 0 <= i < |ws| => f(ws[i]))
  }

  lemma {:induction false} SumInserted(xs: seq<nat>, k: nat, x: nat)
    requires k <= |xs|
    ensures Sum(xs[..k] + [x] + xs[k..]) == Sum(xs) + x
  {
    var ys := xs[..k] + [x] + xs[k..];
    if k == 0 {
      assert ys[1..] == xs;
    } else {
      SumInserted(xs[1..], k - 1, x);
      assert ys[1..] == xs[1..][..k - 1] + [x] + xs[1..][k - 1..];
    }
  }

  lemma SumPlaced(ws: seq<Weighted<Node>>, w: Weighted<Node>, f: Weighted<Node> -> nat)
    ensures Sum(Mapped(Place(ws, w), f)) == Sum(Mapped(ws, f)) + f(w)
  {
    var k := Slot(ws, w.weight);
    SumInserted(Mapped(ws, f), k, f(w));
    assert Mapped(Place(ws, w), f) == Mapped(ws, f)[..k] + [f(w)] + Mapped(ws, f)[k..];
  }

  lemma {:induction false} SumSorted(ws: seq<Weighted<Node>>, f: Weighted<Node> -> nat)
    ensures Sum(Mapped(ByWeight(ws), f)) == Sum(Mapped(ws, f))
  {
    if ws == [] {
    } else {
      var init, w := ws[..|ws| - 1], ws[|ws| - 1];
      SumSorted(init, f);
      SumPlaced(ByWeight(init), w, f);
      SumAppend(Mapped(init, f), f(w));
      assert Mapped(ws, f) == Mapped(init, f) + [f(w)];
    }
  }

  // ---------------------------------------------------------------- conservation

  /** Every route keeps all its copies, under the same shapes. */
  lemma {:induction false} OptimizeKeepsCopies(n: Node, s: Shape, r: Route)
    ensures Copies(Optimize(n).node, s, r) == Copies(n, s, r)
    decreases n
  {
    var n', ws := Optimize(n).node, Children(n);
    OptimizeUnfold(n);
    CopiesUnfold(n, s, r);
    CopiesUnfold(n', s, r);
    if s.Par? && n.param.Some? { OptimizeKeepsCopies(n.param.value, s.rest, r); }
    forall i | 0 <= i < |n.statics| ensures CopiesBelow(ws[i].node, s, r) == CopiesBelow(n.statics[i], s, r) {
      var t := Strip(n.statics[i].prefix, s);
      if t.Some? { OptimizeKeepsCopies(n.statics[i], t.value, r); }
    }
    ChildCopiesSorted(n.statics, ws, s, r);
  }

  lemma ChildCopiesSorted(ns: seq<Node>, ws: seq<Weighted<Node>>, s: Shape, r: Route)
    requires |ws| == |ns| && forall i | 0 <= i < |ns| :: CopiesBelow(ws[i].node, s, r) == CopiesBelow(ns[i], s, r)
    ensures Sum(ChildCopies(Nodes(ByWeight(ws)), s, r)) == Sum(ChildCopies(ns, s, r))
  {
    var f := (w: Weighted<Node>) => CopiesBelow(w.node, s, r);
    SumSorted(ws, f);
    assert ChildCopies(ns, s, r) == Mapped(ws, f);
    assert ChildCopies(Nodes(ByWeight(ws)), s, r) == Mapped(ByWeight(ws), f);
  }

  // ---------------------------------------------------------------- what stays as it was

  lemma SortedMembers(n: Node, k: nat) returns (i: nat)
    requires k < |Optimize(n).node.statics|
    ensures i < |n.statics| && Optimize(n).node.statics[k] == Optimize(n.statics[i]).node
  {
    OptimizeUnfold(n);
    var ws := Children(n);
    ByWeightSorts(ws);
    assert ByWeight(ws)[k] in multiset(ws);
    i :| 0 <= i < |ws| && ws[i] == ByWeight(ws)[k];
  }

  lemma SortedHas(n: Node, i: nat) returns (k: nat)
    requires i < |n.statics|
    ensures k < |Optimize(n).node.statics| && Optimize(n).node.statics[k] == Optimize(n.statics[i]).node
  {
    OptimizeUnfold(n);
    var ws := Children(n);
    ByWeightSorts(ws);
    assert ws[i] in multiset(ByWeight(ws));
    k :| 0 <= k < |ByWeight(ws)| && ByWeight(ws)[k] == ws[i];
  }

  ghost predicate Apart(a: string, b: string) {
    !(a <= b) && !(b <= a)
  }

  lemma {:induction false} SortKeepsSiblingsFree(ws: seq<Weighted<Node>>)
    requires SiblingsFree(Nodes(ws))
    ensures SiblingsFree(Nodes(ByWeight(ws)))
  {
    if ws == [] {
    } else {
      var init, w := ws[..|ws| - 1], ws[|ws| - 1];
      assert forall i | 0 <= i < |init| :: Nodes(init)[i] == Nodes(ws)[i];
      SortKeepsSiblingsFree(init);
      ByWeightSorts(init);
      var sorted := ByWeight(init);
      forall x | x in sorted ensures Apart(x.node.prefix, w.node.prefix) {
        assert x in multiset(init);
        var i :| 0 <= i < |init| && init[i] == x;
        assert Nodes(ws)[i] == x.node && Nodes(ws)[|ws| - 1] == w.node;
      }
      var k := Slot(sorted, w.weight);
      PlaceSiblings(sorted, w, k);
    }
  }

  lemma PlaceSiblings(ws: seq<Weighted<Node>>, w: Weighted<Node>, k: nat)
    requires k <= |ws| && SiblingsFree(Nodes(ws)) && forall x | x in ws :: Apart(x.node.prefix, w.node.prefix)
    ensures SiblingsFree(Nodes(ws[..k] + [w] + ws[k..]))
  {
    var vs := ws[..k] + [w] + ws[k..];
    forall i, j | 0 <= i < |vs| && 0 <= j < |vs| && i != j
      ensures !(Nodes(vs)[i].prefix <= Nodes(vs)[j].prefix)
    {
      PlacePair(ws, w, k, i, j);
    }
  }

  lemma PlacedAt<T>(xs: seq<T>, x: T, k: nat, i: nat)
    requires k <= |xs| && i <= |xs|
    ensures (xs[..k] + [x] + xs[k..])[i] == if i < k then xs[i] else if i == k then x else xs[i - 1]
  {
  }

  lemma PlacePair(ws: seq<Weighted<Node>>, w: Weighted<Node>, k: nat, i: nat, j: nat)
    requires k <= |ws| && SiblingsFree(Nodes(ws)) && forall x | x in ws :: Apart(x.node.prefix, w.node.prefix)
    requires i <= |ws| && j <= |ws| && i != j
    ensures var vs := ws[..k] + [w] + ws[k..]; !(vs[i].node.prefix <= vs[j].node.prefix)
  {
    var i', j' := if i < k then i else i - 1, if j < k then j else j - 1;
    PlacedAt(ws, w, k, i);
    PlacedAt(ws, w, k, j);
    if i == k {
      assert ws[j'] in ws;
    } else if j == k {
      assert ws[i'] in ws;
    } else {
      assert !(Nodes(ws)[i'].prefix <= Nodes(ws)[j'].prefix);
    }
  }

  lemma {:induction false} OptimizeKeepsPrefixFree(n: Node)
    requires PrefixFree(n)
    ensures PrefixFree(Optimize(n).node)
    decreases n
  {
    var n' := Optimize(n).node;
    if n.param.Some? { OptimizeKeepsPrefixFree(n.param.value); }
    OptimizeKeepsSiblingsFree(n);
    forall k | 0 <= k < |n'.statics| ensures n'.statics[k].prefix != "" && PrefixFree(n'.statics[k]) {
      var i := SortedMembers(n, k);
      OptimizeKeepsPrefixFree(n.statics[i]);
    }
  }

  lemma OptimizeKeepsSiblingsFree(n: Node)
    requires SiblingsFree(n.statics)
    ensures SiblingsFree(Optimize(n).node.statics)
  {
    var ws := Children(n);
    OptimizeUnfold(n);
    assert forall i | 0 <= i < |ws| :: Nodes(ws)[i].prefix == n.statics[i].prefix;
    SortKeepsSiblingsFree(ws);
  }

  lemma {:induction false} OptimizeKeepsKeyed(n: Node)
    requires Keyed(n)
    ensures Keyed(Optimize(n).node)
    decreases n
  {
    if n.param.Some? { OptimizeKeepsKeyed(n.param.value); }
    forall k | 0 <= k < |Optimize(n).node.statics| ensures Keyed(Optimize(n).node.statics[k]) {
      var i := SortedMembers(n, k);
      OptimizeKeepsKeyed(n.statics[i]);
    }
  }

  lemma {:induction false} OptimizeKeepsPopulated(n: Node)
    requires Populated(n)
    ensures Populated(Optimize(n).node) && (Inhabited(n) ==> Inhabited(Optimize(n).node))
    decreases n
  {
    if n.param.Some? { OptimizeKeepsPopulated(n.param.value); }
    forall k | 0 <= k < |Optimize(n).node.statics|
      ensures Inhabited(Optimize(n).node.statics[k]) && Populated(Optimize(n).node.statics[k])
    {
      var i := SortedMembers(n, k);
      OptimizeKeepsPopulated(n.statics[i]);
    }
    if n.statics != [] { var k := SortedHas(n, 0); }
  }

  /** With prefix-free siblings the order of siblings decides nothing: no lookup changes. */
  lemma {:induction false} OptimizeKeepsLookups(n: Node, m: Verb, p: string)
    requires PrefixFree(n)
    ensures Find(Optimize(n).node, m, p) == Find(n, m, p)
    decreases n
  {
    if p == "" {
    } else {
      if n.param.Some? { OptimizeKeepsLookups(n.param.value, m, AfterSegment(p)); }
      OptimizeKeepsTextLookup(n, m, p);
    }
  }

  lemma {:induction false} OptimizeKeepsTextLookup(n: Node, m: Verb, p: string)
    requires PrefixFree(n)
    ensures FindStatic(Optimize(n).node, m, p) == FindStatic(n, m, p)
    decreases n, 0
  {
    var n' := Optimize(n).node;
    OptimizeKeepsPrefixFree(n);
    var i := FirstPrefix(n.statics, p);
    if i < |n.statics| {
      var k' := SortedHas(n, i);
      OnlySibling(n'.statics, k', p);
      OptimizeKeepsLookups(n.statics[i], m, p[|n.statics[i].prefix|..]);
    } else {
      forall k | 0 <= k < |n'.statics| ensures !(n'.statics[k].prefix <= p) { var i' := SortedMembers(n, k); }
    }
  }

  // ---------------------------------------------------------------- the weight

  /** The number of non-empty verb and wildcard tables at `n` and below. */
  ghost function Tables(n: Node): nat
    decreases n
  {
    (if n.routes != map[] then 1 else 0) + (if n.wildcard != map[] then 1 else 0)
    + (if n.param.Some? then Tables(n.param.value) else 0)
    + Sum(seq(|n.statics|, i requires 0 <= i < |n.statics| => Tables(n.statics[i])))
  }

  ghost function ChildTables(ns: seq<Node>): (xs: seq<nat>)
    ensures |xs| == |ns| && forall i | 0 <= i < |ns| :: xs[i] == Tables(ns[i])
  {
    seq(|ns|, i requires 0 <= i < |ns| => Tables(ns[i]))
  }

  lemma TablesUnfold(n: Node)
    ensures Tables(n) == (if n.routes != map[] then 1 else 0) + (if n.wildcard != map[] then 1 else 0)
      + (if n.param.Some? then Tables(n.param.value) else 0) + Sum(ChildTables(n.statics))
  {
    assert seq(|n.statics|, i requires 0 <= i < |n.statics| => Tables(n.statics[i])) == ChildTables(n.statics);
  }

  /** On every tree `optimize` returns the number of its non-empty tables, and keeps that number. */
  lemma {:induction false} OptimizeCountsTables(n: Node)
    ensures Optimize(n).weight == Tables(n) == Tables(Optimize(n).node)
    decreases n
  {
    var n', ws := Optimize(n).node, Children(n);
    OptimizeUnfold(n);
    TablesUnfold(n);
    TablesUnfold(n');
    if n.param.Some? { OptimizeCountsTables(n.param.value); }
    forall i | 0 <= i < |n.statics| ensures ws[i].weight == Tables(n.statics[i]) == Tables(ws[i].node) {
      OptimizeCountsTables(n.statics[i]);
    }
    ChildTablesSorted(n.statics, ws);
  }

  lemma ChildTablesSorted(ns: seq<Node>, ws: seq<Weighted<Node>>)
    requires |ws| == |ns| && forall i | 0 <= i < |ns| :: ws[i].weight == Tables(ns[i]) == Tables(ws[i].node)
    ensures Sum(Weights(ws)) == Sum(ChildTables(ns)) == Sum(ChildTables(Nodes(ByWeight(ws))))
  {
    var f := (w: Weighted<Node>) => Tables(w.node);
    SumSorted(ws, f);
    assert Weights(ws) == ChildTables(ns) == Mapped(ws, f);
    assert ChildTables(Nodes(ByWeight(ws))) == Mapped(ByWeight(ws), f);
  }

  /** The shapes under which something is stored. */
  ghost function Shapes(n: Node): set<Shape>
    decreases n, 1, 0
  {
    ShapesHere(n)
    + (if n.param.Some? then AfterParam(Shapes(n.param.value)) else {})
    + ShapesBelow(n, |n.statics|)
  }

  ghost function ShapesHere(n: Node): set<Shape> {
    (if n.routes != map[] then {End} else {}) + (if n.wildcard != map[] then {Wild} else {})
  }

  ghost function ShapesBelow(n: Node, k: nat): set<Shape>
    requires k <= |n.statics|
    decreases n, 0, k
  {
    if k == 0 then {} else ShapesBelow(n, k - 1) + AfterText(n.statics[k - 1].prefix, Shapes(n.statics[k - 1]))
  }

  ghost function AfterParam(shapes: set<Shape>): set<Shape> {
    set s | s in shapes :: Par(s)
  }

  ghost function AfterText(text: string, shapes: set<Shape>): set<Shape> {
    set s | s in shapes :: Prepend(text, s)
  }

  lemma AfterTextMember(text: string, shapes: set<Shape>, s: Shape)
    ensures s in AfterText(text, shapes) <==> Strip(text, s).Some? && Strip(text, s).value in shapes
  {
    if Strip(text, s).Some? { StripIs(text, s); }
    if s in AfterText(text, shapes) { var t :| t in shapes && s == Prepend(text, t); StripPrepend(text, t); }
  }

  lemma {:induction false} AfterTextSize(text: string, shapes: set<Shape>)
    ensures |AfterText(text, shapes)| == |shapes|
    decreases |shapes|
  {
    if shapes == {} {
    } else {
      var s :| s in shapes;
      AfterTextSize(text, shapes - {s});
      StripPrepend(text, s);
      AfterTextMember(text, shapes - {s}, Prepend(text, s));
      assert AfterText(text, shapes) == AfterText(text, shapes - {s}) + {Prepend(text, s)};
    }
  }

  lemma {:induction false} AfterParamSize(shapes: set<Shape>)
    ensures |AfterParam(shapes)| == |shapes|
    decreases |shapes|
  {
    if shapes == {} {
    } else {
      var s :| s in shapes;
      AfterParamSize(shapes - {s});
      assert AfterParam(shapes) == AfterParam(shapes - {s}) + {Par(s)};
    }
  }

  lemma {:induction false} ShapesBelowMember(n: Node, k: nat, s: Shape)
    requires k <= |n.statics|
    ensures s in ShapesBelow(n, k)
       <==> exists i | 0 <= i < k :: s in AfterText(n.statics[i].prefix, Shapes(n.statics[i]))
  {
    if k == 0 {
    } else {
      ShapesBelowMember(n, k - 1, s);
    }
  }

  /** `Shapes` is the set of shapes with at least one stored route. */
  lemma {:induction false} StoredUnder(n: Node, s: Shape) returns (r: Route)
    requires Keyed(n) && s in Shapes(n)
    ensures Has(n, s, r)
    decreases n
  {
    if s in ShapesHere(n) {
      r := StoredHere(n, s);
    } else if n.param.Some? && s in AfterParam(Shapes(n.param.value)) {
      r := StoredUnder(n.param.value, s.rest);
    } else {
      var i := ChildOfShape(n, s);
      r := StoredUnder(n.statics[i], Strip(n.statics[i].prefix, s).value);
      assert HasBelow(n.statics[i], s, r);
    }
  }

  lemma StoredHere(n: Node, s: Shape) returns (r: Route)
    requires Keyed(n) && s in ShapesHere(n)
    ensures Has(n, s, r)
  {
    var table := if s.End? then n.routes else n.wildcard;
    var v :| v in table;
    r := table[v];
  }

  lemma ChildOfShape(n: Node, s: Shape) returns (i: nat)
    requires s in ShapesBelow(n, |n.statics|)
    ensures i < |n.statics| && Strip(n.statics[i].prefix, s).Some?
    ensures Strip(n.statics[i].prefix, s).value in Shapes(n.statics[i])
  {
    ShapesBelowMember(n, |n.statics|, s);
    i :| 0 <= i < |n.statics| && s in AfterText(n.statics[i].prefix, Shapes(n.statics[i]));
    AfterTextMember(n.statics[i].prefix, Shapes(n.statics[i]), s);
  }

  lemma {:induction false} ShapeOfStored(n: Node, s: Shape, r: Route)
    requires Has(n, s, r)
    ensures s in Shapes(n)
    decreases n
  {
    ShapesBelowMember(n, |n.statics|, s);
    if s.Par? && n.param.Some? && Has(n.param.value, s.rest, r) {
      ShapeOfStored(n.param.value, s.rest, r);
    } else if i :| 0 <= i < |n.statics| && HasBelow(n.statics[i], s, r) {
      ShapeOfStored(n.statics[i], Strip(n.statics[i].prefix, s).value, r);
      AfterTextMember(n.statics[i].prefix, Shapes(n.statics[i]), s);
    }
  }

  lemma BelowHeads(n: Node, k: nat, s: Shape)
    requires PrefixFree(n) && k <= |n.statics| && s in ShapesBelow(n, k)
    ensures s.Text?
  {
    ShapesBelowMember(n, k, s);
    var i :| 0 <= i < k && s in AfterText(n.statics[i].prefix, Shapes(n.statics[i]));
    assert n.statics[i].prefix != "";
  }

  /** The number `optimize` returns is the number of distinct shapes registered. */
  lemma {:induction false} WeightCountsShapes(n: Node)
    requires PrefixFree(n)
    ensures Optimize(n).weight == |Shapes(n)|
    decreases n
  {
    OptimizeUnfold(n);
    WeightBelowAll(n);
    if n.param.Some? { WeightCountsShapes(n.param.value); }
    SizeHere(n);
    SizeOfShapes(n);
  }

  lemma {:induction false} WeightBelowAll(n: Node)
    requires PrefixFree(n)
    ensures |ShapesBelow(n, |n.statics|)| == Sum(Weights(Children(n)))
    decreases n, 0, |n.statics| + 1
  {
    WeightBelow(n, |n.statics|);
    assert Weights(Children(n))[..|n.statics|] == Weights(Children(n));
  }

  lemma SizeHere(n: Node)
    ensures |ShapesHere(n)| == (if n.routes != map[] then 1 else 0) + (if n.wildcard != map[] then 1 else 0)
  {
    var a: set<Shape> := if n.routes != map[] then {End} else {};
    var b: set<Shape> := if n.wildcard != map[] then {Wild} else {};
    assert a !! b && ShapesHere(n) == a + b;
  }

  lemma SizeOfShapes(n: Node)
    requires PrefixFree(n)
    ensures |Shapes(n)| == |ShapesHere(n)| + (if n.param.Some? then |Shapes(n.param.value)| else 0)
                         + |ShapesBelow(n, |n.statics|)|
  {
    var via: set<Shape> := if n.param.Some? then AfterParam(Shapes(n.param.value)) else {};
    var below := ShapesBelow(n, |n.statics|);
    if n.param.Some? { AfterParamSize(Shapes(n.param.value)); }
    forall s: Shape | s in below ensures s.Text? { BelowHeads(n, |n.statics|, s); }
    SizeOfThree(ShapesHere(n), via, below);
  }

  lemma SizeOfThree(here: set<Shape>, via: set<Shape>, below: set<Shape>)
    requires here <= {End, Wild}
    requires (forall s: Shape | s in via :: s.Par?) && (forall s: Shape | s in below :: s.Text?)
    ensures |here + via + below| == |here| + |via| + |below|
  {
    assert here !! via;
    assert (here + via) !! below;
  }

  lemma {:induction false} WeightBelow(n: Node, k: nat)
    requires PrefixFree(n) && k <= |n.statics|
    ensures |ShapesBelow(n, k)| == Sum(Weights(Children(n))[..k])
    decreases n, 0, k
  {
    if k == 0 {
    } else {
      WeightBelow(n, k - 1);
      WeightCountsShapes(n.statics[k - 1]);
      SumNext(Weights(Children(n)), k);
      SizeBelow(n, k);
    }
  }

  lemma SumNext(xs: seq<nat>, k: nat)
    requires 0 < k <= |xs|
    ensures Sum(xs[..k]) == Sum(xs[..k - 1]) + xs[k - 1]
  {
    assert xs[..k] == xs[..k - 1] + [xs[k - 1]];
    SumAppend(xs[..k - 1], xs[k - 1]);
  }

  lemma SizeBelow(n: Node, k: nat)
    requires SiblingsFree(n.statics) && 0 < k <= |n.statics|
    ensures |ShapesBelow(n, k)| == |ShapesBelow(n, k - 1)| + |Shapes(n.statics[k - 1])|
  {
    var c := n.statics[k - 1];
    AfterTextSize(c.prefix, Shapes(c));
    forall s | s in ShapesBelow(n, k - 1) ensures s !in AfterText(c.prefix, Shapes(c)) { BelowApart(n, k, s); }
    assert ShapesBelow(n, k - 1) !! AfterText(c.prefix, Shapes(c));
  }

  lemma BelowApart(n: Node, k: nat, s: Shape)
    requires SiblingsFree(n.statics) && 0 < k <= |n.statics| && s in ShapesBelow(n, k - 1)
    ensures s !in AfterText(n.statics[k - 1].prefix, Shapes(n.statics[k - 1]))
  {
    ShapesBelowMember(n, k - 1, s);
    var i :| 0 <= i < k - 1 && s in AfterText(n.statics[i].prefix, Shapes(n.statics[i]));
    AfterTextMember(n.statics[i].prefix, Shapes(n.statics[i]), s);
    AfterTextMember(n.statics[k - 1].prefix, Shapes(n.statics[k - 1]), s);
    NotBothText(n.statics[i].prefix, n.statics[k - 1].prefix, s);
  }

  lemma NotBothText(a: string, b: string, s: Shape)
    requires Apart(a, b) && Strip(a, s).Some?
    ensures Strip(b, s).None?
  {
    if Strip(b, s).Some? {
      if |a| <= |b| { StripBoth(a, b, s); } else { StripBoth(b, a, s); }
    }
  }
}
