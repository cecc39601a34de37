/** Conservation: how many copies of each route a tree stores under each shape. An accepted insert
    adds exactly one copy, spelled by the edge labels from the root, and a rejected one adds none. */
module RouterEntries {
  import opened Wrappers
  import opened PathTokens
  import opened RouteShape
  import opened RouterTree

  function Sum(xs: seq<nat>): nat {
    if xs == [] then 0 else xs[0] + Sum(xs[1..])
  }

  /** The number of places at `n` and below that store `r` under the residual shape `s`. */
  ghost function Copies(n: Node, s: Shape, r: Route): nat
    decreases n, 0
  {
    (if s.End? && InTable(n.routes, r) then 1 else 0)
    + (if s.Wild? && InTable(n.wildcard, r) then 1 else 0)
    + (if s.Par? && n.param.Some? then Copies(n.param.value, s.rest, r) else 0)
    + Sum(seq(|n.statics|, i requires 0 <= i < |n.statics| => CopiesBelow(n.statics[i], s, r)))
  }

  ghost function CopiesBelow(c: Node, s: Shape, r: Route): nat
    decreases c, 1
  {
    var t := Strip(c.prefix, s);
    if t.Some? then Copies(c, t.value, r) else 0
  }

  ghost function ChildCopies(ns: seq<Node>, s: Shape, r: Route): seq<nat> {
    seq(|ns|, i requires 0 <= i < |ns| => CopiesBelow(ns[i], s, r))
  }

  // ---------------------------------------------------------------- sums

  lemma {:induction false} SumUpdate(xs: seq<nat>, i: nat, x: nat)
    requires i < |xs|
    ensures Sum(xs[i := x]) + xs[i] == Sum(xs) + x
  {
    if i > 0 {
      SumUpdate(xs[1..], i - 1, x);
      assert xs[i := x][1..] == xs[1..][i - 1 := x];
    } else {
      assert xs[i := x][1..] == xs[1..];
    }
  }

  lemma {:induction false} SumAppend(xs: seq<nat>, x: nat)
    ensures Sum(xs + [x]) == Sum(xs) + x
  {
    if xs == [] {
      assert [x][1..] == [];
    } else {
      SumAppend(xs[1..], x);
      assert (xs + [x])[1..] == xs[1..] + [x];
    }
  }

  lemma {:induction false} SumPositive(xs: seq<nat>)
    ensures Sum(xs) > 0 <==> exists i | 0 <= i < |xs| :: xs[i] > 0
  {
    if xs == [] {
    } else {
      SumPositive(xs[1..]);
      if i :| 0 <= i < |xs| && xs[i] > 0 && xs[0] == 0 { assert xs[1..][i - 1] > 0; }
    }
  }

  lemma ReplaceChild(ns: seq<Node>, i: nat, c: Node, s: Shape, r: Route)
    requires i < |ns|
    ensures Sum(ChildCopies(ns[i := c], s, r)) + CopiesBelow(ns[i], s, r)
         == Sum(ChildCopies(ns, s, r)) + CopiesBelow(c, s, r)
  {
    assert ChildCopies(ns[i := c], s, r) == ChildCopies(ns, s, r)[i := CopiesBelow(c, s, r)];
    SumUpdate(ChildCopies(ns, s, r), i, CopiesBelow(c, s, r));
  }

  lemma AppendChild(ns: seq<Node>, c: Node, s: Shape, r: Route)
    ensures Sum(ChildCopies(ns + [c], s, r)) == Sum(ChildCopies(ns, s, r)) + CopiesBelow(c, s, r)
  {
    assert ChildCopies(ns + [c], s, r) == ChildCopies(ns, s, r) + [CopiesBelow(c, s, r)];
    SumAppend(ChildCopies(ns, s, r), CopiesBelow(c, s, r));
  }

  lemma CopiesUnfold(n: Node, s: Shape, r: Route)
    ensures Copies(n, s, r)
         == (if s.End? && InTable(n.routes, r) then 1 else 0)
          + (if s.Wild? && InTable(n.wildcard, r) then 1 else 0)
          + (if s.Par? && n.param.Some? then Copies(n.param.value, s.rest, r) else 0)
          + Sum(ChildCopies(n.statics, s, r))
  {
    assert seq(|n.statics|, i requires 0 <= i < |n.statics| => CopiesBelow(n.statics[i], s, r))
        == ChildCopies(n.statics, s, r);
  }

  lemma LeafIsEmpty(prefix: string, s: Shape, r: Route)
    ensures Copies(Leaf(prefix), s, r) == 0
  {
    CopiesUnfold(Leaf(prefix), s, r);
  }

  lemma SplitKeepsCopies(c: Node, text: string, s: Shape, r: Route)
    requires text <= c.prefix
    ensures CopiesBelow(Split(c, text), s, r) == CopiesBelow(c, s, r)
  {
    var tail := c.prefix[|text|..];
    assert c.prefix == text + tail;
    StripConcat(text, tail, s);
    var t := Strip(text, s);
    if t.Some? {
      var child := c.(prefix := tail);
      CopiesUnfold(Split(c, text), t.value, r);
      AppendChild([], child, t.value, r);
      assert [] + [child] == Split(c, text).statics;
      if Strip(tail, t.value).Some? {
        CopiesUnfold(child, Strip(tail, t.value).value, r);
        CopiesUnfold(c, Strip(tail, t.value).value, r);
      }
    }
  }

  // ---------------------------------------------------------------- conservation

  ghost function One(b: bool): nat { if b then 1 else 0 }

  /** An insert adds exactly one copy of its own route, under its own shape, when it is accepted,
      and changes no other count: every route keeps its shape through any number of splits. */
  lemma {:induction false} InsertAddsOne(n: Node, r: Route, rest: seq<Token>, s: Shape, q: Route)
    ensures Copies(Insert(n, r, rest).node, s, q)
         == Copies(n, s, q) + One(Insert(n, r, rest).ok && s == ShapeOf(rest) && q == r)
    decreases |rest|, 0, n, 0
  {
    var n' := Insert(n, r, rest).node;
    CopiesUnfold(n, s, q);
    CopiesUnfold(n', s, q);
    if rest == [] {
    } else {
      match rest[0].kind
      case Static =>
        InsertTextAddsOne(n, r, rest[0].value, rest[1..], s, q);
      case Param =>
        if s.Par? {
          InsertAddsOne(if n.param.Some? then n.param.value else Leaf(""), r, rest[1..], s.rest, q);
          LeafIsEmpty("", s.rest, q);
        }
      case Wildcard =>
    }
  }

  lemma {:induction false} InsertTextAddsOne(n: Node, r: Route, text: string, rest: seq<Token>, s: Shape, q: Route)
    ensures Copies(InsertStatic(n, r, text, rest).node, s, q)
         == Copies(n, s, q) + One(InsertStatic(n, r, text, rest).ok && s == Prepend(text, ShapeOf(rest)) && q == r)
    decreases |rest|, 1, n, 1
  {
    var i := FirstPrefix(n.statics, text);
    if text == "" {
      InsertAddsOne(n, r, rest, s, q);
    } else if i < |n.statics| {
      var n' := InsertStatic(n, r, text, rest).node;
      CopiesUnfold(n, s, q);
      CopiesUnfold(n', s, q);
      BelowAfterText(n.statics[i], r, text, rest, s, q);
      ReplaceChild(n.statics, i, n'.statics[i], s, q);
    } else {
      InsertBesideAddsOne(n, r, text, rest, s, q);
    }
  }

  lemma {:induction false} InsertBesideAddsOne(n: Node, r: Route, text: string, rest: seq<Token>, s: Shape, q: Route)
    requires text != "" && FirstPrefix(n.statics, text) == |n.statics|
    ensures Copies(InsertStatic(n, r, text, rest).node, s, q)
         == Copies(n, s, q) + One(InsertStatic(n, r, text, rest).ok && s == Prepend(text, ShapeOf(rest)) && q == r)
    decreases |rest|, 1, n, 0
  {
    var n' := InsertStatic(n, r, text, rest).node;
    CopiesUnfold(n, s, q);
    CopiesUnfold(n', s, q);
    var j := FirstExtension(n.statics, text);
    if j < |n.statics| {
      BelowAfterRest(Split(n.statics[j], text), r, rest, s, q);
      SplitKeepsCopies(n.statics[j], text, s, q);
      ReplaceChild(n.statics, j, n'.statics[j], s, q);
    } else {
      BelowAfterRest(Leaf(text), r, rest, s, q);
      if Strip(text, s).Some? { LeafIsEmpty(text, Strip(text, s).value, q); }
      AppendChild(n.statics, Insert(Leaf(text), r, rest).node, s, q);
    }
  }

  /** The descent into a child whose prefix starts the text. */
  lemma {:induction false} BelowAfterText(c: Node, r: Route, text: string, rest: seq<Token>, s: Shape, q: Route)
    requires c.prefix <= text
    ensures var i := InsertStatic(c, r, text[|c.prefix|..], rest);
      CopiesBelow(i.node, s, q) == CopiesBelow(c, s, q) + One(i.ok && s == Prepend(text, ShapeOf(rest)) && q == r)
    decreases |rest|, 1, c, 2
  {
    var tail := text[|c.prefix|..];
    InsertStaticKeepsPrefix(c, r, tail, rest);
    assert text == c.prefix + tail;
    PrependConcat(c.prefix, tail, ShapeOf(rest));
    StripIff(c.prefix, s, Prepend(tail, ShapeOf(rest)));
    var t := Strip(c.prefix, s);
    if t.Some? { InsertTextAddsOne(c, r, tail, rest, t.value, q); }
  }

  lemma {:induction false} BelowAfterRest(c: Node, r: Route, rest: seq<Token>, s: Shape, q: Route)
    ensures var i := Insert(c, r, rest);
      CopiesBelow(i.node, s, q) == CopiesBelow(c, s, q) + One(i.ok && s == Prepend(c.prefix, ShapeOf(rest)) && q == r)
    decreases |rest|, 0, c, 1
  {
    InsertKeepsPrefix(c, r, rest);
    StripIff(c.prefix, s, ShapeOf(rest));
    var t := Strip(c.prefix, s);
    if t.Some? { InsertAddsOne(c, r, rest, t.value, q); }
  }

  lemma StripIff(text: string, s: Shape, t: Shape)
    ensures s == Prepend(text, t) <==> Strip(text, s) == Some(t)
  {
    StripPrepend(text, t);
    if Strip(text, s).Some? { StripIs(text, s); }
  }

  /** `Has` is having at least one copy. */
  lemma {:induction false} HasIffCopies(n: Node, s: Shape, r: Route)
    ensures Has(n, s, r) <==> Copies(n, s, r) > 0
    decreases n
  {
    CopiesUnfold(n, s, r);
    if s.Par? && n.param.Some? { HasIffCopies(n.param.value, s.rest, r); }
    var below := ChildCopies(n.statics, s, r);
    SumPositive(below);
    forall i | 0 <= i < |n.statics| ensures HasBelow(n.statics[i], s, r) <==> below[i] > 0 {
      var t := Strip(n.statics[i].prefix, s);
      if t.Some? { HasIffCopies(n.statics[i], t.value, r); }
    }
  }
}
