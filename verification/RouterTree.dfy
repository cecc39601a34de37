/** The routing tree as a value, operation by operation, and the laws that need no premise:
    a rejected insert changes nothing, an accepted one adds exactly one entry, and whatever a
    lookup returns was stored under a shape that matches the path. */
module RouterTree {
  import opened Wrappers
  import opened PathTokens
  import opened RouteShape

  type Table = map<Verb, Route>

  datatype Node = Node(prefix: string, routes: Table, statics: seq<Node>, param: Option<Node>, wildcard: Table)

  datatype Inserted = Inserted(node: Node, ok: bool)

  function Leaf(prefix: string): Node {
    Node(prefix, map[], [], None, map[])
  }

  // ---------------------------------------------------------------- insert

  /** The first sibling whose prefix starts `text`, or the number of siblings. */
  function FirstPrefix(ns: seq<Node>, text: string): (i: nat)
    ensures i <= |ns|
    ensures i < |ns| ==> ns[i].prefix <= text
    ensures forall k | 0 <= k < i :: !(ns[k].prefix <= text)
  {
    if ns == [] || ns[0].prefix <= text then 0 else 1 + FirstPrefix(ns[1..], text)
  }

  /** The first sibling whose prefix is started by `text`, or the number of siblings. */
  function FirstExtension(ns: seq<Node>, text: string): (i: nat)
    ensures i <= |ns|
    ensures i < |ns| ==> text <= ns[i].prefix
    ensures forall k | 0 <= k < i :: !(text <= ns[k].prefix)
  {
    if ns == [] || text <= ns[0].prefix then 0 else 1 + FirstExtension(ns[1..], text)
  }

  function Emplace(t: Table, r: Route): (Table, bool) {
    if r.verb in t then (t, false) else (t[r.verb := r], true)
  }

  /** The node that takes the place of `sibling` when its prefix is split after `text`. */
  function Split(sibling: Node, text: string): Node
    requires text <= sibling.prefix
  {
    Node(text, map[], [sibling.(prefix := sibling.prefix[|text|..])], None, map[])
  }

  /** Inserts `r`, of which the tokens `rest` are still to be placed, at node `n`. */
  function Insert(n: Node, r: Route, rest: seq<Token>): Inserted
    decreases |rest|, 0, n
  {
    if rest == [] then
      var (t, ok) := Emplace(n.routes, r);
      Inserted(n.(routes := t), ok)
    else match rest[0].kind
      case Static => InsertStatic(n, r, rest[0].value, rest[1..])
      case Param =>
        var c := Insert(if n.param.Some? then n.param.value else Leaf(""), r, rest[1..]);
        Inserted(n.(param := Some(c.node)), c.ok)
      case Wildcard =>
        var (t, ok) := Emplace(n.wildcard, r);
        Inserted(n.(wildcard := t), ok)
  }

  function InsertStatic(n: Node, r: Route, text: string, rest: seq<Token>): Inserted
    decreases |rest|, 1, n
  {
    if text == "" then Insert(n, r, rest) else
    var i := FirstPrefix(n.statics, text);
    if i < |n.statics| then
      var c := InsertStatic(n.statics[i], r, text[|n.statics[i].prefix|..], rest);
      Inserted(n.(statics := n.statics[i := c.node]), c.ok)
    else
      var j := FirstExtension(n.statics, text);
      if j < |n.statics| then
        var c := Insert(Split(n.statics[j], text), r, rest);
        Inserted(n.(statics := n.statics[j := c.node]), c.ok)
      else
        var c := Insert(Leaf(text), r, rest);
        Inserted(n.(statics := n.statics + [c.node]), c.ok)
  }

  // ---------------------------------------------------------------- lookup

  function FindRoute(t: Table, m: Verb): Option<Route> {
    if m in t then Some(t[m]) else if Any in t then Some(t[Any]) else None
  }

  function OrElse(a: Option<Route>, b: Option<Route>): Option<Route> {
    if a.Some? then a else b
  }

  function Find(n: Node, m: Verb, p: string): Option<Route>
    decreases n, 1
  {
    if p == "" then OrElse(FindRoute(n.routes, m), FindRoute(n.wildcard, m))
    else OrElse(OrElse(FindStatic(n, m, p), FindParam(n, m, p)), FindRoute(n.wildcard, m))
  }

  function FindStatic(n: Node, m: Verb, p: string): Option<Route>
    decreases n, 0
  {
    var i := FirstPrefix(n.statics, p);
    if i < |n.statics| then Find(n.statics[i], m, p[|n.statics[i].prefix|..]) else None
  }

  function FindParam(n: Node, m: Verb, p: string): Option<Route>
    decreases n, 0
  {
    if n.param.Some? then Find(n.param.value, m, AfterSegment(p)) else None
  }

  // ---------------------------------------------------------------- what a tree stores

  /** `n` stores `r` at itself or below under the residual shape `s`. */
  ghost predicate Has(n: Node, s: Shape, r: Route)
    decreases n, 0
  {
    || (s.End? && InTable(n.routes, r))
    || (s.Wild? && InTable(n.wildcard, r))
    || (s.Par? && n.param.Some? && Has(n.param.value, s.rest, r))
    || exists i | 0 <= i < |n.statics| :: HasBelow(n.statics[i], s, r)
  }

  ghost predicate HasBelow(c: Node, s: Shape, r: Route)
    decreases c, 1
  {
    var t := Strip(c.prefix, s);
    t.Some? && Has(c, t.value, r)
  }

  predicate InTable(t: Table, r: Route) {
    r.verb in t && t[r.verb] == r
  }

  /** Every table is keyed by its routes' own verbs: `try_emplace` is the only writer. */
  ghost predicate Keyed(n: Node)
    decreases n
  {
    && (forall v | v in n.routes :: n.routes[v].verb == v)
    && (forall v | v in n.wildcard :: n.wildcard[v].verb == v)
    && (n.param.Some? ==> Keyed(n.param.value))
    && forall i | 0 <= i < |n.statics| :: Keyed(n.statics[i])
  }

  /** No text token directly follows another and a wildcard comes last, as in every parsed pattern. */
  predicate Placeable(ts: seq<Token>) {
    forall i {:trigger ts[i]} | 0 <= i < |ts| - 1 ::
      ts[i].kind != Wildcard && (ts[i].kind == Static ==> ts[i + 1].kind != Static)
  }

  lemma ChainedPlaceable(ts: seq<Token>)
    requires Chained(ts)
    ensures Placeable(ts)
  {
    forall i {:trigger ts[i]} | 0 <= i < |ts| - 1
      ensures ts[i].kind != Wildcard && (ts[i].kind == Static ==> ts[i + 1].kind != Static)
    {
      ChainedAt(ts, i + 1);
    }
  }

  // ---------------------------------------------------------------- failed inserts

  /** An insert into a node with nothing in the way is never rejected. */
  lemma {:induction false} RoomToInsert(n: Node, r: Route, rest: seq<Token>)
    requires n.routes == map[] && n.wildcard == map[] && n.param.None?
    requires n.statics == [] || (rest != [] ==> rest[0].kind != Static)
    ensures Insert(n, r, rest).ok
    decreases |rest|, 0
  {
    if rest == [] || rest[0].kind == Wildcard {
    } else {
      if rest[0].kind == Static { RoomForText(n, r, rest[0].value, rest[1..]); }
      else { RoomToInsert(Leaf(""), r, rest[1..]); }
    }
  }

  lemma {:induction false} RoomForText(n: Node, r: Route, text: string, rest: seq<Token>)
    requires n.routes == map[] && n.wildcard == map[] && n.param.None? && n.statics == []
    ensures InsertStatic(n, r, text, rest).ok
    decreases |rest|, 1
  {
    RoomToInsert(if text == "" then n else Leaf(text), r, rest);
  }

  /** A rejected insert leaves the tree exactly as it was. */
  lemma {:induction false} RejectedInsertKeepsTree(n: Node, r: Route, rest: seq<Token>)
    requires Placeable(rest) && !Insert(n, r, rest).ok
    ensures Insert(n, r, rest).node == n
    decreases |rest|, 0, n
  {
    if rest == [] {
    } else {
      match rest[0].kind
      case Static =>
        RejectedTextKeepsTree(n, r, rest[0].value, rest[1..]);
      case Param =>
        if n.param.Some? { RejectedInsertKeepsTree(n.param.value, r, rest[1..]); }
        else { RoomToInsert(Leaf(""), r, rest[1..]); }
      case Wildcard =>
    }
  }

  lemma {:induction false} RejectedTextKeepsTree(n: Node, r: Route, text: string, rest: seq<Token>)
    requires Placeable(rest) && (rest != [] ==> rest[0].kind != Static)
    requires !InsertStatic(n, r, text, rest).ok
    ensures InsertStatic(n, r, text, rest).node == n
    decreases |rest|, 1, n
  {
    if text == "" {
      RejectedInsertKeepsTree(n, r, rest);
    } else {
      var i, j := FirstPrefix(n.statics, text), FirstExtension(n.statics, text);
      if i < |n.statics| {
        RejectedTextKeepsTree(n.statics[i], r, text[|n.statics[i].prefix|..], rest);
      } else {
        RoomToInsert(if j < |n.statics| then Split(n.statics[j], text) else Leaf(text), r, rest);
      }
    }
  }

  lemma {:induction false} InsertKeepsPrefix(n: Node, r: Route, rest: seq<Token>)
    ensures Insert(n, r, rest).node.prefix == n.prefix
    decreases |rest|, 0
  {
    if rest != [] && rest[0].kind == Static { InsertStaticKeepsPrefix(n, r, rest[0].value, rest[1..]); }
  }

  lemma {:induction false} InsertStaticKeepsPrefix(n: Node, r: Route, text: string, rest: seq<Token>)
    ensures InsertStatic(n, r, text, rest).node.prefix == n.prefix
    decreases |rest|, 1
  {
    if text == "" { InsertKeepsPrefix(n, r, rest); }
  }

  lemma {:induction false} InsertKeepsKeyed(n: Node, r: Route, rest: seq<Token>)
    requires Keyed(n)
    ensures Keyed(Insert(n, r, rest).node)
    decreases |rest|, 0, n
  {
    if rest == [] {
    } else {
      match rest[0].kind
      case Static => InsertStaticKeepsKeyed(n, r, rest[0].value, rest[1..]);
      case Param => InsertKeepsKeyed(if n.param.Some? then n.param.value else Leaf(""), r, rest[1..]);
      case Wildcard =>
    }
  }

  lemma {:induction false} InsertStaticKeepsKeyed(n: Node, r: Route, text: string, rest: seq<Token>)
    requires Keyed(n)
    ensures Keyed(InsertStatic(n, r, text, rest).node)
    decreases |rest|, 1, n
  {
    if text == "" {
      InsertKeepsKeyed(n, r, rest);
    } else {
      var i, j := FirstPrefix(n.statics, text), FirstExtension(n.statics, text);
      if i < |n.statics| {
        InsertStaticKeepsKeyed(n.statics[i], r, text[|n.statics[i].prefix|..], rest);
      } else {
        InsertKeepsKeyed(if j < |n.statics| then Split(n.statics[j], text) else Leaf(text), r, rest);
      }
    }
  }

  // ---------------------------------------------------------------- sound lookups

  /** Whatever a lookup returns is stored below the node under a shape that matches the path, and
      serves the method: no premise on the tree but its keyed tables. */
  lemma {:induction false} FindSound(n: Node, m: Verb, p: string) returns (s: Shape)
    requires Keyed(n) && Find(n, m, p).Some?
    ensures Has(n, s, Find(n, m, p).value) && Matches(s, p) && Serves(Find(n, m, p).value, m)
    decreases n
  {
    if p == "" {
      s := if FindRoute(n.routes, m).Some? then End else Wild;
    } else if FindStatic(n, m, p).Some? {
      var i := FirstPrefix(n.statics, p);
      s := FindSound(n.statics[i], m, p[|n.statics[i].prefix|..]);
      LiftBelow(n, i, s, FindStatic(n, m, p).value);
      MatchesText(n.statics[i].prefix, s, p);
      s := Prepend(n.statics[i].prefix, s);
    } else if FindParam(n, m, p).Some? {
      s := FindSound(n.param.value, m, AfterSegment(p));
      s := Par(s);
    } else {
      s := Wild;
    }
  }

  /** What a text child stores, the node stores with the child's text in front. */
  lemma LiftBelow(n: Node, i: nat, s: Shape, r: Route)
    requires i < |n.statics| && Has(n.statics[i], s, r)
    ensures Has(n, Prepend(n.statics[i].prefix, s), r)
  {
    StripPrepend(n.statics[i].prefix, s);
    assert HasBelow(n.statics[i], Prepend(n.statics[i].prefix, s), r);
  }
}
