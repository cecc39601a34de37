/** The router as the source has it: nodes updated in place, siblings scanned in loops. Every method
    is proved to do to the abstract tree exactly what the tree functions do. */
module RouterHeap {
  import opened Wrappers
  import opened PathTokens
  import opened RouteShape
  import opened RouterTree
  import opened RouterEntries
  import opened RouterOptimize

  /** The siblings once the text has a node of its own: a split of the first that it starts, or a new leaf. */
  function WithRoom(ns: seq<Node>, text: string): (ms: seq<Node>)
    ensures FirstExtension(ns, text) < |ms|
  {
    var j := FirstExtension(ns, text);
    if j < |ns| then ns[j := Split(ns[j], text)] else ns + [Leaf(text)]
  }

  /** Inserting beside the siblings is inserting into the room made for the text. */
  lemma BesideCases(n: Node, r: Route, text: string, rest: seq<Token>)
    requires text != "" && FirstPrefix(n.statics, text) == |n.statics|
    ensures var j := FirstExtension(n.statics, text);
      var ns := WithRoom(n.statics, text);
      var c := Insert(ns[j], r, rest);
      InsertStatic(n, r, text, rest) == Inserted(n.(statics := ns[j := c.node]), c.ok)
  {
    var c := Insert(Leaf(text), r, rest);
    assert (n.statics + [Leaf(text)])[|n.statics| := c.node] == n.statics + [c.node];
  }

  class TreeNode {
    var prefix: string
    var routes: Table
    var statics: seq<TreeNode>
    var params: TreeNode?
    var wildcard: Table
    ghost var repr: set<object>

    /** The node owns its children: their footprints are inside its own, and pairwise disjoint. */
    ghost predicate Valid()
      reads this, repr
      decreases repr
    {
      && this in repr
      && (params != null ==> params in repr && params.repr <= repr && this !in params.repr && params.Valid())
      && (forall i | 0 <= i < |statics| ::
            statics[i] in repr && statics[i].repr <= repr && this !in statics[i].repr && statics[i].Valid())
      && (forall i, j | 0 <= i < j < |statics| :: statics[i].repr !! statics[j].repr)
      && (params != null ==> forall i | 0 <= i < |statics| :: statics[i].repr !! params.repr)
    }

    /** The abstract tree. */
    ghost function Model(): Node
      requires Valid()
      reads this, repr
      decreases repr, 1
    {
      Node(prefix, routes, Models(), if params == null then None else Some(params.Model()), wildcard)
    }

    ghost function Models(): (ns: seq<Node>)
      requires Valid()
      reads this, repr
      ensures |ns| == |statics| && forall i | 0 <= i < |ns| :: ns[i] == statics[i].Model()
      decreases repr, 0
    {
      seq(|statics|, i requires 0 <= i < |statics| && Valid() reads this, repr => statics[i].Model())
    }

    constructor (prefix: string)
      ensures Valid() && fresh(repr) && Model() == Leaf(prefix)
    {
      this.prefix := prefix;
      routes, wildcard := map[], map[];
      statics, params := [], null;
      repr := {this};
    }

    method TryInsert(route: Route, index: nat) returns (ok: bool)
      requires Valid() && index <= |route.tokens|
      modifies repr
      ensures Valid() && fresh(repr - old(repr))
      ensures Inserted(Model(), ok) == Insert(old(Model()), route, route.tokens[index..])
      decreases |route.tokens| - index, 0, repr
    {
      ghost var rest := route.tokens[index..];
      if index == |route.tokens| {
        if route.verb !in routes {
          routes := routes[route.verb := route];
          return true;
        }
        return false;
      }
      var token := route.tokens[index];
      assert rest[1..] == route.tokens[index + 1..];
      match token.kind {
        case Static =>
          ok := TryInsertStatic(route, token.value, index);
        case Param =>
          ok := TryInsertParam(route, index);
        case Wildcard =>
          if route.verb !in wildcard {
            wildcard := wildcard[route.verb := route];
            return true;
          }
          return false;
      }
    }

    /** A subtree none of whose objects changed is the same subtree. */
    twostate lemma Untouched()
      requires old(Valid()) && unchanged(old(repr))
      ensures Valid() && repr == old(repr) && Model() == old(Model())
    {
    }

    /** While only the node itself changes, the children it had stay the trees they were. */
    twostate lemma ChildrenUntouched()
      requires old(Valid()) && unchanged(old(repr) - {this})
      ensures forall c: TreeNode | c in old(statics) || c == old(params) ::
        c.Valid() && c.repr == old(c.repr) && c.Model() == old(c.Model())
    {
      forall c: TreeNode | c in old(statics) || c == old(params)
        ensures c.Valid() && c.repr == old(c.repr) && c.Model() == old(c.Model())
      {
        c.Untouched();
      }
    }

    method TryInsertParam(route: Route, index: nat) returns (ok: bool)
      requires Valid() && index < |route.tokens| && route.tokens[index].kind == Param
      modifies repr
      ensures Valid() && fresh(repr - old(repr))
      ensures Inserted(Model(), ok) == Insert(old(Model()), route, route.tokens[index..])
      decreases |route.tokens| - index - 1, 2, repr
    {
      assert route.tokens[index..][1..] == route.tokens[index + 1..];
      if params == null { NewParam(); }
      ok := InsertBelowParam(route, index + 1);
    }

    method NewParam()
      requires Valid() && params == null
      modifies this
      ensures Valid() && fresh(repr - old(repr)) && params != null
      ensures Model() == old(Model()).(param := Some(Leaf("")))
    {
      params := new TreeNode("");
      repr := repr + params.repr;
      ChildrenUntouched();
    }

    method InsertBelowParam(route: Route, index: nat) returns (ok: bool)
      requires Valid() && index <= |route.tokens| && params != null
      modifies repr
      ensures Valid() && fresh(repr - old(repr))
      ensures var c := Insert(old(params.Model()), route, route.tokens[index..]);
        Model() == old(Model()).(param := Some(c.node)) && ok == c.ok
      decreases |route.tokens| - index, 1, repr
    {
      ok := params.TryInsert(route, index);
      repr := repr + params.repr;
      ParamReplaced();
    }

    /** The frame of an update inside the parameter child: nothing else in the node's subtree changes. */
    twostate lemma ParamReplaced()
      requires old(Valid()) && params != null && params == old(params)
      requires prefix == old(prefix) && routes == old(routes) && wildcard == old(wildcard) && statics == old(statics)
      requires params.Valid() && fresh(params.repr - old(params.repr))
      requires repr == old(repr) + params.repr
      requires unchanged(old(repr) - {this} - old(params.repr))
      ensures Valid()
      ensures Model() == old(Model()).(param := Some(params.Model()))
    {
      forall i | 0 <= i < |statics|
        ensures statics[i].Valid() && statics[i].repr == old(statics[i].repr)
        ensures statics[i].Model() == old(statics[i].Model())
      {
        statics[i].Untouched();
      }
    }

    method TryInsertStatic(route: Route, text: string, index: nat) returns (ok: bool)
      requires Valid() && index < |route.tokens|
      modifies repr
      ensures Valid() && fresh(repr - old(repr))
      ensures Inserted(Model(), ok) == InsertStatic(old(Model()), route, text, route.tokens[index + 1..])
      decreases |route.tokens| - index - 1, 3, repr, 1
    {
      if text == "" {
        ok := TryInsert(route, index + 1);
        return;
      }
      var k := ScanPrefixes(text);
      if k < |statics| {
        ok := InsertTextBelow(k, route, text[|statics[k].prefix|..], index);
        return;
      }
      ok := InsertBeside(route, text, index);
    }

    /** No sibling's prefix starts the text: split the first that the text starts, or append. */
    method InsertBeside(route: Route, text: string, index: nat) returns (ok: bool)
      requires Valid() && index < |route.tokens| && text != "" && FirstPrefix(Model().statics, text) == |statics|
      modifies repr
      ensures Valid() && fresh(repr - old(repr))
      ensures Inserted(Model(), ok) == InsertStatic(old(Model()), route, text, route.tokens[index + 1..])
      decreases |route.tokens| - index - 1, 3, repr, 0
    {
      BesideCases(Model(), route, text, route.tokens[index + 1..]);
      var k := MakeRoom(text);
      ok := InsertRestBelow(k, route, index + 1);
    }

    method MakeRoom(text: string) returns (k: nat)
      requires Valid()
      modifies repr
      ensures Valid() && fresh(repr - old(repr)) && k < |statics|
      ensures k == FirstExtension(old(Model()).statics, text)
      ensures Model() == old(Model()).(statics := WithRoom(old(Model()).statics, text))
    {
      k := ScanExtensions(text);
      if k < |statics| { SplitChild(k, text); } else { AppendChild(text); }
    }

    /** The first sibling whose prefix starts the text. */
    method ScanPrefixes(text: string) returns (k: nat)
      requires Valid()
      ensures k == FirstPrefix(Model().statics, text) && (k < |statics| ==> statics[k].prefix <= text)
    {
      k := 0;
      while k < |statics| && !(statics[k].prefix <= text)
        invariant k <= |statics| && forall l | 0 <= l < k :: !(statics[l].prefix <= text)
      {
        k := k + 1;
      }
      assert forall l | 0 <= l < |statics| :: Model().statics[l].prefix == statics[l].prefix;
    }

    /** The first sibling whose prefix is started by the text. */
    method ScanExtensions(text: string) returns (k: nat)
      requires Valid()
      ensures k == FirstExtension(Model().statics, text) && (k < |statics| ==> text <= statics[k].prefix)
    {
      k := 0;
      while k < |statics| && !(text <= statics[k].prefix)
        invariant k <= |statics| && forall l | 0 <= l < k :: !(text <= statics[l].prefix)
      {
        k := k + 1;
      }
      assert forall l | 0 <= l < |statics| :: Model().statics[l].prefix == statics[l].prefix;
    }

    method InsertTextBelow(k: nat, route: Route, text: string, index: nat) returns (ok: bool)
      requires Valid() && index < |route.tokens| && k < |statics|
      modifies repr
      ensures Valid() && fresh(repr - old(repr)) && |statics| == old(|statics|)
      ensures var c := InsertStatic(old(Model()).statics[k], route, text, route.tokens[index + 1..]);
        Model() == old(Model()).(statics := old(Model()).statics[k := c.node]) && ok == c.ok
      decreases |route.tokens| - index - 1, 3, repr, 0
    {
      ok := statics[k].TryInsertStatic(route, text, index);
      repr := repr + statics[k].repr;
      ChildReplaced(k);
    }

    method InsertRestBelow(k: nat, route: Route, index: nat) returns (ok: bool)
      requires Valid() && index <= |route.tokens| && k < |statics|
      modifies repr
      ensures Valid() && fresh(repr - old(repr)) && |statics| == old(|statics|)
      ensures var c := Insert(old(Model()).statics[k], route, route.tokens[index..]);
        Model() == old(Model()).(statics := old(Model()).statics[k := c.node]) && ok == c.ok
      decreases |route.tokens| - index, 1, repr
    {
      ok := statics[k].TryInsert(route, index);
      repr := repr + statics[k].repr;
      ChildReplaced(k);
    }

    /** The frame of an update inside child `k`: nothing else in the node's subtree changes. */
    twostate lemma ChildReplaced(k: nat)
      requires old(Valid()) && k < |statics|
      requires prefix == old(prefix) && routes == old(routes) && wildcard == old(wildcard)
      requires |statics| == |old(statics)| && statics == old(statics)[k := statics[k]] && params == old(params)
      requires statics[k].Valid() && fresh(statics[k].repr - old(statics[k].repr))
      requires repr == old(repr) + statics[k].repr
      requires unchanged(old(repr) - {this} - old(statics[k].repr))
      ensures Valid()
      ensures Model() == old(Model()).(statics := old(Model()).statics[k := statics[k].Model()])
    {
      forall i | 0 <= i < |statics| && i != k
        ensures statics[i] == old(statics[i]) && statics[i].Valid() && statics[i].repr == old(statics[i].repr)
        ensures statics[i].Model() == old(statics[i].Model())
      {
        old(statics[i]).Untouched();
      }
      if params != null { params.Untouched(); }
    }

    method SplitChild(k: nat, text: string)
      requires Valid() && k < |statics| && text <= statics[k].prefix
      modifies repr
      ensures Valid() && fresh(repr - old(repr)) && |statics| == old(|statics|)
      ensures Model() == old(Model()).(statics := old(Model()).statics[k := Split(old(statics[k].Model()), text)])
    {
      var c := statics[k];
      c.DropPrefix(|text|);
      assert c.repr == old(statics[k].repr);
      var n := new TreeNode.Above(text, c);
      assert n.Model() == Split(old(statics[k].Model()), text);
      label made:
      statics := statics[k := n];
      repr := repr + n.repr;
      n.Untouched@made();
      ChildReplaced(k);
    }

    method DropPrefix(length: nat)
      requires Valid() && length <= |prefix|
      modifies this`prefix
      ensures Valid() && Model() == old(Model()).(prefix := old(prefix)[length..])
    {
      prefix := prefix[length..];
      ChildrenUntouched();
    }

    constructor Above(text: string, child: TreeNode)
      requires child.Valid()
      ensures Valid() && repr == {this} + child.repr && fresh(this)
      ensures Model() == Leaf(text).(statics := [child.Model()])
    {
      prefix := text;
      routes, wildcard := map[], map[];
      statics, params := [child], null;
      repr := {this} + child.repr;
      new;
      child.Untouched();
      assert Models() == [child.Model()];
    }

    method AppendChild(text: string)
      requires Valid()
      modifies this
      ensures Valid() && fresh(repr - old(repr)) && |statics| == old(|statics|) + 1
      ensures Model() == old(Model()).(statics := old(Model()).statics + [Leaf(text)])
    {
      var n := new TreeNode(text);
      statics := statics + [n];
      repr := repr + n.repr;
      ChildAppended(n);
    }

    twostate lemma ChildAppended(new n: TreeNode)
      requires old(Valid()) && n.Valid() && fresh(n.repr)
      requires prefix == old(prefix) && routes == old(routes) && wildcard == old(wildcard) && params == old(params)
      requires statics == old(statics) + [n] && repr == old(repr) + n.repr && unchanged(old(repr) - {this})
      ensures Valid()
      ensures Model() == old(Model()).(statics := old(Model()).statics + [n.Model()])
    {
      ChildrenUntouched();
      assert forall i | 0 <= i < |old(statics)| :: statics[i] == old(statics)[i];
    }

    // -------------------------------------------------------------- lookup

    method TryFind(m: Verb, path: string) returns (found: Option<Route>)
      requires Valid()
      ensures found == Find(Model(), m, path)
      decreases repr, 1
    {
      if path == "" {
        found := FindRoute(routes, m);
        if found.None? { found := FindRoute(wildcard, m); }
        return;
      }
      found := TryFindStatic(m, path);
      if found.None? { found := TryFindParam(m, path); }
      if found.None? { found := FindRoute(wildcard, m); }
    }

    method TryFindStatic(m: Verb, path: string) returns (found: Option<Route>)
      requires Valid()
      ensures found == FindStatic(Model(), m, path)
      decreases repr, 0, 1
    {
      var k := ScanPrefixes(path);
      if k == |statics| { return None; }
      found := FindBelow(k, m, path[|statics[k].prefix|..]);
    }

    method FindBelow(k: nat, m: Verb, path: string) returns (found: Option<Route>)
      requires Valid() && k < |statics|
      ensures found == Find(Model().statics[k], m, path)
      decreases repr, 0, 0
    {
      found := statics[k].TryFind(m, path);
    }

    method TryFindParam(m: Verb, path: string) returns (found: Option<Route>)
      requires Valid()
      ensures found == FindParam(Model(), m, path)
      decreases repr, 0
    {
      if params == null { return None; }
      found := params.TryFind(m, AfterSegment(path));
    }

    // -------------------------------------------------------------- optimize

    method Reorder() returns (total: nat)
      requires Valid()
      modifies repr
      ensures Valid() && repr == old(repr)
      ensures Weighted(total, Model()) == Optimize(old(Model()))
      decreases repr, 1
    {
      OptimizeUnfold(Model());
      total := ReorderStatics();
      if routes != map[] { total := total + 1; }
      if params != null {
        var count := ReorderParam();
        total := total + count;
      }
      if wildcard != map[] { total := total + 1; }
    }

    method ReorderParam() returns (count: nat)
      requires Valid() && params != null
      modifies repr
      ensures Valid() && repr == old(repr) && routes == old(routes) && wildcard == old(wildcard)
      ensures count == Optimize(old(Model()).param.value).weight
      ensures Model() == old(Model()).(param := Some(Optimize(old(Model()).param.value).node))
      decreases repr, 0
    {
      count := params.Reorder();
      ParamReplaced();
    }

    method ReorderStatics() returns (total: nat)
      requires Valid()
      modifies repr
      ensures Valid() && repr == old(repr)
      ensures total == Sum(Weights(Children(old(Model()))))
      ensures Model() == old(Model()).(statics := Nodes(ByWeight(Children(old(Model())))))
      decreases repr, 0, 2
    {
      ghost var n := Model();
      ChildrenOptimized(n, |n.statics|);
      assert n.statics[..|n.statics|] == n.statics && Children(n)[..|n.statics|] == Children(n);
      total := ReorderInto(Children(n));
    }

    method ReorderInto(ghost ws: seq<Weighted<Node>>) returns (total: nat)
      requires Valid() && AllOptimized(Model().statics, ws)
      modifies repr
      ensures Valid() && repr == old(repr)
      ensures total == Sum(Weights(ws)) && Model() == old(Model()).(statics := Nodes(ByWeight(ws)))
      decreases repr, 0, 1
    {
      OptimizedLength(Model().statics, ws);
      var counts;
      total, counts := ReorderChildren(ws);
      SortChildren(counts, ws);
    }

    method SortChildren(counts: seq<nat>, ghost ws: seq<Weighted<Node>>)
      requires Valid() && counts == Weights(ws) && Model().statics == Nodes(ws)
      modifies this`statics
      ensures Valid() && repr == old(repr)
      ensures Model() == old(Model()).(statics := Nodes(ByWeight(ws)))
    {
      ghost var before := Model();
      assert |statics| == |before.statics| == |ws|;
      var priority, order := Prioritized(counts, statics, ws);
      assert Valid() && Model() == before;
      Rearrange(order, priority, Nodes(ByWeight(ws)));
    }

    /** Reorders below every child and collects the weights. */
    method ReorderChildren(ghost ws: seq<Weighted<Node>>) returns (total: nat, counts: seq<nat>)
      requires Valid() && AllOptimized(Model().statics, ws)
      modifies repr
      ensures Valid() && repr == old(repr) && statics == old(statics)
      ensures counts == Weights(ws) && total == Sum(counts)
      ensures Model() == old(Model()).(statics := Nodes(ws))
      decreases repr, 0, 0, 2
    {
      ghost var before := Model();
      total, counts := 0, [];
      PartlyNone(before.statics, ws);
      for k := 0 to |statics|
        invariant Valid() && repr == old(repr) && statics == old(statics)
        invariant Model() == before.(statics := Partly(before.statics, ws, k))
        invariant Counted(ws, counts, total, k)
      {
        total, counts := ReorderNext(k, before, ws, total, counts);
      }
      AllReordered(before.statics, ws, counts, total);
    }

    method ReorderNext(k: nat, ghost before: Node, ghost ws: seq<Weighted<Node>>, total: nat, counts: seq<nat>)
      returns (total': nat, counts': seq<nat>)
      requires Valid() && AllOptimized(before.statics, ws) && k < |statics| == |ws| == |before.statics|
      requires Model() == before.(statics := Partly(before.statics, ws, k)) && Counted(ws, counts, total, k)
      modifies repr
      ensures Valid() && repr == old(repr) && statics == old(statics)
      ensures Model() == before.(statics := Partly(before.statics, ws, k + 1)) && Counted(ws, counts', total', k + 1)
      decreases repr, 0, 0, 1
    {
      var count := ReorderChild(k, before, ws);
      CountNext(ws, counts, total, k, count);
      total', counts' := total + count, counts + [count];
    }

    method ReorderChild(k: nat, ghost before: Node, ghost ws: seq<Weighted<Node>>) returns (count: nat)
      requires Valid() && AllOptimized(before.statics, ws) && k < |statics| == |ws| == |before.statics|
      requires Model() == before.(statics := Partly(before.statics, ws, k))
      modifies repr
      ensures Valid() && repr == old(repr) && statics == old(statics)
      ensures count == ws[k].weight && Model() == before.(statics := Partly(before.statics, ws, k + 1))
      decreases repr, 0, 0, 0
    {
      OptimizedAt(before.statics, ws, k);
      PartlyNext(before.statics, ws, k);
      assert statics[k].Model() == before.statics[k];
      count := statics[k].Reorder();
      ChildReplaced(k);
    }

    /** Puts the children into a new order. */
    method Rearrange(ghost order: seq<Weighted<nat>>, nodes: seq<TreeNode>, ghost target: seq<Node>)
      requires Valid() && Permutes(order, |statics|) && |nodes| == |statics|
      requires PickedFrom(nodes, order, statics) && Picked(Model().statics, order) == target
      modifies this`statics
      ensures Valid() && repr == old(repr)
      ensures Model() == old(Model()).(statics := target)
    {
      statics := nodes;
      RearrangedValid(order);
      RearrangedModel(order);
    }

    twostate lemma RearrangedValid(order: seq<Weighted<nat>>)
      requires old(Valid()) && Permutes(order, |old(statics)|) && |statics| == |old(statics)|
      requires forall i | 0 <= i < |statics| :: statics[i] == old(statics)[order[i].node]
      requires repr == old(repr) && params == old(params) && unchanged(repr - {this})
      ensures Valid()
      ensures forall i | 0 <= i < |statics| :: statics[i].Model() == old(statics[order[i].node].Model())
      ensures params != null ==> params.Model() == old(params.Model())
    {
      forall i | 0 <= i < |statics|
        ensures statics[i].Valid() && statics[i].repr == old(statics[order[i].node].repr)
        ensures statics[i].Model() == old(statics[order[i].node].Model())
      {
        old(statics)[order[i].node].Untouched();
      }
      forall i, j | 0 <= i < j < |statics| ensures statics[i].repr !! statics[j].repr {
        assert order[i].node < order[j].node || order[j].node < order[i].node;
      }
      if params != null { params.Untouched(); }
    }

    twostate lemma RearrangedModel(order: seq<Weighted<nat>>)
      requires old(Valid()) && Permutes(order, |old(statics)|) && |statics| == |old(statics)| && Valid()
      requires prefix == old(prefix) && routes == old(routes) && wildcard == old(wildcard) && params == old(params)
      requires forall i | 0 <= i < |statics| :: statics[i].Model() == old(statics[order[i].node].Model())
      requires params != null ==> params.Model() == old(params.Model())
      ensures Model() == old(Model()).(statics := Picked(old(Model()).statics, order))
    {
      assert Models() == Picked(old(Models()), order);
    }
  }

  ghost predicate AllOptimized(ns: seq<Node>, ws: seq<Weighted<Node>>) {
    if ws == [] || ns == [] then ws == [] && ns == []
    else ws[|ws| - 1] == Optimize(ns[|ns| - 1]) && AllOptimized(ns[..|ns| - 1], ws[..|ws| - 1])
  }

  lemma {:induction false} OptimizedAt(ns: seq<Node>, ws: seq<Weighted<Node>>, k: nat)
    requires AllOptimized(ns, ws) && k < |ws|
    ensures |ws| == |ns| && ws[k] == Optimize(ns[k])
  {
    OptimizedLength(ns, ws);
    if k == |ws| - 1 {
    } else {
      OptimizedAt(ns[..|ns| - 1], ws[..|ws| - 1], k);
    }
  }

  lemma {:induction false} OptimizedLength(ns: seq<Node>, ws: seq<Weighted<Node>>)
    requires AllOptimized(ns, ws)
    ensures |ws| == |ns|
  {
    if ws == [] || ns == [] {
    } else {
      OptimizedLength(ns[..|ns| - 1], ws[..|ws| - 1]);
    }
  }

  lemma {:induction false} ChildrenOptimized(n: Node, k: nat)
    requires k <= |n.statics|
    ensures AllOptimized(n.statics[..k], Children(n)[..k])
  {
    if k == 0 {
    } else {
      ChildrenOptimized(n, k - 1);
      TakeTwice(n.statics, k);
      TakeTwice(Children(n), k);
    }
  }

  lemma TakeTwice<T>(s: seq<T>, k: nat)
    requires 0 < k <= |s|
    ensures s[..k][..k - 1] == s[..k - 1] && s[..k][k - 1] == s[k - 1]
  {
  }

  // ---------------------------------------------------------------- sorting references instead of values

  /** `order` lists each position below `n` once. */
  ghost predicate Permutes(order: seq<Weighted<nat>>, n: nat) {
    && |order| == n
    && (forall i | 0 <= i < n :: order[i].node < n)
    && (forall i, j | 0 <= i < j < n :: order[i].node != order[j].node)
  }

  ghost predicate PickedFrom<T>(sorted: seq<T>, order: seq<Weighted<nat>>, items: seq<T>) {
    |sorted| == |order| && forall i | 0 <= i < |order| :: order[i].node < |items| && sorted[i] == items[order[i].node]
  }

  function Picked(ns: seq<Node>, order: seq<Weighted<nat>>): (ms: seq<Node>)
    requires forall i | 0 <= i < |order| :: order[i].node < |ns|
    ensures |ms| == |order| && forall i | 0 <= i < |order| :: ms[i] == ns[order[i].node]
  {
    seq(|order|, i requires 0 <= i < |order| => ns[order[i].node])
  }

  /** `p` is entry `o` with the position replaced by the item there. */
  ghost predicate Alike<T>(p: Weighted<T>, o: Weighted<nat>, items: seq<T>) {
    o.node < |items| && p == Weighted(o.weight, items[o.node])
  }

  ghost predicate AllAlike<T>(ps: seq<Weighted<T>>, os: seq<Weighted<nat>>, items: seq<T>) {
    |ps| == |os| && forall i | 0 <= i < |ps| :: Alike(ps[i], os[i], items)
  }

  lemma {:induction false} SlotAlike<T>(ps: seq<Weighted<T>>, os: seq<Weighted<nat>>, items: seq<T>, weight: nat)
    requires AllAlike(ps, os, items)
    ensures Slot(ps, weight) == Slot(os, weight)
  {
    if ps == [] {
    } else {
      assert Alike(ps[0], os[0], items);
      SlotAlike(ps[1..], os[1..], items, weight);
    }
  }

  /** Placing looks only at weights, so it treats items and their positions alike. */
  lemma PlaceAlike<T>(ps: seq<Weighted<T>>, os: seq<Weighted<nat>>, p: Weighted<T>, o: Weighted<nat>, items: seq<T>)
    requires AllAlike(ps, os, items) && Alike(p, o, items)
    ensures AllAlike(Place(ps, p), Place(os, o), items)
  {
    SlotAlike(ps, os, items, p.weight);
  }

  lemma PlacePermutes(order: seq<Weighted<nat>>, k: nat, weight: nat)
    requires Permutes(order, k)
    ensures Permutes(Place(order, Weighted(weight, k)), k + 1)
  {
    var w := Weighted(weight, k);
    var at := Slot(order, weight);
    var placed := order[..at] + [w] + order[at..];
    assert forall i | 0 <= i < at :: placed[i] == order[i];
    assert forall i | at < i <= k :: placed[i] == order[i - 1];
  }

  /** One turn of the loop over the ordered multimap. */
  ghost predicate Placed<T>(
    priority: seq<Weighted<T>>, order: seq<Weighted<nat>>, items: seq<T>, ws: seq<Weighted<Node>>, k: nat)
  {
    k <= |ws| && Permutes(order, k) && AllAlike(priority, order, items) && AllAlike(ByWeight(ws[..k]), order, Nodes(ws))
  }

  lemma PlaceNext<T>(
    priority: seq<Weighted<T>>, order: seq<Weighted<nat>>, items: seq<T>, ws: seq<Weighted<Node>>, k: nat)
    requires Placed(priority, order, items, ws, k) && k < |ws| == |items|
    ensures Placed(Place(priority, Weighted(ws[k].weight, items[k])), Place(order, Weighted(ws[k].weight, k)),
                   items, ws, k + 1)
  {
    var o := Weighted(ws[k].weight, k);
    PlacePermutes(order, k, ws[k].weight);
    PlaceAlike(priority, order, Weighted(ws[k].weight, items[k]), o, items);
    PlaceAlike(ByWeight(ws[..k]), order, ws[k], o, Nodes(ws));
    assert ws[..k + 1][..k] == ws[..k];
  }

  lemma PlacedAll<T>(
    priority: seq<Weighted<T>>, order: seq<Weighted<nat>>, items: seq<T>, ws: seq<Weighted<Node>>, sorted: seq<T>)
    requires Placed(priority, order, items, ws, |ws|) && |ws| == |items| == |sorted|
    requires forall i | 0 <= i < |sorted| :: sorted[i] == priority[i].node
    ensures Permutes(order, |items|) && PickedFrom(sorted, order, items)
    ensures Picked(Nodes(ws), order) == Nodes(ByWeight(ws))
  {
    assert ws[..|ws|] == ws;
    forall i | 0 <= i < |order|
      ensures sorted[i] == items[order[i].node] && ByWeight(ws)[i].node == Nodes(ws)[order[i].node]
    {
      assert Alike(priority[i], order[i], items) && Alike(ByWeight(ws)[i], order[i], Nodes(ws));
    }
  }

  /** The siblings by falling weight, ties in their old order; `order` says where each one was. */
  method Prioritized(counts: seq<nat>, items: seq<TreeNode>, ghost ws: seq<Weighted<Node>>)
    returns (sorted: seq<TreeNode>, ghost order: seq<Weighted<nat>>)
    requires counts == Weights(ws) && |items| == |ws|
    ensures Permutes(order, |items|) && PickedFrom(sorted, order, items)
    ensures Picked(Nodes(ws), order) == Nodes(ByWeight(ws))
  {
    var priority: seq<Weighted<TreeNode>> := [];
    order := [];
    for k := 0 to |items|
      invariant Placed(priority, order, items, ws, k)
    {
      PlaceNext(priority, order, items, ws, k);
      priority := Place(priority, Weighted(counts[k], items[k]));
      order := Place(order, Weighted(counts[k], k));
    }
    sorted := seq(|priority|, i requires 0 <= i < |priority| => priority[i].node);
    PlacedAll(priority, order, items, ws, sorted);
  }

  /** The children when the first `k` have been reordered. */
  ghost function Partly(ns: seq<Node>, ws: seq<Weighted<Node>>, k: nat): (ms: seq<Node>)
    requires k <= |ns| == |ws|
    ensures |ms| == |ns| && forall i | 0 <= i < |ms| :: ms[i] == if i < k then ws[i].node else ns[i]
  {
    seq(|ns|, i requires 0 <= i < |ns| => if i < k then ws[i].node else ns[i])
  }

  lemma PartlyNone(ns: seq<Node>, ws: seq<Weighted<Node>>)
    requires AllOptimized(ns, ws)
    ensures |ws| == |ns| && Partly(ns, ws, 0) == ns
  {
    OptimizedLength(ns, ws);
  }

  lemma PartlyNext(ns: seq<Node>, ws: seq<Weighted<Node>>, k: nat)
    requires k < |ns| == |ws|
    ensures Partly(ns, ws, k)[k] == ns[k]
    ensures Partly(ns, ws, k)[k := ws[k].node] == Partly(ns, ws, k + 1)
  {
  }

  /** The weights collected from the first `k` children. */
  ghost predicate Counted(ws: seq<Weighted<Node>>, counts: seq<nat>, total: nat, k: nat) {
    |counts| == k <= |ws| && total == Sum(counts) && forall i | 0 <= i < k :: counts[i] == ws[i].weight
  }

  lemma CountNext(ws: seq<Weighted<Node>>, counts: seq<nat>, total: nat, k: nat, count: nat)
    requires Counted(ws, counts, total, k) && k < |ws| && count == ws[k].weight
    ensures Counted(ws, counts + [count], total + count, k + 1)
  {
    SumAppend(counts, count);
  }

  lemma AllReordered(ns: seq<Node>, ws: seq<Weighted<Node>>, counts: seq<nat>, total: nat)
    requires |ns| == |ws| && Counted(ws, counts, total, |ws|)
    ensures Partly(ns, ws, |ws|) == Nodes(ws) && counts == Weights(ws) && total == Sum(counts)
  {
    assert ws[..|ws|] == ws;
  }

}
