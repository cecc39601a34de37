/** The split. When a new text is a proper prefix of existing siblings, the insert rehangs only the
    first of them. `SplitSafe` is the check a caller could make before inserting; it is exactly when
    the siblings stay prefix-free, and exactly when every later lookup is still answered correctly. */
module RouterSplit {
  import opened PathTokens
  import opened RouteShape
  import opened RouterTree
  import opened RouterSearch

  /** Placing `rest` at `n` splits no node whose text also starts a second sibling. */
  predicate SplitSafe(n: Node, rest: seq<Token>)
    decreases |rest|, 0, n
  {
    rest == [] ||
    match rest[0].kind
    case Static => SplitSafeText(n, rest[0].value, rest[1..])
    case Param => n.param.Some? ==> SplitSafe(n.param.value, rest[1..])
    case Wildcard => true
  }

  predicate SplitSafeText(n: Node, text: string, rest: seq<Token>)
    decreases |rest|, 1, n
  {
    if text == "" then SplitSafe(n, rest) else
    var i := FirstPrefix(n.statics, text);
    if i < |n.statics| then SplitSafeText(n.statics[i], text[|n.statics[i].prefix|..], rest)
    else forall k | FirstExtension(n.statics, text) < k < |n.statics| :: !(text <= n.statics[k].prefix)
  }

  // ---------------------------------------------------------------- the structural half

  lemma InsertKeepsChildren(n: Node, r: Route, rest: seq<Token>)
    requires rest != [] ==> rest[0].kind != Static
    ensures Insert(n, r, rest).node.statics == n.statics
  {
  }

  lemma {:induction false} FreshStaysPrefixFree(n: Node, r: Route, rest: seq<Token>)
    requires PrefixFree(n) && n.param.None? && Placeable(rest)
    requires n.statics == [] || (rest != [] ==> rest[0].kind != Static)
    ensures PrefixFree(Insert(n, r, rest).node)
    decreases |rest|
  {
    if rest != [] && rest[0].kind == Param {
      FreshStaysPrefixFree(Leaf(""), r, rest[1..]);
    } else if rest != [] && rest[0].kind == Static {
      var text := rest[0].value;
      FreshStaysPrefixFree(if text == "" then n else Leaf(text), r, rest[1..]);
      InsertKeepsPrefix(Leaf(text), r, rest[1..]);
    }
  }

  /** An insert keeps the siblings prefix-free exactly when its split is safe. */
  lemma {:induction false} PrefixFreeIffSplitSafe(n: Node, r: Route, rest: seq<Token>)
    requires PrefixFree(n) && Placeable(rest)
    ensures PrefixFree(Insert(n, r, rest).node) <==> SplitSafe(n, rest)
    decreases |rest|, 0, n
  {
    if rest == [] {
    } else {
      match rest[0].kind
      case Static => PrefixFreeIffSplitSafeText(n, r, rest[0].value, rest[1..]);
      case Param =>
        if n.param.Some? { PrefixFreeIffSplitSafe(n.param.value, r, rest[1..]); }
        else { FreshStaysPrefixFree(Leaf(""), r, rest[1..]); }
      case Wildcard =>
    }
  }

  lemma {:induction false} PrefixFreeIffSplitSafeText(n: Node, r: Route, text: string, rest: seq<Token>)
    requires PrefixFree(n) && Placeable(rest) && (rest != [] ==> rest[0].kind != Static)
    ensures PrefixFree(InsertStatic(n, r, text, rest).node) <==> SplitSafeText(n, text, rest)
    decreases |rest|, 1, n
  {
    var ns := n.statics;
    var n' := InsertStatic(n, r, text, rest).node;
    if text == "" {
      PrefixFreeIffSplitSafe(n, r, rest);
    } else if FirstPrefix(ns, text) < |ns| {
      var i := FirstPrefix(ns, text);
      var tail := text[|ns[i].prefix|..];
      PrefixFreeIffSplitSafeText(ns[i], r, tail, rest);
      InsertStaticKeepsPrefix(ns[i], r, tail, rest);
      SamePrefixesSameSiblings(ns, i, n'.statics[i]);
      ReplacePrefixFree(n, i, n'.statics[i]);
    } else {
      PrefixFreeIffSplitSafeBeside(n, r, text, rest);
    }
  }

  lemma PrefixFreeIffSplitSafeBeside(n: Node, r: Route, text: string, rest: seq<Token>)
    requires PrefixFree(n) && Placeable(rest) && (rest != [] ==> rest[0].kind != Static)
    requires text != "" && FirstPrefix(n.statics, text) == |n.statics|
    ensures PrefixFree(InsertStatic(n, r, text, rest).node) <==> SplitSafeText(n, text, rest)
  {
    var ns, j := n.statics, FirstExtension(n.statics, text);
    if j < |ns| {
      var c := Insert(Split(ns[j], text), r, rest).node;
      PrefixFreeSplit(ns[j], text);
      FreshStaysPrefixFree(Split(ns[j], text), r, rest);
      InsertKeepsPrefix(Split(ns[j], text), r, rest);
      SiblingsAfterSplit(ns, j, c);
      ReplacePrefixFree(n, j, c);
    } else {
      FreshStaysPrefixFree(Leaf(text), r, rest);
      InsertKeepsPrefix(Leaf(text), r, rest);
      AppendPrefixFree(n, Insert(Leaf(text), r, rest).node);
    }
  }

  lemma ReplacePrefixFree(n: Node, i: nat, c: Node)
    requires PrefixFree(n) && i < |n.statics| && c.prefix != ""
    ensures PrefixFree(n.(statics := n.statics[i := c])) <==> PrefixFree(c) && SiblingsFree(n.statics[i := c])
  {
    var ms := n.statics[i := c];
    assert ms[i] == c;
    assert forall k | 0 <= k < |ms| && k != i :: ms[k] == n.statics[k];
  }

  lemma AppendPrefixFree(n: Node, c: Node)
    requires PrefixFree(n) && c.prefix != "" && PrefixFree(c)
    requires FirstPrefix(n.statics, c.prefix) == |n.statics| == FirstExtension(n.statics, c.prefix)
    ensures PrefixFree(n.(statics := n.statics + [c]))
  {
    var ms := n.statics + [c];
    assert forall k | 0 <= k < |n.statics| :: ms[k] == n.statics[k];
  }

  lemma SamePrefixesSameSiblings(ns: seq<Node>, i: nat, c: Node)
    requires i < |ns| && c.prefix == ns[i].prefix
    ensures SiblingsFree(ns[i := c]) <==> SiblingsFree(ns)
  {
    var ms := ns[i := c];
    assert forall k | 0 <= k < |ns| :: ms[k].prefix == ns[k].prefix;
  }

  lemma PrefixFreeSplit(c: Node, text: string)
    requires PrefixFree(c) && text < c.prefix
    ensures PrefixFree(Split(c, text))
  {
    var child := Split(c, text).statics[0];
    assert PrefixFree(child);
  }

  lemma SiblingsAfterSplit(ns: seq<Node>, j: nat, c: Node)
    requires SiblingsFree(ns) && j == FirstExtension(ns, c.prefix) < |ns|
    requires FirstPrefix(ns, c.prefix) == |ns|
    ensures SiblingsFree(ns[j := c]) <==> forall k | j < k < |ns| :: !(c.prefix <= ns[k].prefix)
  {
    var ms := ns[j := c];
    assert forall k | 0 <= k < |ns| && k != j :: ms[k] == ns[k];
    if SiblingsFree(ms) {
      forall k | j < k < |ns| ensures !(c.prefix <= ns[k].prefix) { assert !(ms[j].prefix <= ms[k].prefix); }
    }
  }

  // ---------------------------------------------------------------- every child leads somewhere

  predicate Inhabited(n: Node) {
    n.routes != map[] || n.wildcard != map[] || n.param.Some? || n.statics != []
  }

  /** Nodes below the root exist only to lead to routes. */
  ghost predicate Populated(n: Node)
    decreases n
  {
    && (n.param.Some? ==> Inhabited(n.param.value) && Populated(n.param.value))
    && forall i | 0 <= i < |n.statics| :: Inhabited(n.statics[i]) && Populated(n.statics[i])
  }

  lemma {:induction false} InsertKeepsPopulated(n: Node, r: Route, rest: seq<Token>)
    requires Populated(n)
    ensures Populated(Insert(n, r, rest).node) && Inhabited(Insert(n, r, rest).node)
    decreases |rest|, 0, n
  {
    if rest != [] {
      match rest[0].kind
      case Static => InsertStaticKeepsPopulated(n, r, rest[0].value, rest[1..]);
      case Param => InsertKeepsPopulated(if n.param.Some? then n.param.value else Leaf(""), r, rest[1..]);
      case Wildcard => assert r.verb in Emplace(n.wildcard, r).0;
    } else {
      assert r.verb in Emplace(n.routes, r).0;
    }
  }

  lemma {:induction false} InsertStaticKeepsPopulated(n: Node, r: Route, text: string, rest: seq<Token>)
    requires Populated(n)
    ensures Populated(InsertStatic(n, r, text, rest).node) && Inhabited(InsertStatic(n, r, text, rest).node)
    decreases |rest|, 1, n
  {
    if text == "" {
      InsertKeepsPopulated(n, r, rest);
    } else {
      var i, j := FirstPrefix(n.statics, text), FirstExtension(n.statics, text);
      if i < |n.statics| {
        InsertStaticKeepsPopulated(n.statics[i], r, text[|n.statics[i].prefix|..], rest);
      } else {
        InsertKeepsPopulated(if j < |n.statics| then Split(n.statics[j], text) else Leaf(text), r, rest);
      }
    }
  }

  lemma {:induction false} Inhabitant(n: Node) returns (s: Shape, r: Route)
    requires Populated(n) && Inhabited(n) && Keyed(n)
    ensures Has(n, s, r)
    decreases n
  {
    if n.routes != map[] {
      var v :| v in n.routes;
      s, r := End, n.routes[v];
    } else if n.wildcard != map[] {
      var v :| v in n.wildcard;
      s, r := Wild, n.wildcard[v];
    } else if n.param.Some? {
      s, r := Inhabitant(n.param.value);
      s := Par(s);
    } else {
      s, r := Inhabitant(n.statics[0]);
      LiftBelow(n, 0, s, r);
      s := Prepend(n.statics[0].prefix, s);
    }
  }

  // ---------------------------------------------------------------- shapes of parsed patterns

  /** After a parameter comes a slash or nothing, and text has no space. */
  predicate ShapeOk(s: Shape) {
    match s
    case Text(c, rest) => c != ' ' && ShapeOk(rest)
    case Par(rest) => (rest.End? || (rest.Text? && rest.c == '/')) && ShapeOk(rest)
    case _ => true
  }

  lemma {:induction false} TextHasNoSpace(s: string, slashes: bool)
    requires IsText(s, slashes)
    ensures ' ' !in s
  {
    if s == "" {
    } else {
      var k := UnitLength(s, slashes);
      TextHasNoSpace(s[k..], slashes);
      assert s == s[..k] + s[k..];
    }
  }

  lemma ParsedShapeOk(ts: seq<Token>)
    requires Chained(ts)
    ensures ShapeOk(ShapeOf(ts))
  {
    SuffixShapeOk(ts, 0);
    assert ts[0..] == ts;
  }

  lemma {:induction false} SuffixShapeOk(ts: seq<Token>, i: nat)
    requires Chained(ts) && i <= |ts|
    ensures ShapeOk(ShapeOf(ts[i..]))
    ensures var s := ShapeOf(ts[i..]);
      0 < i && ts[i - 1].kind == Param ==> s.End? || (s.Text? && s.c == '/')
    decreases |ts| - i
  {
    if i == |ts| {
    } else {
      var t := ts[i];
      SuffixShapeOk(ts, i + 1);
      assert ts[i..][1..] == ts[i + 1..];
      ChainedAt(ts, i);
      if t.kind == Static {
        TextHasNoSpace(t.value, true);
        PrependShapeOk(t.value, ShapeOf(ts[i + 1..]));
      }
    }
  }

  lemma {:induction false} PrependShapeOk(text: string, s: Shape)
    requires ' ' !in text
    ensures ShapeOk(Prepend(text, s)) <==> ShapeOk(s)
  {
    if text == "" {
    } else {
      PrependShapeOk(text[1..], s);
      assert text[0] in text;
    }
  }

  lemma {:induction false} PrependShapeOkTail(text: string, s: Shape)
    requires ShapeOk(Prepend(text, s))
    ensures ShapeOk(s) && (text != "" ==> text[0] != ' ')
  {
    if text == "" {
    } else {
      PrependShapeOkTail(text[1..], s);
    }
  }

  /** A path that matches the shape: its text, a space for each parameter, nothing for the wildcard. */
  function Instance(s: Shape): string {
    match s
    case Text(c, rest) => [c] + Instance(rest)
    case Par(rest) => " " + Instance(rest)
    case _ => ""
  }

  lemma {:induction false} InstanceMatches(s: Shape)
    requires ShapeOk(s)
    ensures Matches(s, Instance(s))
  {
    match s
    case Text(_, rest) =>
      InstanceMatches(rest);
      assert Instance(s)[1..] == Instance(rest);
    case Par(rest) =>
      InstanceMatches(rest);
      SegmentOfSpace(Instance(rest));
    case _ =>
  }

  lemma SegmentOfSpace(p: string)
    requires p == "" || p[0] == '/'
    ensures AfterSegment(" " + p) == p
  {
    assert (" " + p)[1..] == p;
  }
}
