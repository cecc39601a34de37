/** The behavioural half of the split: what an unsafe split breaks. The lookup of some route that
    was stored before the insert now returns something that the plain search ranks lower, or nothing. */
module RouterShadow {
  import opened PathTokens
  import opened RouteShape
  import opened RouterTree
  import opened RouterSearch
  import opened RouterSplit

  /** Every residual shape stored at `n` is a tail of a parsed pattern's shape. */
  ghost predicate AllShapesOk(n: Node) {
    forall s, r | Has(n, s, r) :: ShapeOk(s)
  }

  lemma ParamShapesOk(n: Node)
    requires AllShapesOk(n) && n.param.Some?
    ensures AllShapesOk(n.param.value)
  {
    forall s, r | Has(n.param.value, s, r) ensures ShapeOk(s) { assert Has(n, Par(s), r) && ShapeOk(Par(s)); }
  }

  lemma ChildShapesOk(n: Node, i: nat)
    requires AllShapesOk(n) && i < |n.statics|
    ensures AllShapesOk(n.statics[i])
  {
    forall s, r | Has(n.statics[i], s, r) ensures ShapeOk(s) {
      LiftBelow(n, i, s, r);
      PrependShapeOkTail(n.statics[i].prefix, s);
    }
  }

  /** No text child of a tree of parsed patterns starts with a space. */
  lemma NoSpaceChild(n: Node, p: string)
    requires AllShapesOk(n) && Populated(n) && Keyed(n)
    requires forall i | 0 <= i < |n.statics| :: n.statics[i].prefix != ""
    ensures FirstPrefix(n.statics, " " + p) == |n.statics|
  {
    forall i | 0 <= i < |n.statics| ensures !(n.statics[i].prefix <= " " + p) {
      var s, r := Inhabitant(n.statics[i]);
      LiftBelow(n, i, s, r);
      PrependShapeOkTail(n.statics[i].prefix, s);
    }
  }

  /** A hit that is not among the text children is stored under a shape that does not start with text. */
  lemma FindElsewhere(n: Node, m: Verb, p: string) returns (t: Shape)
    requires Keyed(n) && p != "" && FindStatic(n, m, p).None? && Find(n, m, p).Some?
    ensures Has(n, t, Find(n, m, p).value) && (t.Par? || t.Wild?)
  {
    if FindParam(n, m, p).Some? {
      t := FindSound(n.param.value, m, AfterSegment(p));
      t := Par(t);
    } else {
      t := Wild;
    }
  }

  /** `q`, stored under `s`, is missed by the lookup of `p`: it matches and serves, yet the lookup
      fails or returns a route stored under a shape `t` that does not precede `s`. */
  ghost predicate Missed(n: Node, m: Verb, p: string, s: Shape, q: Route, t: Shape) {
    && Has(n, s, q) && Serves(q, m) && Matches(s, p)
    && (Find(n, m, p).Some? ==> Has(n, t, Find(n, m, p).value) && !Precedes(t, s))
  }

  /** A miss below a text child is a miss at the node. */
  lemma MissedThroughText(n: Node, i: nat, m: Verb, p: string, s: Shape, q: Route, t: Shape)
    returns (t': Shape)
    requires SiblingsFree(n.statics) && Keyed(n) && i < |n.statics| && n.statics[i].prefix != ""
    requires Missed(n.statics[i], m, p, s, q, t)
    ensures Missed(n, m, n.statics[i].prefix + p, Prepend(n.statics[i].prefix, s), q, t')
  {
    var x := n.statics[i].prefix;
    var p' := x + p;
    assert p'[|x|..] == p;
    MatchesText(x, s, p');
    LiftBelow(n, i, s, q);
    FindCommits(n, i, m, p');
    t' := Prepend(x, t);
    if FindStatic(n, m, p').Some? {
      LiftBelow(n, i, t, FindStatic(n, m, p').value);
      PrecedesAfter(x, t, s);
    } else if Find(n, m, p').Some? {
      t' := FindElsewhere(n, m, p');
    }
  }

  /** A miss below the parameter child is a miss at the node: a space stands for the segment. */
  lemma MissedThroughParam(n: Node, m: Verb, p: string, s: Shape, q: Route, t: Shape)
    returns (t': Shape)
    requires Keyed(n) && Populated(n) && AllShapesOk(n) && n.param.Some?
    requires forall i | 0 <= i < |n.statics| :: n.statics[i].prefix != ""
    requires Missed(n.param.value, m, p, s, q, t)
    ensures Missed(n, m, " " + p, Par(s), q, t')
  {
    assert Has(n, Par(s), q) && ShapeOk(Par(s));
    SegmentOfSpace(p);
    NoSpaceChild(n, p);
    t' := ParamThenWildcard(n, m, " " + p, t);
  }

  /** With no text child in the way, the parameter decides, then the wildcard. */
  lemma ParamThenWildcard(n: Node, m: Verb, p: string, t: Shape) returns (t': Shape)
    requires p != "" && FirstPrefix(n.statics, p) == |n.statics| && n.param.Some?
    requires var found := Find(n.param.value, m, AfterSegment(p)); found.Some? ==> Has(n.param.value, t, found.value)
    requires Keyed(n)
    ensures Find(n, m, p).Some? ==> Has(n, t', Find(n, m, p).value) && (t' == Par(t) || t' == Wild)
    ensures Find(n.param.value, m, AfterSegment(p)).Some? ==>
      t' == Par(t) && Find(n, m, p) == Find(n.param.value, m, AfterSegment(p))
    ensures Find(n.param.value, m, AfterSegment(p)).None? ==> t' == Wild
  {
    if Find(n.param.value, m, AfterSegment(p)).Some? {
      t' := Par(t);
    } else {
      t' := Wild;
      WildcardHas(n, m);
    }
  }

  lemma WildcardHas(n: Node, m: Verb)
    requires Keyed(n)
    ensures FindRoute(n.wildcard, m).Some? ==> Has(n, Wild, FindRoute(n.wildcard, m).value)
  {
  }

  /** After an unsafe split some route stored earlier is missed. */
  lemma {:induction false} UnsafeSplitMisses(n: Node, r: Route, rest: seq<Token>)
    returns (m: Verb, p: string, s: Shape, q: Route, t: Shape)
    requires PrefixFree(n) && Keyed(n) && Populated(n) && Placeable(rest)
    requires AllShapesOk(Insert(n, r, rest).node) && !SplitSafe(n, rest)
    ensures Missed(Insert(n, r, rest).node, m, p, s, q, t)
    decreases |rest|, 0, n
  {
    if rest[0].kind == Static {
      m, p, s, q, t := UnsafeTextMisses(n, r, rest[0].value, rest[1..]);
    } else {
      var n' := Insert(n, r, rest).node;
      InsertKeepsKeyed(n, r, rest);
      InsertKeepsPopulated(n, r, rest);
      ParamShapesOk(n');
      m, p, s, q, t := UnsafeSplitMisses(n.param.value, r, rest[1..]);
      t := MissedThroughParam(n', m, p, s, q, t);
      p, s := " " + p, Par(s);
    }
  }

  lemma {:induction false} UnsafeTextMisses(n: Node, r: Route, text: string, rest: seq<Token>)
    returns (m: Verb, p: string, s: Shape, q: Route, t: Shape)
    requires PrefixFree(n) && Keyed(n) && Populated(n)
    requires Placeable(rest) && (rest != [] ==> rest[0].kind != Static)
    requires AllShapesOk(InsertStatic(n, r, text, rest).node) && !SplitSafeText(n, text, rest)
    ensures Missed(InsertStatic(n, r, text, rest).node, m, p, s, q, t)
    decreases |rest|, 1, n
  {
    var n' := InsertStatic(n, r, text, rest).node;
    InsertStaticKeepsKeyed(n, r, text, rest);
    if text == "" {
      m, p, s, q, t := UnsafeSplitMisses(n, r, rest);
    } else {
      var i := FirstPrefix(n.statics, text);
      if i < |n.statics| {
        var c := n.statics[i];
        var tail := text[|c.prefix|..];
        ChildShapesOk(n', i);
        InsertStaticKeepsPrefix(c, r, tail, rest);
        SamePrefixesSameSiblings(n.statics, i, n'.statics[i]);
        m, p, s, q, t := UnsafeTextMisses(c, r, tail, rest);
        t := MissedThroughText(n', i, m, p, s, q, t);
        p, s := c.prefix + p, Prepend(c.prefix, s);
      } else {
        var k :| FirstExtension(n.statics, text) < k < |n.statics| && text <= n.statics[k].prefix;
        m, p, s, q, t := SplitMisses(n, r, text, rest, k);
      }
    }
  }

  /** The split itself: sibling `k` also starts with the new text and is no longer reached. */
  lemma SplitMisses(n: Node, r: Route, text: string, rest: seq<Token>, k: nat)
    returns (m: Verb, p: string, s: Shape, q: Route, t: Shape)
    requires PrefixFree(n) && Keyed(n) && Populated(n) && text != "" && FirstPrefix(n.statics, text) == |n.statics|
    requires Placeable(rest) && (rest != [] ==> rest[0].kind != Static)
    requires AllShapesOk(InsertStatic(n, r, text, rest).node)
    requires FirstExtension(n.statics, text) < k < |n.statics| && text <= n.statics[k].prefix
    ensures Missed(InsertStatic(n, r, text, rest).node, m, p, s, q, t)
  {
    var d := n.statics[k];
    var n' := InsertStatic(n, r, text, rest).node;
    s, q := Inhabitant(d);
    assert n'.statics[k] == d;
    LiftBelow(n', k, s, q);
    m, p := q.verb, Instance(Prepend(d.prefix, s));
    InstanceMatches(Prepend(d.prefix, s));
    MatchesText(d.prefix, s, p);
    t := CapturedTooEarly(n, r, text, rest, k, m, p, s);
    s := Prepend(d.prefix, s);
  }

  /** What the lookup returns for a path below sibling `k` is not found under that sibling's text. */
  lemma CapturedTooEarly(n: Node, r: Route, text: string, rest: seq<Token>, k: nat, m: Verb, p: string, s: Shape)
    returns (t: Shape)
    requires PrefixFree(n) && Keyed(n) && text != "" && FirstPrefix(n.statics, text) == |n.statics|
    requires Placeable(rest) && (rest != [] ==> rest[0].kind != Static)
    requires FirstExtension(n.statics, text) < k < |n.statics| && text <= n.statics[k].prefix <= p
    ensures var n' := InsertStatic(n, r, text, rest).node;
      Find(n', m, p).Some? ==>
        Has(n', t, Find(n', m, p).value) && !Precedes(t, Prepend(n.statics[k].prefix, s))
  {
    var j, d := FirstExtension(n.statics, text), n.statics[k];
    var n' := InsertStatic(n, r, text, rest).node;
    InsertStaticKeepsKeyed(n, r, text, rest);
    SplitCaptures(n, r, text, rest, k, p);
    if FindStatic(n', m, p).Some? {
      var u := FindSound(n'.statics[j], m, p[|text|..]);
      CapturedIsWorse(n, r, text, rest, k, p, u, FindStatic(n', m, p).value);
      LiftBelow(n', j, u, FindStatic(n', m, p).value);
      t := Prepend(text, u);
      WorseAfterText(text, d.prefix, u, s);
    } else if Find(n', m, p).Some? {
      t := FindElsewhere(n', m, p);
      WorseAfterText("", d.prefix, t, s);
    } else {
      t := Wild;
    }
  }

  lemma WorseAfterText(text: string, longer: string, u: Shape, s: Shape)
    requires text < longer && (u.Par? || u.Wild?)
    ensures !Precedes(Prepend(text, u), Prepend(longer, s))
  {
    assert longer == text + longer[|text|..];
    PrependConcat(text, longer[|text|..], s);
    PrecedesAfter(text, u, Prepend(longer[|text|..], s));
  }

  /** A path below sibling `k` is captured by the node made by the split. */
  lemma SplitCaptures(n: Node, r: Route, text: string, rest: seq<Token>, k: nat, p: string)
    requires PrefixFree(n) && text != "" && FirstPrefix(n.statics, text) == |n.statics|
    requires FirstExtension(n.statics, text) < k < |n.statics| && text <= n.statics[k].prefix <= p
    ensures FirstPrefix(InsertStatic(n, r, text, rest).node.statics, p) == FirstExtension(n.statics, text)
    ensures InsertStatic(n, r, text, rest).node.statics[FirstExtension(n.statics, text)].prefix == text
  {
    var j := FirstExtension(n.statics, text);
    var ms := InsertStatic(n, r, text, rest).node.statics;
    InsertKeepsPrefix(Split(n.statics[j], text), r, rest);
    assert ms[j].prefix == text <= p;
    forall l | 0 <= l < j ensures !(ms[l].prefix <= p) { NotBoth(n.statics, l, k, p); }
  }

  lemma NotBoth(ns: seq<Node>, l: nat, k: nat, p: string)
    requires SiblingsFree(ns) && l < |ns| && k < |ns| && l != k && ns[k].prefix <= p
    ensures !(ns[l].prefix <= p)
  {
    OnlySibling(ns, k, p);
    if ns[l].prefix <= p { OnlySibling(ns, l, p); }
  }

  /** What the split's node offers for such a path starts with no text. */
  lemma CapturedIsWorse(n: Node, r: Route, text: string, rest: seq<Token>, k: nat, p: string, u: Shape, found: Route)
    requires PrefixFree(n) && Placeable(rest) && (rest != [] ==> rest[0].kind != Static)
    requires FirstExtension(n.statics, text) < k < |n.statics| && text < n.statics[k].prefix <= p
    requires var c := Insert(Split(n.statics[FirstExtension(n.statics, text)], text), r, rest).node;
      Has(c, u, found) && Matches(u, p[|text|..])
    ensures u.Par? || u.Wild?
  {
    var j := FirstExtension(n.statics, text);
    assert p[|text|..] != "";
    NotBoth(n.statics, j, k, p);
    if u.Text? { TextUnderSplit(n.statics[j], r, text, rest, p, u, found); }
  }

  lemma TextUnderSplit(o: Node, r: Route, text: string, rest: seq<Token>, p: string, u: Shape, found: Route)
    requires text <= o.prefix && text <= p && (rest != [] ==> rest[0].kind != Static)
    requires Has(Insert(Split(o, text), r, rest).node, u, found) && Matches(u, p[|text|..])
    requires u.Text?
    ensures o.prefix <= p
  {
    var c := Insert(Split(o, text), r, rest).node;
    InsertKeepsChildren(Split(o, text), r, rest);
    var i := HasText(c, u, found);
    var tail := o.prefix[|text|..];
    assert c.statics[i].prefix == tail;
    StripIs(tail, u);
    MatchesText(tail, Strip(tail, u).value, p[|text|..]);
    PrefixJoin(text, o.prefix, p);
  }

  lemma PrefixJoin(text: string, longer: string, p: string)
    requires text <= longer && text <= p && longer[|text|..] <= p[|text|..]
    ensures longer <= p
  {
    assert longer == text + longer[|text|..] && p == text + p[|text|..];
  }
}
