/** Completeness of the lookup on trees whose siblings are prefix-free: the tree search finds the
    best registered candidate, and inserts are rejected exactly on a repeated shape and verb. */
module RouterSearch {
  import opened PathTokens
  import opened RouteShape
  import opened RouterTree

  /** At every node, no text child is empty or starts one of its siblings. */
  ghost predicate PrefixFree(n: Node)
    decreases n
  {
    && (n.param.Some? ==> PrefixFree(n.param.value))
    && (forall i | 0 <= i < |n.statics| :: n.statics[i].prefix != "" && PrefixFree(n.statics[i]))
    && SiblingsFree(n.statics)
  }

  ghost predicate SiblingsFree(ns: seq<Node>) {
    forall i, j | 0 <= i < |ns| && 0 <= j < |ns| && i != j :: !(ns[i].prefix <= ns[j].prefix)
  }

  lemma OnlySibling(ns: seq<Node>, i: nat, p: string)
    requires SiblingsFree(ns) && i < |ns| && ns[i].prefix <= p
    ensures FirstPrefix(ns, p) == i
  {
    var k := FirstPrefix(ns, p);
    var a, b := ns[i].prefix, ns[k].prefix;
    assert a == p[..|a|] && b == p[..|b|];
    assert a <= b || b <= a;
  }

  /** If some stored route serves the method and matches the path, the lookup succeeds, and what it
      returns is stored under a matching shape `t` that is at least as preferred. */
  lemma {:induction false} FindBest(n: Node, m: Verb, p: string, s: Shape, r: Route) returns (t: Shape)
    requires PrefixFree(n) && Keyed(n)
    requires Has(n, s, r) && Serves(r, m) && Matches(s, p)
    ensures Find(n, m, p).Some?
    ensures var found := Find(n, m, p).value;
      Has(n, t, found) && Matches(t, p) && Preferred(m, t, found.verb, s, r.verb)
    decreases n
  {
    if p == "" {
      t := FindBestAtEnd(n, m, s, r);
    } else if s.Text? {
      var i := HasText(n, s, r);
      var c := n.statics[i];
      var s' := Strip(c.prefix, s).value;
      StripIs(c.prefix, s);
      MatchesText(c.prefix, s', p);
      FindCommits(n, i, m, p);
      var t' := FindBest(c, m, p[|c.prefix|..], s', r);
      t := ThroughText(n, i, m, p, t', s', r);
    } else if FindStatic(n, m, p).Some? {
      t := FindStaticSound(n, m, p);
    } else if s.Par? {
      HasParam(n, s, r);
      t := FindBest(n.param.value, m, AfterSegment(p), s.rest, r);
      t := Par(t);
    } else {
      t := FindBestWildcard(n, m, p, r);
    }
  }

  lemma FindBestAtEnd(n: Node, m: Verb, s: Shape, r: Route) returns (t: Shape)
    requires PrefixFree(n) && Keyed(n)
    requires Has(n, s, r) && Serves(r, m) && Matches(s, "")
    ensures Find(n, m, "").Some?
    ensures var found := Find(n, m, "").value;
      Has(n, t, found) && Matches(t, "") && Preferred(m, t, found.verb, s, r.verb)
  {
    HasTable(n, s, r);
    t := if FindRoute(n.routes, m).Some? then End else Wild;
  }

  lemma FindBestWildcard(n: Node, m: Verb, p: string, r: Route) returns (t: Shape)
    requires PrefixFree(n) && Keyed(n) && p != "" && FindStatic(n, m, p).None?
    requires Has(n, Wild, r) && Serves(r, m)
    ensures Find(n, m, p).Some?
    ensures var found := Find(n, m, p).value;
      Has(n, t, found) && Matches(t, p) && Preferred(m, t, found.verb, Wild, r.verb)
  {
    HasTable(n, Wild, r);
    if FindParam(n, m, p).Some? {
      t := FindSound(n.param.value, m, AfterSegment(p));
      t := Par(t);
    } else {
      t := Wild;
    }
  }

  /** The search commits to the one text child that starts the path, if it succeeds there. */
  lemma FindCommits(n: Node, i: nat, m: Verb, p: string)
    requires p != "" && SiblingsFree(n.statics) && i < |n.statics| && n.statics[i].prefix <= p
    ensures FindStatic(n, m, p) == Find(n.statics[i], m, p[|n.statics[i].prefix|..])
    ensures FindStatic(n, m, p).Some? ==> Find(n, m, p) == FindStatic(n, m, p)
  {
    OnlySibling(n.statics, i, p);
  }

  /** A result below a text child is a result of the node, with the child's text in front. */
  lemma ThroughText(n: Node, i: nat, m: Verb, p: string, t: Shape, s: Shape, r: Route) returns (whole: Shape)
    requires i < |n.statics| && n.statics[i].prefix <= p && Find(n, m, p).Some?
    requires Has(n.statics[i], t, Find(n, m, p).value) && Matches(t, p[|n.statics[i].prefix|..])
    requires Preferred(m, t, Find(n, m, p).value.verb, s, r.verb)
    ensures Has(n, whole, Find(n, m, p).value) && Matches(whole, p)
    ensures Preferred(m, whole, Find(n, m, p).value.verb, Prepend(n.statics[i].prefix, s), r.verb)
  {
    var x := n.statics[i].prefix;
    whole := Prepend(x, t);
    LiftBelow(n, i, t, Find(n, m, p).value);
    MatchesText(x, t, p);
    PrecedesAfter(x, t, s);
    StripPrepend(x, t);
    StripPrepend(x, s);
  }

  /** A hit among the text children is stored under a shape that starts with a character. */
  lemma FindStaticSound(n: Node, m: Verb, p: string) returns (t: Shape)
    requires PrefixFree(n) && Keyed(n) && FindStatic(n, m, p).Some?
    ensures Has(n, t, FindStatic(n, m, p).value) && Matches(t, p) && t.Text?
  {
    var i := FirstPrefix(n.statics, p);
    t := FindSound(n.statics[i], m, p[|n.statics[i].prefix|..]);
    LiftBelow(n, i, t, FindStatic(n, m, p).value);
    MatchesText(n.statics[i].prefix, t, p);
    t := Prepend(n.statics[i].prefix, t);
  }

  lemma HasText(n: Node, s: Shape, r: Route) returns (i: nat)
    requires Has(n, s, r) && s.Text?
    ensures i < |n.statics| && HasBelow(n.statics[i], s, r)
  {
    i :| 0 <= i < |n.statics| && HasBelow(n.statics[i], s, r);
  }

  /** Text children store only shapes that start with text. */
  lemma HasParam(n: Node, s: Shape, r: Route)
    requires PrefixFree(n) && Has(n, s, r) && s.Par?
    ensures n.param.Some? && Has(n.param.value, s.rest, r)
  {
    assert forall i | 0 <= i < |n.statics| :: !HasBelow(n.statics[i], s, r);
  }

  lemma HasTable(n: Node, s: Shape, r: Route)
    requires PrefixFree(n) && Has(n, s, r) && (s.End? || s.Wild?)
    ensures InTable(if s.End? then n.routes else n.wildcard, r)
  {
    assert forall i | 0 <= i < |n.statics| :: !HasBelow(n.statics[i], s, r);
  }

  // ---------------------------------------------------------------- duplicate detection

  ghost predicate Taken(n: Node, s: Shape, v: Verb) {
    exists q: Route :: q.verb == v && Has(n, s, q)
  }

  /** An insert is rejected exactly when a route of the same shape and verb is stored. */
  lemma {:induction false} RejectedIffTaken(n: Node, r: Route, rest: seq<Token>)
    requires PrefixFree(n) && Keyed(n) && Placeable(rest)
    ensures !Insert(n, r, rest).ok <==> Taken(n, ShapeOf(rest), r.verb)
    decreases |rest|, 0, n
  {
    if rest != [] && rest[0].kind == Static {
      RejectedTextIffTaken(n, r, rest[0].value, rest[1..]);
    } else if rest != [] && rest[0].kind == Param {
      if n.param.Some? { RejectedIffTaken(n.param.value, r, rest[1..]); } else { RoomToInsert(Leaf(""), r, rest[1..]); }
      TakenBelowParam(n, ShapeOf(rest), r.verb);
    } else {
      TakenInTable(n, ShapeOf(rest), r.verb);
    }
  }

  lemma TakenInTable(n: Node, s: Shape, v: Verb)
    requires PrefixFree(n) && Keyed(n) && (s.End? || s.Wild?)
    ensures Taken(n, s, v) <==> v in (if s.End? then n.routes else n.wildcard)
  {
    var t := if s.End? then n.routes else n.wildcard;
    if v in t { assert Has(n, s, t[v]); }
    if q: Route :| q.verb == v && Has(n, s, q) { HasTable(n, s, q); }
  }

  lemma TakenBelowParam(n: Node, s: Shape, v: Verb)
    requires PrefixFree(n) && s.Par?
    ensures Taken(n, s, v) <==> n.param.Some? && Taken(n.param.value, s.rest, v)
  {
    if q: Route :| q.verb == v && Has(n, s, q) { HasParam(n, s, q); }
    if n.param.Some? {
      if q: Route :| q.verb == v && Has(n.param.value, s.rest, q) { assert Has(n, s, q); }
    }
  }

  lemma {:induction false} RejectedTextIffTaken(n: Node, r: Route, text: string, rest: seq<Token>)
    requires PrefixFree(n) && Keyed(n) && Placeable(rest) && (rest != [] ==> rest[0].kind != Static)
    ensures !InsertStatic(n, r, text, rest).ok <==> Taken(n, Prepend(text, ShapeOf(rest)), r.verb)
    decreases |rest|, 1, n
  {
    if text == "" {
      RejectedIffTaken(n, r, rest);
    } else {
      var i, j := FirstPrefix(n.statics, text), FirstExtension(n.statics, text);
      if i < |n.statics| {
        RejectedTextIffTaken(n.statics[i], r, text[|n.statics[i].prefix|..], rest);
        TakenBelow(n, i, text, rest, r.verb);
      } else {
        RoomToInsert(if j < |n.statics| then Split(n.statics[j], text) else Leaf(text), r, rest);
        forall q: Route ensures !Has(n, Prepend(text, ShapeOf(rest)), q) { NotBeside(n, text, rest, q); }
      }
    }
  }

  lemma TakenBelow(n: Node, i: nat, text: string, rest: seq<Token>, v: Verb)
    requires PrefixFree(n) && text != "" && (rest != [] ==> rest[0].kind != Static)
    requires i < |n.statics| && n.statics[i].prefix <= text
    ensures Taken(n, Prepend(text, ShapeOf(rest)), v)
       <==> Taken(n.statics[i], Prepend(text[|n.statics[i].prefix|..], ShapeOf(rest)), v)
  {
    var s, c := Prepend(text, ShapeOf(rest)), n.statics[i];
    var tail := text[|c.prefix|..];
    assert text == c.prefix + tail;
    PrependConcat(c.prefix, tail, ShapeOf(rest));
    StripPrepend(c.prefix, Prepend(tail, ShapeOf(rest)));
    forall q: Route ensures Has(n, s, q) <==> HasBelow(c, s, q) {
      if Has(n, s, q) {
        var k := TextChild(n, text, rest, q);
        OnlySibling(n.statics, i, text);
        OnlySibling(n.statics, k, text);
      }
    }
  }

  /** A route stored under text followed by something else lies below a child whose prefix starts
      that text. */
  lemma TextChild(n: Node, text: string, rest: seq<Token>, q: Route) returns (k: nat)
    requires PrefixFree(n) && text != "" && (rest != [] ==> rest[0].kind != Static)
    requires Has(n, Prepend(text, ShapeOf(rest)), q)
    ensures k < |n.statics| && n.statics[k].prefix <= text && HasBelow(n.statics[k], Prepend(text, ShapeOf(rest)), q)
  {
    k := HasText(n, Prepend(text, ShapeOf(rest)), q);
    StripWithin(n.statics[k].prefix, text, ShapeOf(rest));
  }

  lemma {:induction false} StripWithin(x: string, text: string, s: Shape)
    requires !s.Text? && Strip(x, Prepend(text, s)).Some?
    ensures x <= text
  {
    if x == "" {
    } else {
      StripWithin(x[1..], text[1..], s);
      assert x == [x[0]] + x[1..] && text == [text[0]] + text[1..];
    }
  }

  lemma NotBeside(n: Node, text: string, rest: seq<Token>, q: Route)
    requires PrefixFree(n) && text != "" && (rest != [] ==> rest[0].kind != Static)
    requires FirstPrefix(n.statics, text) == |n.statics|
    ensures !Has(n, Prepend(text, ShapeOf(rest)), q)
  {
    if Has(n, Prepend(text, ShapeOf(rest)), q) { var k := TextChild(n, text, rest, q); }
  }
}
