/** Runs of registrations alone, safe or not: which stored routes a lookup can still reach, that every
    lookup is the plain search over those, and exactly when that is the plain search over all. */
module RouterReach {
  import opened Wrappers
  import opened PathTokens
  import opened RouteShape
  import opened RouterTree
  import opened RouterEntries
  import opened RouterSearch
  import opened RouterSplit
  import opened RouterRuns

  // ---------------------------------------------------------------- the part of a tree in reach

  /** An earlier sibling's text starts sibling `k`'s: a lookup never gets there. */
  predicate Behind(ns: seq<Node>, k: nat)
    requires k < |ns|
  {
    exists i | 0 <= i < k :: ns[i].prefix <= ns[k].prefix
  }

  /** The tree without the siblings that stand behind another. */
  function Pruned(n: Node): (r: Node)
    ensures r.prefix == n.prefix && r.routes == n.routes && r.wildcard == n.wildcard
    ensures r.param.Some? <==> n.param.Some?
    decreases n, 1, 0
  {
    n.(statics := Kept(n, |n.statics|), param := if n.param.Some? then Some(Pruned(n.param.value)) else None)
  }

  function Kept(n: Node, k: nat): seq<Node>
    requires k <= |n.statics|
    decreases n, 0, k
  {
    if k == 0 then []
    else Kept(n, k - 1) + if Behind(n.statics, k - 1) then [] else [Pruned(n.statics[k - 1])]
  }

  lemma {:induction false} KeptMember(n: Node, k: nat, j: nat) returns (i: nat)
    requires k <= |n.statics| && j < |Kept(n, k)|
    ensures i < k && !Behind(n.statics, i) && Kept(n, k)[j] == Pruned(n.statics[i])
    decreases k
  {
    if j < |Kept(n, k - 1)| {
      i := KeptMember(n, k - 1, j);
    } else {
      i := k - 1;
    }
  }

  lemma FirstPrefixIs(ns: seq<Node>, p: string, i: nat)
    requires i <= |ns| && (i < |ns| ==> ns[i].prefix <= p) && forall k | 0 <= k < i :: !(ns[k].prefix <= p)
    ensures FirstPrefix(ns, p) == i
  {
  }

  lemma {:induction false} KeptGrows(n: Node, a: nat, b: nat)
    requires a <= b <= |n.statics|
    ensures Kept(n, a) <= Kept(n, b)
    decreases b
  {
    if a == b {
    } else {
      KeptGrows(n, a, b - 1);
    }
  }

  lemma PrefixOfPrefix(a: string, b: string, p: string)
    requires a <= b <= p
    ensures a <= p
  {
  }

  lemma FirstNotBehind(ns: seq<Node>, p: string)
    requires FirstPrefix(ns, p) < |ns|
    ensures !Behind(ns, FirstPrefix(ns, p))
  {
    var i := FirstPrefix(ns, p);
    forall b | 0 <= b < i ensures !(ns[b].prefix <= ns[i].prefix) {
      if ns[b].prefix <= ns[i].prefix { PrefixOfPrefix(ns[b].prefix, ns[i].prefix, p); }
    }
  }

  lemma KeptApart(n: Node, k: nat, p: string)
    requires k <= FirstPrefix(n.statics, p)
    ensures forall j | 0 <= j < |Kept(n, k)| :: !(Kept(n, k)[j].prefix <= p)
  {
    forall j | 0 <= j < |Kept(n, k)| ensures !(Kept(n, k)[j].prefix <= p) {
      var i := KeptMember(n, k, j);
    }
  }

  /** The first sibling that starts a path is never behind another, so pruning keeps it first. */
  lemma KeptFirst(n: Node, p: string)
    ensures
      var i, kept := FirstPrefix(n.statics, p), Kept(n, |n.statics|);
      var j := FirstPrefix(kept, p);
      if i < |n.statics| then j < |kept| && kept[j] == Pruned(n.statics[i]) else j == |kept|
  {
    var i, kept := FirstPrefix(n.statics, p), Kept(n, |n.statics|);
    KeptApart(n, i, p);
    if i < |n.statics| {
      KeptAt(n, p);
      FirstPrefixIs(kept, p, |Kept(n, i)|);
    } else {
      FirstPrefixIs(kept, p, |kept|);
    }
  }

  lemma KeptAt(n: Node, p: string)
    requires FirstPrefix(n.statics, p) < |n.statics|
    ensures
      var i, kept := FirstPrefix(n.statics, p), Kept(n, |n.statics|);
      Kept(n, i) + [Pruned(n.statics[i])] <= kept
  {
    var i := FirstPrefix(n.statics, p);
    FirstNotBehind(n.statics, p);
    KeptGrows(n, i + 1, |n.statics|);
  }

  /** No lookup sees the difference. */
  lemma {:induction false} FindPruned(n: Node, m: Verb, p: string)
    ensures Find(Pruned(n), m, p) == Find(n, m, p)
    decreases n
  {
    if p == "" {
    } else {
      FindPrunedText(n, m, p);
      if n.param.Some? {
        FindPruned(n.param.value, m, AfterSegment(p));
      }
    }
  }

  lemma {:induction false} FindPrunedText(n: Node, m: Verb, p: string)
    ensures FindStatic(Pruned(n), m, p) == FindStatic(n, m, p)
    decreases n, 0
  {
    KeptFirst(n, p);
    var i := FirstPrefix(n.statics, p);
    if i < |n.statics| {
      FindPruned(n.statics[i], m, p[|n.statics[i].prefix|..]);
    }
  }

  lemma {:induction false} PrunedKeyed(n: Node)
    requires Keyed(n)
    ensures Keyed(Pruned(n))
    decreases n
  {
    if n.param.Some? { PrunedKeyed(n.param.value); }
    forall j | 0 <= j < |Pruned(n).statics| ensures Keyed(Pruned(n).statics[j]) {
      var i := KeptMember(n, |n.statics|, j);
      PrunedKeyed(n.statics[i]);
    }
  }

  /** No registration sees it either. */
  lemma {:induction false} InsertPruned(n: Node, r: Route, rest: seq<Token>)
    requires Placeable(rest)
    ensures Insert(Pruned(n), r, rest).ok == Insert(n, r, rest).ok
    decreases |rest|, 0, n
  {
    if rest == [] {
    } else {
      match rest[0].kind
      case Static => InsertTextPruned(n, r, rest[0].value, rest[1..]);
      case Param => if n.param.Some? { InsertPruned(n.param.value, r, rest[1..]); }
      case Wildcard =>
    }
  }

  lemma {:induction false} InsertTextPruned(n: Node, r: Route, text: string, rest: seq<Token>)
    requires Placeable(rest) && (rest != [] ==> rest[0].kind != Static)
    ensures InsertStatic(Pruned(n), r, text, rest).ok == InsertStatic(n, r, text, rest).ok
    decreases |rest|, 1, n
  {
    var i := FirstPrefix(n.statics, text);
    if text == "" {
      InsertPruned(n, r, rest);
    } else if i < |n.statics| {
      KeptFirst(n, text);
      InsertTextPruned(n.statics[i], r, text[|n.statics[i].prefix|..], rest);
    } else {
      KeptFirst(n, text);
      RoomBeside(n, r, text, rest);
      RoomBeside(Pruned(n), r, text, rest);
    }
  }

  /** Where no sibling starts the text, there is room for it. */
  lemma RoomBeside(n: Node, r: Route, text: string, rest: seq<Token>)
    requires text != "" && FirstPrefix(n.statics, text) == |n.statics| && (rest != [] ==> rest[0].kind != Static)
    ensures InsertStatic(n, r, text, rest).ok
  {
    var j := FirstExtension(n.statics, text);
    RoomToInsert(if j < |n.statics| then Split(n.statics[j], text) else Leaf(text), r, rest);
  }

  // ---------------------------------------------------------------- pruning takes copies away

  lemma {:induction false} PrunedCopies(n: Node, s: Shape, r: Route)
    ensures Copies(Pruned(n), s, r) <= Copies(n, s, r)
    decreases n, 1, 0
  {
    CopiesUnfold(n, s, r);
    CopiesUnfold(Pruned(n), s, r);
    if s.Par? && n.param.Some? { PrunedCopies(n.param.value, s.rest, r); }
    KeptCopies(n, |n.statics|, s, r);
    assert n.statics[..|n.statics|] == n.statics;
  }

  lemma {:induction false} PrunedCopiesBelow(c: Node, s: Shape, r: Route)
    ensures CopiesBelow(Pruned(c), s, r) <= CopiesBelow(c, s, r)
    decreases c, 2, 0
  {
    var t := Strip(c.prefix, s);
    if t.Some? { PrunedCopies(c, t.value, r); }
  }

  lemma {:induction false} KeptCopies(n: Node, k: nat, s: Shape, r: Route)
    requires k <= |n.statics|
    ensures Sum(ChildCopies(Kept(n, k), s, r)) <= Sum(ChildCopies(n.statics[..k], s, r))
    decreases n, 0, k
  {
    if k == 0 {
      assert n.statics[..0] == [] && Kept(n, 0) == [];
    } else {
      KeptCopies(n, k - 1, s, r);
      TakeCopies(n.statics, k, s, r);
      KeptStep(n, k, s, r);
      PrunedCopiesBelow(n.statics[k - 1], s, r);
    }
  }

  lemma TakeCopies(ns: seq<Node>, k: nat, s: Shape, r: Route)
    requires 0 < k <= |ns|
    ensures Sum(ChildCopies(ns[..k], s, r)) == Sum(ChildCopies(ns[..k - 1], s, r)) + CopiesBelow(ns[k - 1], s, r)
  {
    assert ns[..k] == ns[..k - 1] + [ns[k - 1]];
    AppendChild(ns[..k - 1], ns[k - 1], s, r);
  }

  lemma KeptStep(n: Node, k: nat, s: Shape, r: Route)
    requires 0 < k <= |n.statics|
    ensures Sum(ChildCopies(Kept(n, k), s, r))
         == Sum(ChildCopies(Kept(n, k - 1), s, r))
          + if Behind(n.statics, k - 1) then 0 else CopiesBelow(Pruned(n.statics[k - 1]), s, r)
  {
    var before, c := Kept(n, k - 1), Pruned(n.statics[k - 1]);
    if Behind(n.statics, k - 1) {
      assert Kept(n, k) == before;
    } else {
      assert Kept(n, k) == before + [c];
      AppendChild(before, c, s, r);
    }
  }

  /** Sibling `j` loses a copy: it is behind another and holds one, or it loses one below. */
  ghost predicate Loses(n: Node, j: nat, s: Shape, r: Route)
    requires j < |n.statics|
  {
    if Behind(n.statics, j) then CopiesBelow(n.statics[j], s, r) > 0
    else CopiesBelow(Pruned(n.statics[j]), s, r) < CopiesBelow(n.statics[j], s, r)
  }

  lemma {:induction false} KeptLess(n: Node, k: nat, j: nat, s: Shape, r: Route)
    requires j < k <= |n.statics| && Loses(n, j, s, r)
    ensures Sum(ChildCopies(Kept(n, k), s, r)) < Sum(ChildCopies(n.statics[..k], s, r))
    decreases k
  {
    if j == k - 1 {
      KeptCopies(n, j, s, r);
    } else {
      KeptLess(n, k - 1, j, s, r);
    }
    KeptGap(n, k, s, r);
  }

  /** Sibling `k - 1` adds no more copies to the kept ones than to all, and fewer when it loses one. */
  lemma KeptGap(n: Node, k: nat, s: Shape, r: Route)
    requires 0 < k <= |n.statics|
    ensures
      var gain := Sum(ChildCopies(Kept(n, k), s, r)) - Sum(ChildCopies(Kept(n, k - 1), s, r));
      var all := Sum(ChildCopies(n.statics[..k], s, r)) - Sum(ChildCopies(n.statics[..k - 1], s, r));
      gain <= all && (Loses(n, k - 1, s, r) ==> gain < all)
  {
    TakeCopies(n.statics, k, s, r);
    KeptStep(n, k, s, r);
    PrunedCopiesBelow(n.statics[k - 1], s, r);
  }

  lemma PrunedLess(n: Node, j: nat, s: Shape, r: Route)
    requires j < |n.statics| && Loses(n, j, s, r)
    ensures Copies(Pruned(n), s, r) < Copies(n, s, r)
  {
    CopiesUnfold(n, s, r);
    CopiesUnfold(Pruned(n), s, r);
    if s.Par? && n.param.Some? { PrunedCopies(n.param.value, s.rest, r); }
    KeptLess(n, |n.statics|, j, s, r);
    assert n.statics[..|n.statics|] == n.statics;
  }

  // ---------------------------------------------------------------- the order registration leaves

  /** No text child is empty, and none is started by a later sibling. */
  ghost predicate Ordered(n: Node)
    decreases n
  {
    && (n.param.Some? ==> Ordered(n.param.value))
    && (forall i | 0 <= i < |n.statics| :: n.statics[i].prefix != "" && Ordered(n.statics[i]))
    && InOrder(n.statics)
  }

  ghost predicate InOrder(ns: seq<Node>) {
    forall i, j | 0 <= i < j < |ns| :: !(ns[j].prefix <= ns[i].prefix)
  }

  lemma InOrderReplace(ns: seq<Node>, i: nat, c: Node)
    requires InOrder(ns) && i < |ns| && c.prefix == ns[i].prefix
    ensures InOrder(ns[i := c])
  {
    assert forall k | 0 <= k < |ns| :: ns[i := c][k].prefix == ns[k].prefix;
  }

  lemma InOrderSplit(ns: seq<Node>, c: Node)
    requires InOrder(ns) && FirstPrefix(ns, c.prefix) == |ns| && FirstExtension(ns, c.prefix) < |ns|
    ensures InOrder(ns[FirstExtension(ns, c.prefix) := c])
  {
    var j := FirstExtension(ns, c.prefix);
    assert forall k | 0 <= k < |ns| && k != j :: ns[j := c][k] == ns[k];
  }

  lemma InOrderAppend(ns: seq<Node>, c: Node)
    requires InOrder(ns) && FirstExtension(ns, c.prefix) == |ns|
    ensures InOrder(ns + [c])
  {
    assert forall k | 0 <= k < |ns| :: (ns + [c])[k] == ns[k];
  }

  lemma OrderedReplace(n: Node, i: nat, c: Node)
    requires Ordered(n) && i < |n.statics| && c.prefix != "" && Ordered(c) && InOrder(n.statics[i := c])
    ensures Ordered(n.(statics := n.statics[i := c]))
  {
    var ms := n.statics[i := c];
    assert forall k | 0 <= k < |ms| && k != i :: ms[k] == n.statics[k];
  }

  lemma OrderedSplit(c: Node, text: string)
    requires Ordered(c) && text < c.prefix
    ensures Ordered(Split(c, text))
  {
    assert Ordered(Split(c, text).statics[0]);
  }

  lemma {:induction false} InsertKeepsOrdered(n: Node, r: Route, rest: seq<Token>)
    requires Ordered(n) && Placeable(rest)
    ensures Ordered(Insert(n, r, rest).node)
    decreases |rest|, 0, n
  {
    if rest == [] {
    } else {
      match rest[0].kind
      case Static => InsertTextKeepsOrdered(n, r, rest[0].value, rest[1..]);
      case Param => InsertKeepsOrdered(if n.param.Some? then n.param.value else Leaf(""), r, rest[1..]);
      case Wildcard =>
    }
  }

  lemma {:induction false} InsertTextKeepsOrdered(n: Node, r: Route, text: string, rest: seq<Token>)
    requires Ordered(n) && Placeable(rest)
    ensures Ordered(InsertStatic(n, r, text, rest).node)
    decreases |rest|, 1, n
  {
    var ns, n' := n.statics, InsertStatic(n, r, text, rest).node;
    var i, j := FirstPrefix(ns, text), FirstExtension(ns, text);
    if text == "" {
      InsertKeepsOrdered(n, r, rest);
    } else if i < |ns| {
      InsertTextKeepsOrdered(ns[i], r, text[|ns[i].prefix|..], rest);
      InsertStaticKeepsPrefix(ns[i], r, text[|ns[i].prefix|..], rest);
      InOrderReplace(ns, i, n'.statics[i]);
      OrderedReplace(n, i, n'.statics[i]);
    } else if j < |ns| {
      OrderedSplit(ns[j], text);
      InsertKeepsOrdered(Split(ns[j], text), r, rest);
      InsertKeepsPrefix(Split(ns[j], text), r, rest);
      InOrderSplit(ns, n'.statics[j]);
      OrderedReplace(n, j, n'.statics[j]);
    } else {
      InsertKeepsOrdered(Leaf(text), r, rest);
      InsertKeepsPrefix(Leaf(text), r, rest);
      InOrderAppend(ns, Insert(Leaf(text), r, rest).node);
      OrderedAppend(n, Insert(Leaf(text), r, rest).node);
    }
  }

  lemma OrderedAppend(n: Node, c: Node)
    requires Ordered(n) && c.prefix != "" && Ordered(c) && InOrder(n.statics + [c])
    ensures Ordered(n.(statics := n.statics + [c]))
  {
    var ms := n.statics + [c];
    assert forall k | 0 <= k < |n.statics| :: ms[k] == n.statics[k];
  }

  // ---------------------------------------------------------------- what is behind stays behind

  /** In an ordered tree siblings overlap only one way. */
  ghost predicate Overlap(ns: seq<Node>, i: nat, j: nat) {
    i < j < |ns| && ns[i].prefix <= ns[j].prefix
  }

  lemma OverlapStays(ns: seq<Node>, i: nat, j: nat, c: Node)
    requires Overlap(ns, i, j) && FirstPrefix(ns, c.prefix) == |ns| && FirstExtension(ns, c.prefix) < |ns|
    ensures Overlap(ns[FirstExtension(ns, c.prefix) := c], i, j)
  {
    var e := FirstExtension(ns, c.prefix);
    if i == e {
      PrefixOfPrefix(c.prefix, ns[i].prefix, ns[j].prefix);
    }
  }

  lemma NotFree(n: Node, i: nat, j: nat)
    requires Overlap(n.statics, i, j)
    ensures !PrefixFree(n)
  {
    assert !SiblingsFree(n.statics);
  }

  lemma ChildNotFree(n: Node, i: nat)
    requires i < |n.statics| && !PrefixFree(n.statics[i])
    ensures !PrefixFree(n)
  {
  }

  /** The ways in which an ordered tree fails to be prefix-free. */
  lemma OrderedNotFree(n: Node) returns (i: nat, j: nat)
    requires Ordered(n) && !PrefixFree(n) && !(n.param.Some? && !PrefixFree(n.param.value))
    ensures Overlap(n.statics, i, j) || (i < |n.statics| && !PrefixFree(n.statics[i]))
  {
    if k :| 0 <= k < |n.statics| && !PrefixFree(n.statics[k]) {
      i, j := k, k;
    } else {
      assert !SiblingsFree(n.statics);
      i, j :| 0 <= i < |n.statics| && 0 <= j < |n.statics| && i != j && n.statics[i].prefix <= n.statics[j].prefix;
    }
  }

  lemma {:induction false} StaysUnfree(n: Node, r: Route, rest: seq<Token>)
    requires Ordered(n) && !PrefixFree(n) && Placeable(rest)
    ensures !PrefixFree(Insert(n, r, rest).node)
    decreases |rest|, 0, n
  {
    if rest == [] {
    } else {
      match rest[0].kind
      case Static => TextStaysUnfree(n, r, rest[0].value, rest[1..]);
      case Param =>
        if n.param.Some? && !PrefixFree(n.param.value) { StaysUnfree(n.param.value, r, rest[1..]); }
      case Wildcard =>
    }
  }

  lemma {:induction false} TextStaysUnfree(n: Node, r: Route, text: string, rest: seq<Token>)
    requires Ordered(n) && !PrefixFree(n) && Placeable(rest) && (rest != [] ==> rest[0].kind != Static)
    ensures !PrefixFree(InsertStatic(n, r, text, rest).node)
    decreases |rest|, 1, n
  {
    var n' := InsertStatic(n, r, text, rest).node;
    if text == "" {
      StaysUnfree(n, r, rest);
    } else if n.param.Some? && !PrefixFree(n.param.value) {
      assert n'.param == n.param;
    } else {
      var i, j := OrderedNotFree(n);
      if Overlap(n.statics, i, j) {
        OverlapAfterInsert(n, r, text, rest, i, j);
      } else {
        UnfreeChildAfterInsert(n, r, text, rest, i);
      }
    }
  }

  lemma OverlapAfterInsert(n: Node, r: Route, text: string, rest: seq<Token>, i: nat, j: nat)
    requires text != "" && Overlap(n.statics, i, j)
    ensures !PrefixFree(InsertStatic(n, r, text, rest).node)
  {
    var ns, n' := n.statics, InsertStatic(n, r, text, rest).node;
    var f, e := FirstPrefix(ns, text), FirstExtension(ns, text);
    if f < |ns| {
      InsertStaticKeepsPrefix(ns[f], r, text[|ns[f].prefix|..], rest);
    } else if e < |ns| {
      InsertKeepsPrefix(Split(ns[e], text), r, rest);
      OverlapStays(ns, i, j, n'.statics[e]);
    }
    NotFree(n', i, j);
  }

  lemma {:induction false} UnfreeChildAfterInsert(n: Node, r: Route, text: string, rest: seq<Token>, i: nat)
    requires text != "" && Ordered(n) && i < |n.statics| && !PrefixFree(n.statics[i])
    requires Placeable(rest) && (rest != [] ==> rest[0].kind != Static)
    ensures !PrefixFree(InsertStatic(n, r, text, rest).node)
    decreases |rest|, 1, n, 0
  {
    var ns, n' := n.statics, InsertStatic(n, r, text, rest).node;
    var f, e := FirstPrefix(ns, text), FirstExtension(ns, text);
    if f < |ns| {
      if f == i { TextStaysUnfree(ns[i], r, text[|ns[i].prefix|..], rest); }
    } else if e == i {
      OrderedSplit(ns[i], text);
      SplitNotFree(ns[i], text);
      SplitStaysUnfree(Split(ns[i], text), r, rest);
    }
    ChildNotFree(n', i);
  }

  lemma SplitNotFree(c: Node, text: string)
    requires text <= c.prefix && !PrefixFree(c)
    ensures !PrefixFree(Split(c, text).statics[0])
  {
  }

  lemma SplitStaysUnfree(n: Node, r: Route, rest: seq<Token>)
    requires n.statics != [] && !PrefixFree(n.statics[0]) && (rest != [] ==> rest[0].kind != Static)
    ensures !PrefixFree(Insert(n, r, rest).node)
  {
    InsertKeepsChildren(n, r, rest);
    ChildNotFree(Insert(n, r, rest).node, 0);
  }

  // ---------------------------------------------------------------- pruning an ordered tree

  lemma {:induction false} PrunedPrefixFree(n: Node)
    requires Ordered(n)
    ensures PrefixFree(Pruned(n))
    decreases n
  {
    if n.param.Some? { PrunedPrefixFree(n.param.value); }
    KeptFree(n, |n.statics|);
    forall j | 0 <= j < |Pruned(n).statics|
      ensures Pruned(n).statics[j].prefix != "" && PrefixFree(Pruned(n).statics[j])
    {
      var i := KeptMember(n, |n.statics|, j);
      PrunedPrefixFree(n.statics[i]);
    }
  }

  lemma {:induction false} KeptFree(n: Node, k: nat)
    requires InOrder(n.statics) && k <= |n.statics|
    ensures SiblingsFree(Kept(n, k))
    decreases k
  {
    if k == 0 {
      assert Kept(n, 0) == [];
    } else {
      KeptFree(n, k - 1);
      var c := n.statics[k - 1];
      if !Behind(n.statics, k - 1) {
        var before := Kept(n, k - 1);
        forall j | 0 <= j < |before| ensures !(before[j].prefix <= c.prefix) && !(c.prefix <= before[j].prefix) {
          var i := KeptMember(n, k - 1, j);
        }
        FreeAppend(before, Pruned(c));
      } else {
        assert Kept(n, k) == Kept(n, k - 1);
      }
    }
  }

  lemma FreeAppend(ns: seq<Node>, c: Node)
    requires SiblingsFree(ns) && forall j | 0 <= j < |ns| :: !(ns[j].prefix <= c.prefix) && !(c.prefix <= ns[j].prefix)
    ensures SiblingsFree(ns + [c])
  {
    assert forall j | 0 <= j < |ns| :: (ns + [c])[j] == ns[j];
  }

  lemma {:induction false} PrunedSame(n: Node)
    requires PrefixFree(n)
    ensures Pruned(n) == n
    decreases n
  {
    if n.param.Some? { PrunedSame(n.param.value); }
    KeptSame(n, |n.statics|);
    assert n.statics[..|n.statics|] == n.statics;
  }

  lemma {:induction false} KeptSame(n: Node, k: nat)
    requires PrefixFree(n) && k <= |n.statics|
    ensures Kept(n, k) == n.statics[..k]
    decreases n, 0, k
  {
    if k == 0 {
      assert n.statics[..0] == [];
    } else {
      KeptSame(n, k - 1);
      PrunedSame(n.statics[k - 1]);
      assert n.statics[..k] == n.statics[..k - 1] + [n.statics[k - 1]];
    }
  }

  /** A tree that is not prefix-free loses some route's copy to pruning. */
  lemma {:induction false} SomethingHidden(n: Node) returns (s: Shape, q: Route)
    requires Ordered(n) && Populated(n) && Keyed(n) && !PrefixFree(n)
    ensures Copies(Pruned(n), s, q) < Copies(n, s, q)
    decreases n
  {
    if n.param.Some? && !PrefixFree(n.param.value) {
      s, q := SomethingHidden(n.param.value);
      ParamHidden(n, s, q);
      s := Par(s);
    } else {
      var i, j := OrderedNotFree(n);
      if Overlap(n.statics, i, j) {
        s, q := Inhabitant(n.statics[j]);
        HasIffCopies(n.statics[j], s, q);
        CopiesPrepend(n.statics[j], s, q);
        s := Prepend(n.statics[j].prefix, s);
        assert Behind(n.statics, j);
        PrunedLess(n, j, s, q);
      } else {
        s, q := SomethingHidden(n.statics[i]);
        CopiesPrepend(n.statics[i], s, q);
        CopiesPrepend(Pruned(n.statics[i]), s, q);
        s := Prepend(n.statics[i].prefix, s);
        PrunedLess(n, i, s, q);
      }
    }
  }

  lemma CopiesPrepend(c: Node, s: Shape, q: Route)
    ensures CopiesBelow(c, Prepend(c.prefix, s), q) == Copies(c, s, q)
  {
    StripPrepend(c.prefix, s);
  }

  lemma ParamHidden(n: Node, s: Shape, q: Route)
    requires n.param.Some? && Copies(Pruned(n.param.value), s, q) < Copies(n.param.value, s, q)
    ensures Copies(Pruned(n), Par(s), q) < Copies(n, Par(s), q)
  {
    CopiesUnfold(n, Par(s), q);
    CopiesUnfold(Pruned(n), Par(s), q);
    KeptCopies(n, |n.statics|, Par(s), q);
    assert n.statics[..|n.statics|] == n.statics;
  }

  // ---------------------------------------------------------------- runs of registrations

  predicate OnlyRegisters(ops: seq<Op>) {
    forall i | 0 <= i < |ops| :: ops[i].Register?
  }

  lemma {:induction false} RunOrdered(ops: seq<Op>)
    requires OnlyRegisters(ops) && Parsed(ops)
    ensures Ordered(Run(ops)) && Populated(Run(ops))
  {
    if ops == [] {
    } else {
      var k := |ops| - 1;
      RunOrdered(ops[..k]);
      ChainedPlaceable(ops[k].route.tokens);
      InsertKeepsOrdered(Run(ops[..k]), ops[k].route, ops[k].route.tokens);
      InsertKeepsPopulated(Run(ops[..k]), ops[k].route, ops[k].route.tokens);
    }
  }

  /** A run of registrations is safe exactly when the tree it leaves is prefix-free. */
  lemma {:induction false} SafeIffPrefixFree(ops: seq<Op>)
    requires OnlyRegisters(ops) && Parsed(ops)
    ensures Safe(ops) <==> PrefixFree(Run(ops))
  {
    if ops == [] {
      SafeRunPrefixFree(ops);
    } else {
      var k := |ops| - 1;
      var r := ops[k].route;
      SafeIffPrefixFree(ops[..k]);
      SafeSnoc(ops);
      RunOrdered(ops[..k]);
      ChainedPlaceable(r.tokens);
      if PrefixFree(Run(ops[..k])) {
        PrefixFreeIffSplitSafe(Run(ops[..k]), r, r.tokens);
      } else {
        StaysUnfree(Run(ops[..k]), r, r.tokens);
      }
    }
  }

  lemma SafeSnoc(ops: seq<Op>)
    requires ops != [] && Parsed(ops) && ops[|ops| - 1].Register?
    ensures Safe(ops) <==>
      Safe(ops[..|ops| - 1]) && SplitSafe(Run(ops[..|ops| - 1]), ops[|ops| - 1].route.tokens)
  {
    var k := |ops| - 1;
    if Safe(ops) {
      SafePrefix(ops, k);
      assert ops[k].Register?;
    }
    if Safe(ops[..k]) && SplitSafe(Run(ops[..k]), ops[k].route.tokens) { SafeExtends(ops); }
  }

  lemma SafeExtends(ops: seq<Op>)
    requires ops != [] && Safe(ops[..|ops| - 1]) && ops[|ops| - 1].Register?
    requires SplitSafe(Run(ops[..|ops| - 1]), ops[|ops| - 1].route.tokens)
    ensures Safe(ops)
  {
    var before := ops[..|ops| - 1];
    forall i {:trigger ops[i]} | 0 <= i < |ops| && ops[i].Register?
      ensures SplitSafe(Run(ops[..i]), ops[i].route.tokens)
    {
      if i < |before| {
        assert before[i] == ops[i] && before[..i] == ops[..i];
      }
    }
  }

  ghost function Everything(ops: seq<Op>): set<Route> {
    set i | 0 <= i < |ops| && ops[i].Register? :: ops[i].route
  }

  /** The registered routes that lookups can reach. */
  ghost function Reached(ops: seq<Op>): set<Route> {
    set r | r in Everything(ops) && Has(Pruned(Run(ops)), ShapeOf(r.tokens), r)
  }

  lemma ReachedRepresented(ops: seq<Op>)
    ensures Represents(Pruned(Run(ops)), Reached(ops))
  {
    var n := Run(ops);
    forall s, r ensures Has(Pruned(n), s, r) <==> r in Reached(ops) && s == ShapeOf(r.tokens) {
      if Has(Pruned(n), s, r) {
        HasIffCopies(Pruned(n), s, r);
        PrunedCopies(n, s, r);
        RunConserves(ops, s, r);
        AcceptedWasRegistered(ops, r);
        var i :| 0 <= i < |ops| && ops[i] == Register(r);
      }
    }
  }

  /** Any run of registrations, safe or not: a lookup is the plain search over the routes in reach. */
  lemma ReachedAnswers(ops: seq<Op>, m: Verb, p: string)
    requires OnlyRegisters(ops) && Parsed(ops)
    ensures IsAnswer(Reached(ops), m, p, Find(Run(ops), m, p))
  {
    RunOrdered(ops);
    PrunedPrefixFree(Run(ops));
    RunKeyed(ops);
    PrunedKeyed(Run(ops));
    ReachedRepresented(ops);
    FindIsAnswer(Pruned(Run(ops)), Reached(ops), m, p);
    FindPruned(Run(ops), m, p);
  }

  /** Any run of registrations, safe or not: a route is refused exactly when a route in reach has its verb
      and shape. A route out of reach can be registered again. */
  lemma RejectedIffReached(ops: seq<Op>, r: Route)
    requires OnlyRegisters(ops) && Parsed(ops) && WellFormed(r.tokens)
    ensures !Insert(Run(ops), r, r.tokens).ok <==> exists q | q in Reached(ops) :: SameKey(q, r)
  {
    var n := Pruned(Run(ops));
    RunOrdered(ops);
    PrunedPrefixFree(Run(ops));
    RunKeyed(ops);
    PrunedKeyed(Run(ops));
    ReachedRepresented(ops);
    ChainedPlaceable(r.tokens);
    InsertPruned(Run(ops), r, r.tokens);
    RejectedIffTaken(n, r, r.tokens);
    if q :| q in Reached(ops) && SameKey(q, r) { assert Has(n, ShapeOf(r.tokens), q); }
  }

  // ---------------------------------------------------------------- the exact condition

  predicate Better(a: Route, b: Route, m: Verb) {
    Preferred(m, ShapeOf(a.tokens), a.verb, ShapeOf(b.tokens), b.verb)
  }

  /** Wherever a route out of reach would fit, one in reach fits and is at least as preferred. */
  ghost predicate Covered(ops: seq<Op>) {
    forall q, m, p | q in Everything(ops) && q !in Reached(ops) && Candidate(q, m, p) ::
      CoveredBy(Reached(ops), q, m, p)
  }

  ghost predicate CoveredBy(seen: set<Route>, q: Route, m: Verb, p: string) {
    exists r | r in seen :: Candidate(r, m, p) && Better(r, q, m)
  }

  lemma {:induction false} PrecedesTransitive(a: Shape, b: Shape, c: Shape)
    requires Precedes(a, b) && Precedes(b, c)
    ensures Precedes(a, c)
  {
    match (a, b, c)
    case (Text(_, x), Text(_, y), Text(_, z)) => PrecedesTransitive(x, y, z);
    case (Par(x), Par(y), Par(z)) => PrecedesTransitive(x, y, z);
    case _ =>
  }

  lemma BetterTransitive(a: Route, b: Route, c: Route, m: Verb)
    requires Better(a, b, m) && Better(b, c, m) && Serves(a, m) && Serves(b, m) && Serves(c, m)
    ensures Better(a, c, m)
  {
    var s, t, u := ShapeOf(a.tokens), ShapeOf(b.tokens), ShapeOf(c.tokens);
    if s != t && t != u {
      PrecedesTransitive(s, t, u);
      if s == u { PrecedesAntisymmetric(s, t); }
    }
  }

  /** Every lookup after a run of registrations is right if and only if the routes out of reach are covered. */
  lemma FaithfulIffCovered(ops: seq<Op>)
    requires OnlyRegisters(ops) && Parsed(ops)
    ensures Faithful(Run(ops), Everything(ops)) <==> Covered(ops)
  {
    if Faithful(Run(ops), Everything(ops)) {
      forall q, m, p | q in Everything(ops) && q !in Reached(ops) && Candidate(q, m, p)
        ensures CoveredBy(Reached(ops), q, m, p)
      {
        ReachedAnswers(ops, m, p);
        assert IsAnswer(Everything(ops), m, p, Find(Run(ops), m, p));
        assert Better(Find(Run(ops), m, p).value, q, m);
      }
    }
    if Covered(ops) {
      forall m, p ensures IsAnswer(Everything(ops), m, p, Find(Run(ops), m, p)) {
        ReachedAnswers(ops, m, p);
        CoveredAnswer(Reached(ops), Everything(ops), m, p, Find(Run(ops), m, p));
      }
    }
  }

  /** Searching some of the routes is searching all, if those left out are covered. */
  lemma CoveredAnswer(seen: set<Route>, all: set<Route>, m: Verb, p: string, a: Option<Route>)
    requires seen <= all && IsAnswer(seen, m, p, a)
    requires forall q | q in all && q !in seen && Candidate(q, m, p) :: CoveredBy(seen, q, m, p)
    ensures IsAnswer(all, m, p, a)
  {
    forall q | q in all && Candidate(q, m, p) ensures a.Some? && Better(a.value, q, m) {
      if q !in seen {
        assert CoveredBy(seen, q, m, p);
        var r :| r in seen && Candidate(r, m, p) && Better(r, q, m);
        assert Better(a.value, r, m);
        BetterTransitive(a.value, r, q, m);
      }
    }
  }

  lemma {:induction false} RegisteredEverything(ops: seq<Op>)
    requires NoCollision(ops)
    ensures Registered(ops) == Everything(ops)
  {
    if ops == [] {
    } else {
      var k := |ops| - 1;
      var before := ops[..k];
      assert NoCollision(before);
      RegisteredEverything(before);
      EverythingSnoc(ops);
      if ops[k].Register? {
        forall q | q in Everything(before) ensures !SameKey(q, ops[k].route) {
          var i :| 0 <= i < k && before[i].Register? && before[i].route == q;
          assert ops[i] == before[i];
        }
      }
    }
  }

  lemma EverythingSnoc(ops: seq<Op>)
    requires ops != []
    ensures
      var k := |ops| - 1;
      Everything(ops) == Everything(ops[..k]) + if ops[k].Register? then {ops[k].route} else {}
  {
    var k := |ops| - 1;
    forall r | r in Everything(ops)
      ensures r in Everything(ops[..k]) + if ops[k].Register? then {ops[k].route} else {}
    {
      var i :| 0 <= i < |ops| && ops[i].Register? && ops[i].route == r;
      if i < k { assert ops[..k][i] == ops[i]; }
    }
    forall r | r in Everything(ops[..k]) ensures r in Everything(ops) {
      var i :| 0 <= i < k && ops[..k][i].Register? && ops[..k][i].route == r;
      assert ops[i] == ops[..k][i];
    }
  }

  /** In a collision-free run no route is accepted twice. */
  lemma {:induction false} AcceptedOnce(ops: seq<Op>, q: Route)
    requires NoCollision(ops)
    ensures Accepted(ops, q) <= 1
  {
    if ops == [] {
    } else {
      var k := |ops| - 1;
      assert NoCollision(ops[..k]);
      AcceptedOnce(ops[..k], q);
      if ops[k] == Register(q) {
        forall i | 0 <= i < k ensures ops[..k][i] != Register(q) { assert ops[..k][i] == ops[i]; }
        if Accepted(ops[..k], q) > 0 { AcceptedWasRegistered(ops[..k], q); }
      }
    }
  }

  /** A collision-free run of registrations is safe exactly when every route stays in reach. */
  lemma SafeIffAllReached(ops: seq<Op>)
    requires OnlyRegisters(ops) && Parsed(ops) && NoCollision(ops)
    ensures Safe(ops) <==> Reached(ops) == Everything(ops)
  {
    SafeIffPrefixFree(ops);
    if Safe(ops) {
      PrunedSame(Run(ops));
      SafeRunRepresents(ops);
      RegisteredEverything(ops);
    } else {
      RunOrdered(ops);
      RunKeyed(ops);
      var s, q := SomethingHidden(Run(ops));
      RunConserves(ops, s, q);
      AcceptedOnce(ops, q);
      HasIffCopies(Pruned(Run(ops)), s, q);
      AcceptedWasRegistered(ops, q);
      var i :| 0 <= i < |ops| && ops[i] == Register(q);
      assert q in Everything(ops) && q !in Reached(ops);
    }
  }

  // ---------------------------------------------------------------- what can be covered at all

  predicate EndsInWildcard(s: Shape) {
    match s
    case End => false
    case Text(_, rest) => EndsInWildcard(rest)
    case Par(rest) => EndsInWildcard(rest)
    case Wild => true
  }

  /** On its own instance a shape without wildcard comes before every other that matches. */
  lemma {:induction false} InstanceBest(s: Shape, t: Shape)
    requires ShapeOk(s) && ShapeOk(t) && !EndsInWildcard(s) && Matches(t, Instance(s))
    ensures Precedes(s, t)
  {
    match s
    case End =>
    case Text(c, rest) =>
      assert Instance(s)[1..] == Instance(rest);
      if t.Text? { InstanceBest(rest, t.rest); }
    case Par(rest) =>
      SegmentOfSpace(Instance(rest));
      if t.Par? { InstanceBest(rest, t.rest); }
  }

  /** Only a route that ends in a wildcard can be out of reach and covered. */
  lemma HiddenEndsInWildcard(ops: seq<Op>, q: Route)
    requires Parsed(ops) && NoCollision(ops) && Covered(ops) && q in Everything(ops) && q !in Reached(ops)
    ensures EndsInWildcard(ShapeOf(q.tokens))
  {
    var s := ShapeOf(q.tokens);
    EverythingParsed(ops, q);
    ParsedShapeOk(q.tokens);
    if !EndsInWildcard(s) {
      InstanceMatches(s);
      assert Candidate(q, q.verb, Instance(s));
      assert CoveredBy(Reached(ops), q, q.verb, Instance(s));
      var r :| r in Reached(ops) && Candidate(r, q.verb, Instance(s)) && Better(r, q, q.verb);
      EverythingParsed(ops, r);
      ParsedShapeOk(r.tokens);
      InstanceBest(s, ShapeOf(r.tokens));
      if ShapeOf(r.tokens) != s { PrecedesAntisymmetric(s, ShapeOf(r.tokens)); }
      EverythingApart(ops, q, r);
    }
  }

  lemma EverythingParsed(ops: seq<Op>, q: Route)
    requires Parsed(ops) && q in Everything(ops)
    ensures WellFormed(q.tokens)
  {
    var i :| 0 <= i < |ops| && ops[i].Register? && ops[i].route == q;
  }

  lemma EverythingApart(ops: seq<Op>, q: Route, r: Route)
    requires NoCollision(ops) && q in Everything(ops) && r in Everything(ops) && SameKey(q, r)
    ensures q == r
  {
    var i :| 0 <= i < |ops| && ops[i].Register? && ops[i].route == q;
    var j :| 0 <= j < |ops| && ops[j].Register? && ops[j].route == r;
  }

  /** So without wildcards the lookups of a collision-free run are right if and only if it was safe. */
  lemma FaithfulIffSafe(ops: seq<Op>)
    requires OnlyRegisters(ops) && Parsed(ops) && NoCollision(ops)
    requires forall q | q in Everything(ops) :: !EndsInWildcard(ShapeOf(q.tokens))
    ensures Faithful(Run(ops), Everything(ops)) <==> Safe(ops)
  {
    FaithfulIffCovered(ops);
    SafeIffAllReached(ops);
    if Covered(ops) && !Safe(ops) {
      var q :| q in Everything(ops) && q !in Reached(ops);
      HiddenEndsInWildcard(ops, q);
    }
  }

  /** What a caller can check: two safe, collision-free runs that register the same routes, in whatever
      order and with whatever reorderings between, answer every lookup alike. */
  lemma SameRoutesSameAnswers(a: seq<Op>, b: seq<Op>, m: Verb, p: string)
    requires Parsed(a) && Safe(a) && NoCollision(a) && Parsed(b) && Safe(b) && NoCollision(b)
    requires forall r :: Register(r) in a <==> Register(r) in b
    ensures Find(Run(a), m, p) == Find(Run(b), m, p)
  {
    RegisteredEverything(a);
    RegisteredEverything(b);
    EverythingMember(a);
    EverythingMember(b);
    assert Everything(a) == Everything(b);
    OrderIndependent(a, b, m, p);
  }

  lemma EverythingMember(ops: seq<Op>)
    ensures forall r :: r in Everything(ops) <==> Register(r) in ops
  {
    forall r ensures r in Everything(ops) <==> Register(r) in ops {
      if r in Everything(ops) {
        var i :| 0 <= i < |ops| && ops[i].Register? && ops[i].route == r;
      }
      if Register(r) in ops {
        var i :| 0 <= i < |ops| && ops[i] == Register(r);
        assert ops[i].route == r;
      }
    }
  }
}
