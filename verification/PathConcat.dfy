/** Concatenated patterns, as when a route is bound to its scope: the tokens of the concatenation are
    the scope's tokens followed by the route's with adjoining texts fused, exactly when that list is
    well formed, and otherwise the concatenation is refused. */
module PathConcat {
  import opened Basics
  import opened Wrappers
  import opened PathTokens
  import opened PathGrammar

  /** `a` followed by `b`, the text at the seam fused into one token. */
  function Fuse(a: seq<Token>, b: seq<Token>): seq<Token> {
    if b == [] then a else FuseFirst(a, b[0]) + b[1..]
  }

  function FuseFirst(a: seq<Token>, first: Token): seq<Token> {
    if a == [] || a[|a| - 1].kind != Static then a + [first]
    else a[..|a| - 1] + [Token(Static, a[|a| - 1].value + first.value)]
  }

  // ---------------------------------------------------------------- tokens behind a changed left end

  /** The tokens stand where the grammar allows them, names apart. */
  predicate Adjacent(left: seq<Token>, b: seq<Token>)
    decreases |b|
  {
    b == [] || (TokenOk(b[0]) && FollowsOk(left, b[0]) && Adjacent(left + [b[0]], b[1..]))
  }

  /** What a following token can see of a list. */
  predicate SameEnd(x: Token, y: Token) {
    x.kind == y.kind && (EndsWithSlash(x.value) <==> EndsWithSlash(y.value))
  }

  lemma {:induction false} AdjacentBehind(left: seq<Token>, b: seq<Token>, i: nat)
    requires Chained(b) && 0 < i <= |b| && left != [] && SameEnd(left[|left| - 1], b[i - 1])
    ensures Adjacent(left, b[i..])
    decreases |b| - i
  {
    if i == |b| {
    } else {
      ChainedAt(b, i);
      assert b[..i][|b[..i]| - 1] == b[i - 1];
      AdjacentBehind(left + [b[i]], b, i + 1);
      assert b[i..][1..] == b[i + 1..];
    }
  }

  lemma {:induction false} ChainedPrefix(ts: seq<Token>, more: seq<Token>)
    requires Chained(ts + more)
    ensures Chained(ts)
    decreases |more|
  {
    if more == [] {
      assert ts + more == ts;
    } else {
      LastApart(ts, more);
      var whole := ts + more;
      assert whole[..|whole| - 1] == ts + more[..|more| - 1];
      ChainedPrefix(ts, more[..|more| - 1]);
    }
  }

  lemma LastLink(left: seq<Token>, t: Token)
    requires Chained(left + [t])
    ensures LinkOk(left, t)
  {
    assert (left + [t])[..|left|] == left;
  }

  lemma PrintFirst(b: seq<Token>)
    requires b != []
    ensures Print(b) == PrintToken(b[0]) + Print(b[1..])
  {
    PrintConcat([b[0]], b[1..]);
    PrintLast([], b[0]);
    HeadTail(b);
    assert [] + [b[0]] == [b[0]] && Print([]) + PrintToken(b[0]) == PrintToken(b[0]);
  }

  lemma Regroup<T>(left: seq<T>, b: seq<T>)
    requires b != []
    ensures (left + [b[0]]) + b[1..] == left + b
  {
  }

  /** Reading tokens that stand where they may behind `left` fails exactly on a repeated name. */
  lemma {:induction false} ScanRest(wildcard: bool, left: seq<Token>, b: seq<Token>)
    requires left != [] && Chained(left) && Adjacent(left, b) && (wildcard || !HasWildcard(b))
    requires b != [] && b[|b| - 1].kind == Static ==> b[|b| - 1].value != ""
    requires b == [] && left[|left| - 1].kind == Static ==> left[|left| - 1].value != ""
    ensures Scan(wildcard, After(left), Print(b)) == if Chained(left + b) then Some(left + b) else None
    decreases |b|
  {
    if b == [] {
      assert left + b == left;
      FinishAfter(left);
    } else {
      var t, more := b[0], b[1..];
      PrintFirst(b);
      Regroup(left, b);
      assert t in b;
      if more != [] { SeamAfter(left, b); }
      if LinkOk(left, t) {
        ChainedAppend(left, t);
        ScanToken(wildcard, left, t, Print(more));
        assert forall u | u in more :: u in b;
        ScanRest(wildcard, left + [t], more);
      } else {
        RepeatedName(wildcard, left, t, Print(more));
        if Chained(left + b) {
          ChainedPrefix(left + [t], more);
          LastLink(left, t);
        }
      }
    }
  }

  /** Behind a parameter the next text starts with a slash; behind a wildcard nothing stands. */
  lemma SeamAfter(left: seq<Token>, b: seq<Token>)
    requires |b| > 1 && Adjacent(left, b)
    ensures b[0].kind != Wildcard
    ensures b[0].kind == Param ==> Print(b[1..]) != "" && Print(b[1..])[0] == '/'
  {
    PrintFirst(b[1..]);
    assert FollowsOk(left + [b[0]], b[1]);
  }

  lemma RepeatedName(wildcard: bool, left: seq<Token>, t: Token, more: string)
    requires TokenOk(t) && FollowsOk(left, t) && !LinkOk(left, t) && (wildcard || t.kind != Wildcard)
    requires t.kind == Wildcard ==> more == ""
    ensures Scan(wildcard, After(left), PrintToken(t) + more) == None
  {
    if t.kind == Param { ReadParam(wildcard, left, t.value, more); } else { ReadWildcard(left, t.value, more); }
  }

  // ---------------------------------------------------------------- the seam

  /** A list of printable tokens stands behind `a`. */
  lemma ScanSeam(wildcard: bool, a: seq<Token>, first: Token, more: string)
    requires WellFormed(a) && TokenOk(first) && first.kind == Static
    requires a != [] && a[|a| - 1].kind == Param ==> StartsWithSlash(first.value)
    requires a == [] || a[|a| - 1].kind != Wildcard
    ensures Chained(FuseFirst(a, first))
    ensures Scan(wildcard, After(a), first.value + more) == Scan(wildcard, After(FuseFirst(a, first)), more)
  {
    if a == [] || a[|a| - 1].kind == Param {
      ChainedAppend(a, first);
      ScanToken(wildcard, a, first, more);
    } else {
      TextAppend(a[|a| - 1].value, first.value, true);
      FusedChained(a, first);
      ScanText(wildcard, After(a), first.value, more);
      AfterFused(a, first);
    }
  }

  lemma FusedChained(a: seq<Token>, first: Token)
    requires WellFormed(a) && a != [] && a[|a| - 1].kind == Static && first.kind == Static
    requires TokenOk(Token(Static, a[|a| - 1].value + first.value))
    ensures Chained(FuseFirst(a, first))
  {
    ChainedAppend(a[..|a| - 1], Token(Static, a[|a| - 1].value + first.value));
  }

  lemma AfterFused(a: seq<Token>, first: Token)
    requires a != [] && a[|a| - 1].kind == Static && first.kind == Static
    ensures After(FuseFirst(a, first)) == if first.value == "" then After(a) else
      After(a).(cur := After(a).cur + first.value, prev := Some(first.value[|first.value| - 1]))
  {
    var left, fused := a[..|a| - 1], Token(Static, a[|a| - 1].value + first.value);
    assert (left + [fused])[..|left|] == left;
    if first.value != "" { assert fused.value[|fused.value| - 1] == first.value[|first.value| - 1]; }
  }

  /** A parameter at the end of `a` refuses anything that does not go on with a slash. */
  lemma ScanStopsAtSeam(wildcard: bool, a: seq<Token>, more: string)
    requires Grammatical(false, a) && !Continues(a, more)
    ensures Scan(wildcard, START, Print(a) + more) == None
  {
    var left, t := a[..|a| - 1], a[|a| - 1];
    assert a == left + [t];
    WildcardInLast(left, t);
    Associative(Print(left), PrintToken(t), more);
    ScanPrinted(wildcard, left, PrintToken(t) + more);
    ReadParam(wildcard, left, t.value, more);
  }

  lemma NoWildcardAtEnd(a: seq<Token>)
    requires !HasWildcard(a)
    ensures a == [] || a[|a| - 1].kind != Wildcard
  {
    if a != [] { assert a[|a| - 1] in a; }
  }

  /** The parser's answer on a concatenation, for every scope pattern and route pattern. */
  lemma ConcatIsFuse(wildcard: bool, scope: string, route: string)
    requires Parse(false, scope).Some? && Parse(wildcard, route).Some?
    ensures var fused := Fuse(Parse(false, scope).value, Parse(wildcard, route).value);
      Parse(wildcard, scope + route) == if WellFormed(fused) then Some(fused) else None
  {
    var a, b := Parse(false, scope).value, Parse(wildcard, route).value;
    PrintParse(false, scope);
    PrintParse(wildcard, route);
    NoWildcardAtEnd(a);
    if b == [] {
      assert scope + route == scope;
      ParsePrint(wildcard, a);
    } else {
      ConcatNonEmpty(wildcard, a, b);
    }
  }

  lemma ConcatNonEmpty(wildcard: bool, a: seq<Token>, b: seq<Token>)
    requires Grammatical(false, a) && Grammatical(wildcard, b) && b != []
    ensures Parse(wildcard, Print(a) + Print(b)) == if WellFormed(Fuse(a, b)) then Some(Fuse(a, b)) else None
  {
    if Continues(a, Print(b)) {
      ConcatRead(wildcard, a, b);
    } else {
      ScanStopsAtSeam(wildcard, a, Print(b));
      SeamBroken(a, b);
    }
  }

  lemma SeamBroken(a: seq<Token>, b: seq<Token>)
    requires WellFormed(a) && WellFormed(b) && b != [] && !Continues(a, Print(b))
    ensures !WellFormed(Fuse(a, b))
  {
    ChainedAt(b, 0);
    PrintFirst(b);
    if Chained(Fuse(a, b)) {
      ChainedPrefix(a + [b[0]], b[1..]);
      LastLink(a, b[0]);
    }
  }

  lemma ConcatRead(wildcard: bool, a: seq<Token>, b: seq<Token>)
    requires Grammatical(false, a) && Grammatical(wildcard, b) && b != [] && Continues(a, Print(b))
    ensures Parse(wildcard, Print(a) + Print(b)) == if WellFormed(Fuse(a, b)) then Some(Fuse(a, b)) else None
  {
    ChainedAt(b, 0);
    ReadSeam(wildcard, a, b);
    ReadBehind(wildcard, a, b);
  }

  lemma ReadBehind(wildcard: bool, a: seq<Token>, b: seq<Token>)
    requires WellFormed(a) && Grammatical(wildcard, b) && b != [] && b[0].kind == Static && Chained(FuseFirst(a, b[0]))
    ensures Scan(wildcard, After(FuseFirst(a, b[0])), Print(b[1..]))
         == if WellFormed(Fuse(a, b)) then Some(Fuse(a, b)) else None
  {
    FusedSame(a, b[0]);
    AdjacentBehindFirst(FuseFirst(a, b[0]), b);
    NoWildcardBehind(b);
    FusedEnds(a, b);
    ScanRest(wildcard, FuseFirst(a, b[0]), b[1..]);
  }

  lemma ReadSeam(wildcard: bool, a: seq<Token>, b: seq<Token>)
    requires Grammatical(false, a) && WellFormed(b) && b != [] && b[0].kind == Static && Continues(a, Print(b))
    ensures Chained(FuseFirst(a, b[0]))
    ensures Scan(wildcard, START, Print(a) + Print(b)) == Scan(wildcard, After(FuseFirst(a, b[0])), Print(b[1..]))
  {
    ScanPrinted(wildcard, a, Print(b));
    ScanFirst(wildcard, a, b);
  }

  lemma ScanFirst(wildcard: bool, a: seq<Token>, b: seq<Token>)
    requires Grammatical(false, a) && WellFormed(b) && b != [] && b[0].kind == Static && Continues(a, Print(b))
    ensures Chained(FuseFirst(a, b[0]))
    ensures Scan(wildcard, After(a), Print(b)) == Scan(wildcard, After(FuseFirst(a, b[0])), Print(b[1..]))
  {
    ChainedAt(b, 0);
    NoWildcardAtEnd(a);
    SeamSlash(a, b);
    PrintFirst(b);
    ScanSeam(wildcard, a, b[0], Print(b[1..]));
  }

  lemma FusedSame(a: seq<Token>, first: Token)
    requires first.kind == Static
    ensures var left := FuseFirst(a, first);
      left != [] && left[|left| - 1].kind == Static && (first.value != "" ==> SameEnd(left[|left| - 1], first))
  {
    var left := FuseFirst(a, first);
    if a != [] && a[|a| - 1].kind == Static && first.value != "" {
      var text := a[|a| - 1].value + first.value;
      assert text[|text| - 1] == first.value[|first.value| - 1];
    }
  }

  lemma AdjacentBehindFirst(left: seq<Token>, b: seq<Token>)
    requires Chained(b) && b != [] && b[0].kind == Static && left != [] && left[|left| - 1].kind == Static
    requires b[0].value != "" ==> SameEnd(left[|left| - 1], b[0])
    ensures Adjacent(left, b[1..])
  {
    if b[0].value != "" {
      AdjacentBehind(left, b, 1);
    } else if |b| > 1 {
      ChainedAt(b, 1);
      if |b| > 2 { ChainedAt(b, 2); }
      assert b[1..][1..] == [];
    }
  }

  lemma FusedEnds(a: seq<Token>, b: seq<Token>)
    requires WellFormed(a) && WellFormed(b) && b != [] && b[0].kind == Static
    ensures var left, more := FuseFirst(a, b[0]), b[1..];
      && (more == [] ==> left[|left| - 1].value != "")
      && (more != [] && more[|more| - 1].kind == Static ==> more[|more| - 1].value != "")
      && (WellFormed(left + more) <==> Chained(left + more))
  {
    var left, more := FuseFirst(a, b[0]), b[1..];
    assert (left + more)[|left + more| - 1] == if more == [] then left[|left| - 1] else more[|more| - 1];
  }

  lemma NoWildcardBehind(b: seq<Token>)
    requires b != []
    ensures !HasWildcard(b) ==> !HasWildcard(b[1..])
  {
    if t :| t in b[1..] && t.kind == Wildcard { assert t in b; }
  }

  lemma SeamSlash(a: seq<Token>, b: seq<Token>)
    requires b != [] && Continues(a, Print(b)) && WellFormed(b)
    ensures a != [] && a[|a| - 1].kind == Param ==> StartsWithSlash(b[0].value)
  {
    PrintFirst(b);
    ChainedAt(b, 0);
    if b[0].value == "" {
      ChainedAt(b, 1);
      PrintFirst(b[1..]);
      assert b[1].kind == Wildcard && Print(b)[0] == '#';
    } else {
      assert Print(b)[0] == b[0].value[0];
    }
  }
}
