/** The two failure-carrying datatypes used by every other module, and collecting over a list. */
module Wrappers {

  /** A value or its absence: the source's `optional`, and `expected` where the error carries no data. */
  datatype Option<+T> = None | Some(value: T)

  /** A value or an error: the source's `expected`. */
  datatype Result<+T, +E> = Success(value: T) | Failure(error: E)

  /** The results of a partial function on every element, or None at the first that has none. */
  function Collect<S, T>(f: S -> Option<T>, xs: seq<S>): (r: Option<seq<T>>)
    ensures r.Some? ==> |r.value| == |xs|
  {
    if xs == [] then Some([]) else
    var front, last := Collect(f, xs[..|xs| - 1]), f(xs[|xs| - 1]);
    if front.None? || last.None? then None else Some(front.value + [last.value])
  }

  /** What was collected stands where its argument stood. */
  lemma {:induction false} CollectAt<S, T>(f: S -> Option<T>, xs: seq<S>, i: nat)
    requires Collect(f, xs).Some? && i < |xs|
    ensures f(xs[i]) == Some(Collect(f, xs).value[i])
    decreases |xs|
  {
    if i == |xs| - 1 {
    } else {
      CollectAt(f, xs[..|xs| - 1], i);
    }
  }

  lemma {:induction false} CollectFails<S, T>(f: S -> Option<T>, xs: seq<S>, i: nat)
    requires i < |xs| && f(xs[i]).None?
    ensures Collect(f, xs).None?
    decreases |xs|
  {
    if i == |xs| - 1 {
    } else {
      CollectFails(f, xs[..|xs| - 1], i);
    }
  }

  lemma CollectNext<S, T>(f: S -> Option<T>, xs: seq<S>, i: nat, ys: seq<T>, y: T)
    requires i < |xs| && Collect(f, xs[..i]) == Some(ys) && f(xs[i]) == Some(y)
    ensures Collect(f, xs[..i + 1]) == Some(ys + [y])
  {
    assert xs[..i + 1][..i] == xs[..i];
  }

  lemma {:induction false} CollectIs<S, T>(f: S -> Option<T>, xs: seq<S>, ys: seq<T>)
    requires |xs| == |ys| && forall i | 0 <= i < |xs| :: f(xs[i]) == Some(ys[i])
    ensures Collect(f, xs) == Some(ys)
    decreases |xs|
  {
    if xs == [] {
    } else {
      var k := |xs| - 1;
      CollectIs(f, xs[..k], ys[..k]);
      assert ys == ys[..k] + [ys[k]];
    }
  }
}
