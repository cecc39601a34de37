/** The captured parameters as a request carries them: names in pattern order and a map of values. */
module PathInfo {
  import opened Wrappers

  type Params = seq<(string, string)>

  /** The map after all pairs are stored, later pairs winning. */
  function Stored(params: Params): map<string, string> {
    if params == [] then map[] else Stored(params[..|params| - 1])[params[|params| - 1].0 := params[|params| - 1].1]
  }

  predicate DistinctNames(params: Params) {
    forall i, j | 0 <= i < j < |params| :: params[i].0 != params[j].0
  }

  function Names(params: Params): (names: seq<string>)
    ensures |names| == |params| && forall i | 0 <= i < |params| :: names[i] == params[i].0
  {
    seq(|params|, i requires 0 <= i < |params| => params[i].0)
  }

  lemma {:induction false} StoredKeys(params: Params, name: string)
    ensures name in Stored(params) <==> exists i :: 0 <= i < |params| && params[i].0 == name
  {
    if params == [] {
    } else {
      StoredKeys(params[..|params| - 1], name);
    }
  }

  /** Pair `i` has the name, and no later pair has. */
  predicate LastNamed(params: Params, i: nat, name: string)
    requires i < |params|
  {
    params[i].0 == name && forall j | i < j < |params| :: params[j].0 != name
  }

  /** The map holds, under each name, the value of its last pair. */
  lemma {:induction false} StoredLast(params: Params, name: string) returns (i: nat)
    requires name in Stored(params)
    ensures i < |params| && LastNamed(params, i, name) && params[i].1 == Stored(params)[name]
  {
    var k := |params| - 1;
    if params[k].0 == name {
      i := k;
    } else {
      i := StoredLast(params[..k], name);
      assert forall j | i <= j < k :: params[j] == params[..k][j];
    }
  }

  /** With distinct names every pair survives, so the map is as large as the list. */
  lemma {:induction false} StoredDistinct(params: Params)
    requires DistinctNames(params)
    ensures |Stored(params)| == |params|
    ensures forall i | 0 <= i < |params| :: params[i].0 in Stored(params) && Stored(params)[params[i].0] == params[i].1
  {
    if params == [] {
    } else {
      var k := |params| - 1;
      StoredDistinct(params[..k]);
      StoredKeys(params[..k], params[k].0);
      assert forall i | 0 <= i < k :: params[..k][i] == params[i];
      assert Stored(params).Keys == Stored(params[..k]).Keys + {params[k].0};
      assert |Stored(params).Keys| == |Stored(params[..k]).Keys| + 1;
    }
  }

  class Info {
    var matchPattern: string
    var matchPath: string
    var keys: seq<string>
    var values: map<string, string>

    /** The object holds these pairs. */
    ghost predicate Holds(params: Params)
      reads this
    {
      keys == Names(params) && values == Stored(params)
    }

    constructor (pattern: string, path: string, params: Params)
      ensures matchPattern == pattern && matchPath == path && Holds(params)
    {
      matchPattern, matchPath, keys, values := pattern, path, [], map[];
      new;
      for i := 0 to |params|
        invariant matchPattern == pattern && matchPath == path
        invariant Holds(params[..i])
      {
        assert params[..i + 1][..i] == params[..i];
        keys := keys + [params[i].0];
        values := values[params[i].0 := params[i].1];
      }
      assert params[..|params|] == params;
    }

    /** The value captured last under the name, and none exactly when no pair has it. */
    method GetByName(name: string, ghost params: Params) returns (value: Option<string>)
      requires Holds(params)
      ensures value.None? <==> forall i | 0 <= i < |params| :: params[i].0 != name
      ensures value.Some? ==> exists i | 0 <= i < |params| :: LastNamed(params, i, name) && params[i].1 == value.value
    {
      StoredKeys(params, name);
      if name !in values { return None; }
      ghost var i := StoredLast(params, name);
      value := Some(values[name]);
    }

    /** The i-th parameter of the pattern, when the names are distinct. */
    method GetByIndex(index: nat, ghost params: Params) returns (value: Option<string>)
      requires Holds(params) && DistinctNames(params)
      ensures value == if index < |params| then Some(params[index].1) else None
    {
      StoredDistinct(params);
      if index < |values| {
        value := GetByName(keys[index], params);
        return;
      }
      return None;
    }

    /** Iterating visits the pairs in pattern order. */
    method Iterate(ghost params: Params) returns (pairs: Params)
      requires Holds(params) && DistinctNames(params)
      ensures pairs == params
    {
      StoredDistinct(params);
      pairs := [];
      for i := 0 to |keys|
        invariant pairs == params[..i]
      {
        pairs := pairs + [(keys[i], values[keys[i]])];
      }
    }
  }
}
