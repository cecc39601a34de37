/** MIME types: parsing a type with suffix and parameters, and printing it back. */
module MimeTypes {
  import opened Basics
  import opened Wrappers
  import opened Strings

  predicate IsAlnum(c: char) {
    IsDigit(c) || 'A' <= c <= 'Z' || 'a' <= c <= 'z'
  }

  predicate IsNameChar(c: char) {
    IsAlnum(c) || c in "!#$&-^_"
  }

  predicate ValidName(s: string) {
    s != "" && IsAlnum(s[0]) && forall i | 0 <= i < |s| :: IsNameChar(s[i])
  }

  function LowerCase(s: string): (r: string)
    ensures |r| == |s| && forall i | 0 <= i < |s| :: r[i] == Lower(s[i])
  {
    seq(|s|, i requires 0 <= i < |s| => Lower(s[i]))
  }

  /** The whole text, its part before the first semicolon, and the pieces. Parameter names are compared
      without case, so the map is keyed by the lower-cased name. */
  datatype Mime = Mime(source: string, essence: string, kind: string, subtype: string, suffix: Option<string>,
                       params: map<string, string>)

  datatype Param = Param(name: string, value: string)

  // ---------------------------------------------------------------- parsing

  /** `type/subtype` or `type/subtype+suffix`. */
  function ParsePrimary(s: string): Option<(string, string, Option<string>)> {
    var types := Split(s, "/");
    if |types| != 2 || !ValidName(types[0]) then None else
    var subtypes := Split(types[1], "+");
    if |subtypes| > 2 || !ValidName(subtypes[0]) then None
    else if |subtypes| == 1 then Some((types[0], subtypes[0], None))
    else if ValidName(subtypes[1]) then Some((types[0], subtypes[0], Some(subtypes[1])))
    else None
  }

  function ParseParam(s: string): Option<Param> {
    var tokens := Split(s, "=");
    if |tokens| == 2 && ValidName(tokens[0]) && ValidName(tokens[1]) then Some(Param(tokens[0], tokens[1])) else None
  }

  function ParseAll(tokens: seq<string>): Option<seq<Param>> {
    Collect(ParseParam, tokens)
  }

  /** The map the parameters build, a later one overwriting an earlier one of the same name. */
  function Stored(params: seq<Param>): map<string, string> {
    if params == [] then map[]
    else Stored(params[..|params| - 1])[LowerCase(params[|params| - 1].name) := params[|params| - 1].value]
  }

  /** Entry `i` is the last of this name, in any case. */
  predicate LastNamed(params: seq<Param>, i: int, name: string) {
    && 0 <= i < |params| && EqualIgnoringCase(params[i].name, name)
    && forall j | i < j < |params| :: !EqualIgnoringCase(params[j].name, name)
  }

  /** A name is found in any case, exactly when it was given in some case, with the last value given for it. */
  lemma {:induction false} StoredLast(params: seq<Param>, name: string)
    ensures LowerCase(name) in Stored(params)
       <==> exists i | 0 <= i < |params| :: EqualIgnoringCase(params[i].name, name)
    ensures LowerCase(name) in Stored(params) ==>
      exists i | 0 <= i < |params| ::
        LastNamed(params, i, name) && params[i].value == Stored(params)[LowerCase(name)]
    decreases |params|
  {
    if params != [] {
      var front, last := params[..|params| - 1], params[|params| - 1];
      StoredLast(front, name);
      SameLowerCase(last.name, name);
      if EqualIgnoringCase(last.name, name) {
        assert LastNamed(params, |params| - 1, name);
      } else if LowerCase(name) in Stored(front) {
        var i :| 0 <= i < |front| && LastNamed(front, i, name) && front[i].value == Stored(front)[LowerCase(name)];
        assert LastNamed(params, i, name);
      } else {
        assert forall i | 0 <= i < |front| :: params[i] == front[i];
      }
    }
  }

  lemma SameLowerCase(a: string, b: string)
    ensures LowerCase(a) == LowerCase(b) <==> EqualIgnoringCase(a, b)
  {
    if LowerCase(a) == LowerCase(b) {
      assert forall i | 0 <= i < |a| :: LowerCase(a)[i] == LowerCase(b)[i];
    }
  }

  function ParseMime(s: string): Option<Mime> {
    var tokens := Split(s, ";");
    var primary, params := ParsePrimary(tokens[0]), ParseAll(tokens[1..]);
    if primary.None? || params.None? then None
    else Some(Mime(s, tokens[0], primary.value.0, primary.value.1, primary.value.2, Stored(params.value)))
  }

  method ParseParams(tokens: seq<string>) returns (r: Option<map<string, string>>)
    ensures r == match ParseAll(tokens) case None => None case Some(params) => Some(Stored(params))
  {
    var params: map<string, string> := map[];
    ghost var seen: seq<Param> := [];
    for i := 0 to |tokens|
      invariant ParseAll(tokens[..i]) == Some(seen) && params == Stored(seen)
    {
      var pair := SplitOf(tokens[i], "=");
      if |pair| == 2 && ValidName(pair[0]) && ValidName(pair[1]) {
        NextParam(tokens, i, seen, Param(pair[0], pair[1]));
        seen := seen + [Param(pair[0], pair[1])];
        params := params[LowerCase(pair[0]) := pair[1]];
      } else {
        CollectFails(ParseParam, tokens, i);
        return None;
      }
    }
    assert tokens[..|tokens|] == tokens;
    return Some(params);
  }

  lemma NextParam(tokens: seq<string>, i: nat, seen: seq<Param>, p: Param)
    requires i < |tokens| && ParseAll(tokens[..i]) == Some(seen) && ParseParam(tokens[i]) == Some(p)
    ensures ParseAll(tokens[..i + 1]) == Some(seen + [p])
    ensures Stored(seen + [p]) == Stored(seen)[LowerCase(p.name) := p.value]
  {
    CollectNext(ParseParam, tokens, i, seen, p);
    assert (seen + [p])[..|seen|] == seen;
  }

  method Parse(s: string) returns (r: Option<Mime>)
    ensures r == ParseMime(s)
  {
    var tokens := SplitOf(s, ";");
    var primary := ParsePrimary(tokens[0]);
    if primary.None? { return None; }
    var essence := tokens[0];
    tokens := tokens[1..];
    if tokens == [] {
      return Some(Mime(s, essence, primary.value.0, primary.value.1, primary.value.2, map[]));
    }
    var params := ParseParams(tokens);
    if params.None? { return None; }
    return Some(Mime(s, essence, primary.value.0, primary.value.1, primary.value.2, params.value));
  }

  // ---------------------------------------------------------------- printing

  function PrintPrimary(kind: string, subtype: string, suffix: Option<string>): string {
    kind + "/" + subtype + (if suffix.Some? then "+" + suffix.value else "")
  }

  function PrintParam(p: Param): string {
    p.name + "=" + p.value
  }

  function PrintedParams(params: seq<Param>): (r: seq<string>)
    ensures |r| == |params| && forall i | 0 <= i < |params| :: r[i] == PrintParam(params[i])
  {
    seq(|params|, i requires 0 <= i < |params| => PrintParam(params[i]))
  }

  function Print(kind: string, subtype: string, suffix: Option<string>, params: seq<Param>): string {
    Join([PrintPrimary(kind, subtype, suffix)] + PrintedParams(params), "; ")
  }

  /** What these parts describe, with the text they are printed as. */
  function Described(kind: string, subtype: string, suffix: Option<string>, params: seq<Param>): Mime {
    Mime(Print(kind, subtype, suffix, params), PrintPrimary(kind, subtype, suffix),
         kind, subtype, suffix, Stored(params))
  }

  predicate ValidParam(p: Param) {
    ValidName(p.name) && ValidName(p.value)
  }

  predicate ValidParts(kind: string, subtype: string, suffix: Option<string>) {
    ValidName(kind) && ValidName(subtype) && (suffix.Some? ==> ValidName(suffix.value))
  }

  predicate ValidParams(params: seq<Param>) {
    forall i | 0 <= i < |params| :: ValidParam(params[i])
  }

  // ---------------------------------------------------------------- print, then parse

  lemma NameToken(s: string)
    requires ValidName(s)
    ensures Bare(s) && Free(s, "/") && Free(s, "+") && Free(s, "=") && Free(s, ";")
  {
  }

  lemma PairSplits(a: string, d: char, b: string, ds: string)
    requires Bare(a) && Bare(b) && d in ds && Free(a, ds) && Free(b, ds)
    ensures Split(a + [d] + b, ds) == [a, b]
  {
    SplitFirst(a, d, b, ds);
    SplitNone(b, ds);
    BareTrims(a);
    BareTrims(b);
  }

  lemma PairToken(a: string, d: char, b: string)
    requires a != "" && b != "" && Bare(a) && Bare(b) && !IsSpace(d)
    requires Free(a, ";") && Free(b, ";") && d != ';'
    ensures Bare(a + [d] + b) && Free(a + [d] + b, ";")
  {
    var s := a + [d] + b;
    assert s[0] == a[0] && s[|s| - 1] == b[|b| - 1];
  }

  lemma ParamRoundTrip(p: Param)
    requires ValidParam(p)
    ensures ParseParam(PrintParam(p)) == Some(p) && Bare(PrintParam(p)) && Free(PrintParam(p), ";")
  {
    NameToken(p.name);
    NameToken(p.value);
    assert ['='] == "=";
    PairSplits(p.name, '=', p.value, "=");
    PairToken(p.name, '=', p.value);
  }

  lemma PrimaryRoundTrip(kind: string, subtype: string, suffix: Option<string>)
    requires ValidParts(kind, subtype, suffix)
    ensures
      var s := PrintPrimary(kind, subtype, suffix);
      ParsePrimary(s) == Some((kind, subtype, suffix)) && Bare(s) && Free(s, ";")
  {
    NameToken(kind);
    NameToken(subtype);
    var s := PrintPrimary(kind, subtype, suffix);
    assert ['/'] == "/" && ['+'] == "+";
    if suffix.None? {
      assert s == kind + ['/'] + subtype;
      SplitNone(subtype, "+");
      BareTrims(subtype);
      PairSplits(kind, '/', subtype, "/");
      PairToken(kind, '/', subtype);
    } else {
      NameToken(suffix.value);
      var rest := subtype + ['+'] + suffix.value;
      assert s == kind + ['/'] + rest;
      PairSplits(subtype, '+', suffix.value, "+");
      PairToken(subtype, '+', suffix.value);
      PairSplits(kind, '/', rest, "/");
      PairToken(kind, '/', rest);
    }
  }

  lemma ParamsParse(params: seq<Param>)
    requires ValidParams(params)
    ensures ParseAll(PrintedParams(params)) == Some(params)
    ensures forall i | 0 <= i < |params| :: Bare(PrintedParams(params)[i]) && Free(PrintedParams(params)[i], ";")
  {
    forall i | 0 <= i < |params|
      ensures ParseParam(PrintedParams(params)[i]) == Some(params[i])
      ensures Bare(PrintedParams(params)[i]) && Free(PrintedParams(params)[i], ";")
    {
      ParamRoundTrip(params[i]);
    }
    CollectIs(ParseParam, PrintedParams(params), params);
  }

  lemma PrintedSplits(kind: string, subtype: string, suffix: Option<string>, params: seq<Param>)
    requires ValidParts(kind, subtype, suffix) && ValidParams(params)
    ensures Split(Print(kind, subtype, suffix, params), ";")
         == [PrintPrimary(kind, subtype, suffix)] + PrintedParams(params)
  {
    PrimaryRoundTrip(kind, subtype, suffix);
    ParamsParse(params);
    assert [';'] + " " == "; ";
    SplitJoin([PrintPrimary(kind, subtype, suffix)] + PrintedParams(params), ';', " ", ";");
  }

  /** Print then parse is the identity on valid names. */
  lemma MimeParses(kind: string, subtype: string, suffix: Option<string>, params: seq<Param>)
    requires ValidParts(kind, subtype, suffix) && ValidParams(params)
    ensures ParseMime(Print(kind, subtype, suffix, params)) == Some(Described(kind, subtype, suffix, params))
  {
    PrimaryRoundTrip(kind, subtype, suffix);
    ParamsParse(params);
    PrintedSplits(kind, subtype, suffix, params);
    var tokens := [PrintPrimary(kind, subtype, suffix)] + PrintedParams(params);
    assert tokens[1..] == PrintedParams(params);
  }

  /** The characters of names: letters and digits first, and these behind them. */
  lemma NameChars(s: string)
    ensures ValidName(s) <==>
      && s != "" && s[0] in UPPER + LOWER + DIGITS
      && forall i | 0 <= i < |s| :: s[i] in UPPER + LOWER + DIGITS + "!#$&-^_"
  {
    forall i | 0 <= i < |s|
      ensures IsAlnum(s[i]) <==> s[i] in UPPER + LOWER + DIGITS
      ensures IsNameChar(s[i]) <==> s[i] in UPPER + LOWER + DIGITS + "!#$&-^_"
    {
      CharListed(s[i]);
    }
  }

  lemma CharListed(c: char)
    ensures IsAlnum(c) <==> c in UPPER + LOWER + DIGITS
    ensures IsNameChar(c) <==> c in UPPER + LOWER + DIGITS + "!#$&-^_"
  {
    UpperListed(c);
    LowerListed(c);
    DigitListed(c);
  }

  lemma OneStored(p: Param)
    ensures Stored([p]) == map[LowerCase(p.name) := p.value]
  {
    assert [p][..0] == [];
  }

  lemma OnePrinted(primary: string, p: Param)
    ensures Join([primary] + PrintedParams([p]), "; ") == primary + "; " + PrintParam(p)
  {
    var tokens := [primary] + PrintedParams([p]);
    assert tokens[0] == primary && tokens[1] == PrintParam(p) && tokens[1..] == [PrintParam(p)];
    assert Join([PrintParam(p)], "; ") == PrintParam(p);
  }

  /** How a type with a parameter is written: `type/subtype; name=value`. */
  lemma ParamTyped(kind: string, subtype: string, p: Param)
    requires ValidParts(kind, subtype, None) && ValidParam(p)
    ensures ParseMime(kind + "/" + subtype + "; " + (p.name + "=" + p.value))
         == Some(Mime(kind + "/" + subtype + "; " + (p.name + "=" + p.value), kind + "/" + subtype,
                      kind, subtype, None, map[LowerCase(p.name) := p.value]))
  {
    MimeParses(kind, subtype, None, [p]);
    OneStored(p);
    assert PrintPrimary(kind, subtype, None) == kind + "/" + subtype;
    OnePrinted(kind + "/" + subtype, p);
  }

  /** And one with a suffix: `type/subtype+suffix`. */
  lemma SuffixTyped(kind: string, subtype: string, suffix: string)
    requires ValidParts(kind, subtype, Some(suffix))
    ensures ParseMime(kind + "/" + subtype + ("+" + suffix))
         == Some(Mime(kind + "/" + subtype + ("+" + suffix), kind + "/" + subtype + ("+" + suffix),
                      kind, subtype, Some(suffix), map[]))
  {
    MimeParses(kind, subtype, Some(suffix), []);
    NoParams(PrintPrimary(kind, subtype, Some(suffix)));
  }

  /** One slash, at most one plus sign behind it, and one equals sign in a parameter; all else is refused. */
  lemma MalformedRefused(kind: string, rest: string)
    ensures multiset(rest)['/'] != 1 ==> ParsePrimary(rest) == None
    ensures Free(kind + rest, "/") && multiset(rest)['+'] > 1 ==> ParsePrimary(kind + "/" + rest) == None
    ensures multiset(rest)['='] != 1 ==> ParseParam(rest) == None
  {
    SplitCounts(rest, '/');
    SplitCounts(rest, '=');
    if Free(kind + rest, "/") {
      FreeParts(kind, rest, "/");
      SplitFirst(kind, '/', rest, "/");
      SplitNone(rest, "/");
      var left, right := TrimmedMeans(rest);
      NoneCounted(left, '+');
      NoneCounted(right, '+');
      SplitCounts(Trimmed(rest), '+');
    }
  }

  lemma NoParams(primary: string)
    ensures Join([primary] + PrintedParams([]), "; ") == primary
  {
    assert [primary] + PrintedParams([]) == [primary];
  }

  // ---------------------------------------------------------------- and only on those

  predicate Distinct(params: seq<Param>) {
    forall i, j | 0 <= i < j < |params| :: LowerCase(params[i].name) != LowerCase(params[j].name)
  }

  /** With distinct names nothing is overwritten: the map holds every parameter. */
  lemma {:induction false} StoredHolds(params: seq<Param>)
    requires Distinct(params)
    ensures forall i | 0 <= i < |params| ::
      LowerCase(params[i].name) in Stored(params) && Stored(params)[LowerCase(params[i].name)] == params[i].value
  {
    if params == [] {
    } else {
      StoredHolds(params[..|params| - 1]);
    }
  }

  /** Whatever the map holds was given. */
  lemma {:induction false} StoredGiven(params: seq<Param>, key: string)
    requires key in Stored(params)
    ensures exists i | 0 <= i < |params| :: LowerCase(params[i].name) == key && params[i].value == Stored(params)[key]
  {
    var n := |params| - 1;
    if LowerCase(params[n].name) != key {
      StoredGiven(params[..n], key);
      var i :| 0 <= i < n && LowerCase(params[..n][i].name) == key && params[..n][i].value == Stored(params[..n])[key];
      assert params[i] == params[..n][i];
    }
  }

  lemma LowerValid(a: string, b: string)
    requires ValidName(a) && LowerCase(a) == LowerCase(b)
    ensures ValidName(b)
  {
    forall i | 0 <= i < |b| ensures IsNameChar(b[i]) && (IsAlnum(a[i]) ==> IsAlnum(b[i])) {
      assert LowerCase(a)[i] == LowerCase(b)[i];
    }
  }

  /** Parsing yields nothing but valid names, as keys and as values. */
  lemma ParsedValid(s: string, m: Mime)
    requires ParseMime(s) == Some(m)
    ensures ValidParts(m.kind, m.subtype, m.suffix) && m.source == s
    ensures forall key | key in m.params ::
      ValidName(m.params[key]) && exists name :: ValidName(name) && LowerCase(name) == key
  {
    var tokens := Split(s, ";")[1..];
    var params := ParseAll(tokens).value;
    forall key | key in m.params
      ensures ValidName(m.params[key]) && exists name :: ValidName(name) && LowerCase(name) == key
    {
      StoredGiven(params, key);
      var i :| 0 <= i < |params| && LowerCase(params[i].name) == key && params[i].value == m.params[key];
      CollectAt(ParseParam, tokens, i);
    }
  }

  /** For parameters with distinct names, print then parse is the identity exactly on valid names. */
  lemma MimeRoundTrip(kind: string, subtype: string, suffix: Option<string>, params: seq<Param>)
    requires Distinct(params)
    ensures ParseMime(Print(kind, subtype, suffix, params)) == Some(Described(kind, subtype, suffix, params))
       <==> ValidParts(kind, subtype, suffix) && ValidParams(params)
  {
    var m := Described(kind, subtype, suffix, params);
    if ParseMime(Print(kind, subtype, suffix, params)) == Some(m) {
      ParsedValid(Print(kind, subtype, suffix, params), m);
      StoredHolds(params);
      forall i | 0 <= i < |params| ensures ValidParam(params[i]) {
        var key := LowerCase(params[i].name);
        assert key in m.params && m.params[key] == params[i].value;
        var name :| ValidName(name) && LowerCase(name) == key;
        LowerValid(name, params[i].name);
      }
    } else if ValidParts(kind, subtype, suffix) && ValidParams(params) {
      MimeParses(kind, subtype, suffix, params);
    }
  }
}
