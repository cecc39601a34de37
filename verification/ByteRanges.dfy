/** The `Range` header: parsing with 64-bit wrap-around, and printing it back. */
module ByteRanges {
  import opened Basics
  import opened Wrappers
  import opened Strings

  type uint64 = x: int | 0 <= x < WORD

  datatype Subrange = Subrange(offset: uint64, length: uint64)

  datatype Range = Range(unit: string, subranges: seq<Subrange>)

  /** What one element of the header asks for. */
  datatype Spec = Suffix(count: uint64) | From(start: uint64) | Between(start: uint64, end: uint64)

  function Minus(a: uint64, b: uint64): uint64 {
    (a - b) % WORD
  }

  function Plus(a: uint64, b: uint64): uint64 {
    (a + b) % WORD
  }

  /** The subrange computed for it, in the machine's arithmetic. */
  function Resolve(spec: Spec, total: uint64): Subrange {
    match spec
    case Suffix(n) => Subrange(Minus(total, n), n)
    case From(s) => Subrange(s, Minus(total, s))
    case Between(s, e) => Subrange(s, Plus(Minus(e, s), 1))
  }

  /** One element between commas: `first-last` or `first-`. */
  function ParseSpec(token: string): Option<Spec> {
    var parts := Split(token, "-");
    if |parts| != 2 then None else
    var start, end := FromString(parts[0]), FromString(parts[1]);
    if parts[1] == "" && start.Number? then Some(From(start.value))
    else if start.Number? && end.Number? && start.value <= end.value then Some(Between(start.value, end.value))
    else None
  }

  function ParseSpecs(tokens: seq<string>): Option<seq<Spec>> {
    Collect(ParseSpec, tokens)
  }

  /** A header is a unit and either one suffix or a list of the other two forms. */
  function ParseHeader(input: string): Option<(string, seq<Spec>)> {
    var parts := Split(input, "=");
    if |parts| != 2 then None
    else if "-" <= parts[1] then
      var suffix := FromString(parts[1][1..]);
      if suffix.Number? then Some((parts[0], [Suffix(suffix.value)])) else None
    else
      var specs := ParseSpecs(Split(parts[1], ","));
      if specs.Some? then Some((parts[0], specs.value)) else None
  }

  function Resolved(specs: seq<Spec>, total: uint64): (r: seq<Subrange>)
    ensures |r| == |specs| && forall i | 0 <= i < |specs| :: r[i] == Resolve(specs[i], total)
  {
    if specs == [] then []
    else Resolved(specs[..|specs| - 1], total) + [Resolve(specs[|specs| - 1], total)]
  }

  lemma ResolvedOne(spec: Spec, total: uint64)
    ensures Resolved([spec], total) == [Resolve(spec, total)]
  {
    assert [spec][..0] == [];
  }

  method ParseSubrange(token: string, total: uint64) returns (r: Option<Subrange>)
    ensures r == match ParseSpec(token) case None => None case Some(spec) => Some(Resolve(spec, total))
  {
    var parts := SplitOf(token, "-");
    if |parts| == 2 {
      var start := FromString(parts[0]);
      if parts[1] == "" && start.Number? {
        return Some(Subrange(start.value, Minus(total, start.value)));
      }
      var end := FromString(parts[1]);
      if start.Number? && end.Number? && start.value <= end.value {
        return Some(Subrange(start.value, Plus(Minus(end.value, start.value), 1)));
      }
    }
    return None;
  }

  predicate Ordered(spec: Spec) {
    spec.Between? ==> spec.start <= spec.end
  }

  /** A closed element that parses does not run backwards. */
  lemma SpecsOrdered(tokens: seq<string>, i: nat)
    requires ParseSpecs(tokens).Some? && i < |tokens|
    ensures Ordered(ParseSpecs(tokens).value[i])
  {
    CollectAt(ParseSpec, tokens, i);
  }

  lemma NextResolved(specs: seq<Spec>, spec: Spec, total: uint64)
    ensures Resolved(specs + [spec], total) == Resolved(specs, total) + [Resolve(spec, total)]
  {
    assert (specs + [spec])[..|specs|] == specs;
  }

  method ParseSubranges(input: string, total: uint64) returns (r: Option<seq<Subrange>>)
    ensures r == match ParseSpecs(Split(input, ",")) case None => None case Some(specs) => Some(Resolved(specs, total))
  {
    var subranges: seq<Subrange> := [];
    var tokens := SplitOf(input, ",");
    ghost var specs: seq<Spec> := [];
    for i := 0 to |tokens|
      invariant ParseSpecs(tokens[..i]) == Some(specs) && subranges == Resolved(specs, total)
    {
      var subrange := ParseSubrange(tokens[i], total);
      if subrange.None? {
        CollectFails(ParseSpec, tokens, i);
        return None;
      }
      ghost var spec := ParseSpec(tokens[i]).value;
      CollectNext(ParseSpec, tokens, i, specs, spec);
      NextResolved(specs, spec, total);
      specs := specs + [spec];
      subranges := subranges + [subrange.value];
    }
    assert tokens[..|tokens|] == tokens;
    return Some(subranges);
  }

  method Parse(input: string, total: uint64) returns (r: Option<Range>)
    ensures r.Some? <==> ParseHeader(input).Some?
    ensures r.Some? ==> r.value == Range(ParseHeader(input).value.0, Resolved(ParseHeader(input).value.1, total))
  {
    var parts := SplitOf(input, "=");
    if |parts| != 2 { return None; }
    if "-" <= parts[1] {
      var suffix := FromString(parts[1][1..]);
      if suffix.Number? {
        ResolvedOne(Suffix(suffix.value), total);
        return Some(Range(parts[0], [Subrange(Minus(total, suffix.value), suffix.value)]));
      }
    } else {
      var subranges := ParseSubranges(parts[1], total);
      if subranges.Some? { return Some(Range(parts[0], subranges.value)); }
    }
    return None;
  }

  // ---------------------------------------------------------------- inside the file?

  /** A parsed range list is never empty, so its first element exists. */
  lemma HeaderNonEmpty(input: string)
    ensures ParseHeader(input).Some? ==> ParseHeader(input).value.1 != []
  {
  }

  /** The bound check made before a subrange is served. */
  predicate Bounded(r: Subrange, size: uint64) {
    Plus(r.offset, r.length) <= size
  }

  /** What the check lets through: every suffix, every open range, and a closed range that ends in the
      file, or at the very last number a word holds. A closed range that merely reaches past the end is
      refused, where section 14.1.2 of RFC 9110 would cut it. */
  lemma BoundedExactly(spec: Spec, size: uint64)
    requires Ordered(spec)
    ensures Bounded(Resolve(spec, size), size) <==>
      match spec
      case Suffix(_) => true
      case From(_) => true
      case Between(_, e) => e < size || e == WORD - 1
  {
  }

  /** Section 14.1.2 of RFC 9110: the elements a server should answer with bytes. */
  predicate Satisfiable(spec: Spec, size: uint64) {
    match spec
    case Suffix(n) => n > 0
    case From(s) => s < size
    case Between(s, _) => s < size
  }

  /** The check and the standard agree but for an empty suffix, an open range from or past the end, and a
      closed range that starts in the file and ends past it, or is past it and ends at the last number. */
  lemma BoundedIffSatisfiable(spec: Spec, size: uint64)
    requires Ordered(spec)
    ensures (Bounded(Resolve(spec, size), size) <==> Satisfiable(spec, size)) <==>
      match spec
      case Suffix(n) => n > 0
      case From(s) => s < size
      case Between(s, e) => e < size || (s < size <==> e == WORD - 1)
  {
    BoundedExactly(spec, size);
  }

  /** No subtraction or addition wraps, neither in the parser nor in the bound check. */
  predicate NoWrap(spec: Spec, size: uint64) {
    match spec
    case Suffix(n) => n <= size
    case From(s) => s <= size
    case Between(_, e) => e < WORD - 1
  }

  /** Every machine operation on the way gives the integer result. */
  predicate Unwrapped(spec: Spec, size: uint64) {
    match spec
    case Suffix(n) => Minus(size, n) == size - n && Plus(Minus(size, n), n) == Minus(size, n) + n
    case From(s) => Minus(size, s) == size - s && Plus(s, Minus(size, s)) == s + Minus(size, s)
    case Between(s, e) =>
      var length := Plus(Minus(e, s), 1);
      Minus(e, s) == e - s && length == Minus(e, s) + 1 && Plus(s, length) == s + length
  }

  lemma NoWrapMeans(spec: Spec, size: uint64)
    requires Ordered(spec)
    ensures NoWrap(spec, size) <==> Unwrapped(spec, size)
  {
  }

  predicate Inside(r: Subrange, size: uint64) {
    r.offset + r.length <= size
  }

  /** Nothing wraps, or the range is all of 0 to 2^64 - 1, whose length wraps to zero. */
  predicate Deliverable(spec: Spec, size: uint64) {
    NoWrap(spec, size) || spec == Between(0, WORD - 1)
  }

  /** A subrange that passes the check lies inside the file exactly when nothing wrapped, but for the one
      range whose length wraps to zero. */
  lemma BoundedInside(spec: Spec, size: uint64)
    requires Ordered(spec)
    requires Bounded(Resolve(spec, size), size)
    ensures Inside(Resolve(spec, size), size) <==> Deliverable(spec, size)
  {
  }

  /** What the parser computes for an element, wrapped or not. */
  lemma ResolveMeans(spec: Spec, size: uint64)
    requires Ordered(spec)
    ensures
      var r := Resolve(spec, size);
      match spec
      case Suffix(n) => r.length == n && r.offset == if n <= size then size - n else WORD + size - n
      case From(s) => r.offset == s && r.length == if s <= size then size - s else WORD + size - s
      case Between(s, e) => r.offset == s && r.length == if s == 0 && e == WORD - 1 then 0 else e - s + 1
  {
  }

  /** `bytes=-1000` on 500 bytes, and `bytes=501-`: both pass the check, neither lies inside the file. */
  lemma WrappedRangePasses()
    ensures Bounded(Resolve(Suffix(1000), 500), 500) && !Inside(Resolve(Suffix(1000), 500), 500)
    ensures Bounded(Resolve(From(501), 500), 500) && !Inside(Resolve(From(501), 500), 500)
  {
  }

  // ---------------------------------------------------------------- print, then parse

  function PrintSpec(r: Subrange): string
    requires 0 < r.length && r.offset + r.length <= WORD
  {
    ToString(r.offset) + "-" + ToString(r.offset + r.length - 1)
  }

  predicate Printable(rs: seq<Subrange>) {
    rs != [] && forall i | 0 <= i < |rs| :: 0 < rs[i].length && rs[i].offset + rs[i].length <= WORD
  }

  function PrintSpecs(rs: seq<Subrange>): (tokens: seq<string>)
    requires Printable(rs)
    ensures |tokens| == |rs| && forall i | 0 <= i < |rs| :: tokens[i] == PrintSpec(rs[i])
  {
    seq(|rs|, i requires 0 <= i < |rs| => PrintSpec(rs[i]))
  }

  function Print(unit: string, rs: seq<Subrange>): string
    requires Printable(rs)
  {
    unit + "=" + Join(PrintSpecs(rs), ", ")
  }

  predicate Digits(s: string) {
    s != "" && forall i | 0 <= i < |s| :: IsDigit(s[i])
  }

  lemma DigitsSplit(a: string, b: string)
    requires Digits(a) && Digits(b)
    ensures Split(a + "-" + b, "-") == [a, b]
  {
    SplitFirst(a, '-', b, "-");
    SplitNone(b, "-");
    BareTrims(a);
    BareTrims(b);
    assert ['-'] == "-";
  }

  lemma BetweenParses(a: string, b: string, x: nat, y: nat)
    requires Digits(a) && Digits(b) && FromString(a) == Number(x) && FromString(b) == Number(y) && x <= y
    ensures ParseSpec(a + "-" + b) == Some(Between(x, y))
  {
    DigitsSplit(a, b);
  }

  lemma WordsParse(x: uint64, y: uint64)
    requires x <= y
    ensures ParseSpec(ToString(x) + "-" + ToString(y)) == Some(Between(x, y))
  {
    FromToString(x);
    FromToString(y);
    BetweenParses(ToString(x), ToString(y), x, y);
  }

  /** An element that runs backwards is refused. */
  lemma BackwardsRefused(x: uint64, y: uint64)
    requires x > y
    ensures ParseSpec(ToString(x) + "-" + ToString(y)) == None
  {
    FromToString(x);
    FromToString(y);
    DigitsSplit(ToString(x), ToString(y));
  }

  /** One equals sign in a header, one dash in an element, and a number in front of it; all else is refused. */
  lemma MalformedRefused(s: string)
    ensures multiset(s)['='] != 1 ==> ParseHeader(s) == None
    ensures multiset(s)['-'] != 1 ==> ParseSpec(s) == None
    ensures Free(s, "-") && FromString(Trimmed(s)) == NotANumber ==>
      forall e | Free(e, "-") :: ParseSpec(s + "-" + e) == None
  {
    SplitCounts(s, '=');
    SplitCounts(s, '-');
    forall e | Free(s, "-") && Free(e, "-") ensures Split(s + "-" + e, "-") == [Trimmed(s), Trimmed(e)] {
      SplitFirst(s, '-', e, "-");
      SplitNone(e, "-");
    }
  }

  lemma SpecRoundTrip(r: Subrange)
    requires 0 < r.length && r.offset + r.length <= WORD
    ensures ParseSpec(PrintSpec(r)) == Some(Between(r.offset, r.offset + r.length - 1))
  {
    WordsParse(r.offset, r.offset + r.length - 1);
  }

  /** A printed element is bare, starts with a digit, and holds neither comma nor equals sign. */
  predicate Plain(s: string) {
    s != "" && IsDigit(s[0]) && Bare(s) && Free(s, ",") && Free(s, "=")
  }

  lemma PrintedPlain(a: string, b: string)
    requires Digits(a) && Digits(b)
    ensures Plain(a + "-" + b)
  {
    var s := a + "-" + b;
    assert s[0] == a[0] && s[|s| - 1] == b[|b| - 1];
    assert forall i | 0 <= i < |s| :: IsDigit(s[i]) || s[i] == '-';
  }

  lemma JoinTwo(a: string, b: string)
    requires Plain(a) && a != "" && b != "" && IsDigit(b[0]) && Bare(b) && Free(b, "=")
    ensures var s := a + ", " + b; s != "" && IsDigit(s[0]) && Bare(s) && Free(s, "=")
  {
    var s := a + ", " + b;
    assert s[0] == a[0] && s[|s| - 1] == b[|b| - 1];
  }

  lemma {:induction false} JoinedPlain(tokens: seq<string>)
    requires tokens != [] && forall i | 0 <= i < |tokens| :: Plain(tokens[i])
    ensures var s := Join(tokens, ", "); s != "" && IsDigit(s[0]) && Bare(s) && Free(s, "=")
    decreases |tokens|
  {
    if |tokens| == 1 {
    } else {
      JoinedPlain(tokens[1..]);
      JoinTwo(tokens[0], Join(tokens[1..], ", "));
    }
  }

  lemma UnitSplits(unit: string, list: string)
    requires Bare(unit) && Free(unit, "=") && Bare(list) && Free(list, "=")
    ensures Split(unit + "=" + list, "=") == [unit, list]
  {
    SplitFirst(unit, '=', list, "=");
    SplitNone(list, "=");
    BareTrims(unit);
    BareTrims(list);
    assert ['='] == "=";
  }

  lemma ListParses(unit: string, list: string, specs: seq<Spec>)
    requires Bare(unit) && Free(unit, "=")
    requires list != "" && IsDigit(list[0]) && Bare(list) && Free(list, "=")
    requires ParseSpecs(Split(list, ",")) == Some(specs)
    ensures ParseHeader(unit + "=" + list) == Some((unit, specs))
  {
    UnitSplits(unit, list);
  }

  // ---------------------------------------------------------------- all three forms

  /** The text of an element of a list: `first-last` or `first-`. */
  function ElementText(spec: Spec): string
    requires !spec.Suffix?
  {
    ToString(spec.start) + "-" + if spec.Between? then ToString(spec.end) else ""
  }

  predicate Elements(specs: seq<Spec>) {
    specs != [] && forall i | 0 <= i < |specs| :: !specs[i].Suffix? && Ordered(specs[i])
  }

  function ElementTexts(specs: seq<Spec>): (tokens: seq<string>)
    requires Elements(specs)
    ensures |tokens| == |specs| && forall i | 0 <= i < |specs| :: tokens[i] == ElementText(specs[i])
  {
    seq(|specs|, i requires 0 <= i < |specs| => ElementText(specs[i]))
  }

  lemma OpenSplits(a: string)
    requires Digits(a)
    ensures Split(a + "-", "-") == [a, ""]
  {
    SplitFirst(a, '-', "", "-");
    SplitNone("", "-");
    BareTrims(a);
    BareTrims("");
    assert a + ['-'] + "" == a + "-";
  }

  /** `first-` is open. */
  lemma OpenParses(s: uint64)
    ensures ParseSpec(ToString(s) + "-") == Some(From(s))
  {
    FromToString(s);
    OpenSplits(ToString(s));
  }

  lemma OpenPlain(a: string)
    requires Digits(a)
    ensures Plain(a + "-")
  {
    var s := a + "-";
    assert s[0] == a[0] && s[|s| - 1] == '-';
    assert forall i | 0 <= i < |s| :: IsDigit(s[i]) || s[i] == '-';
  }

  lemma ElementParses(spec: Spec)
    requires !spec.Suffix? && Ordered(spec)
    ensures Plain(ElementText(spec)) && ParseSpec(ElementText(spec)) == Some(spec)
  {
    match spec
    case From(s) =>
      assert ElementText(spec) == ToString(s) + "-";
      OpenPlain(ToString(s));
      OpenParses(s);
    case Between(s, e) =>
      PrintedPlain(ToString(s), ToString(e));
      WordsParse(s, e);
  }

  /** A header that lists open and closed elements, in any mixture, is read as what it lists. */
  lemma ElementsParse(unit: string, specs: seq<Spec>)
    requires Elements(specs) && Bare(unit) && Free(unit, "=")
    ensures ParseHeader(unit + "=" + Join(ElementTexts(specs), ", ")) == Some((unit, specs))
  {
    var tokens := ElementTexts(specs);
    forall i | 0 <= i < |specs| ensures Plain(tokens[i]) && ParseSpec(tokens[i]) == Some(specs[i]) {
      ElementParses(specs[i]);
    }
    JoinedPlain(tokens);
    assert [','] + " " == ", ";
    SplitJoin(tokens, ',', " ", ",");
    CollectIs(ParseSpec, tokens, specs);
    ListParses(unit, Join(tokens, ", "), specs);
  }

  /** The element that a printed subrange names. */
  function Named(r: Subrange): Spec
    requires 0 < r.length && r.offset + r.length <= WORD
  {
    Between(r.offset, r.offset + r.length - 1)
  }

  function NamedAll(rs: seq<Subrange>): (specs: seq<Spec>)
    requires Printable(rs)
    ensures |specs| == |rs| && forall i | 0 <= i < |rs| :: specs[i] == Named(rs[i])
  {
    seq(|rs|, i requires 0 <= i < |rs| => Named(rs[i]))
  }

  lemma BetweenResolves(r: Subrange, total: uint64)
    requires 0 < r.length && r.offset + r.length <= WORD
    ensures Resolve(Between(r.offset, r.offset + r.length - 1), total) == r
  {
  }

  lemma NamedResolve(rs: seq<Subrange>, total: uint64)
    requires Printable(rs)
    ensures Resolved(NamedAll(rs), total) == rs
  {
    forall i | 0 <= i < |rs| ensures Resolve(NamedAll(rs)[i], total) == rs[i] { BetweenResolves(rs[i], total); }
  }

  /** Print then parse is the identity on ranges of positive length whose last byte a word can number. */
  lemma RangeRoundTrip(unit: string, rs: seq<Subrange>, total: uint64)
    requires Printable(rs) && Bare(unit) && Free(unit, "=")
    ensures
      var r := ParseHeader(Print(unit, rs));
      r.Some? && r.value.0 == unit && Resolved(r.value.1, total) == rs
  {
    assert PrintSpecs(rs) == ElementTexts(NamedAll(rs));
    ElementsParse(unit, NamedAll(rs));
    NamedResolve(rs, total);
  }

  lemma SuffixSplits(unit: string, digits: string)
    requires Bare(unit) && Free(unit, "=") && Digits(digits)
    ensures Split(unit + "=" + ("-" + digits), "=") == [unit, "-" + digits]
  {
    var list := "-" + digits;
    assert list[0] == '-' && list[|list| - 1] == digits[|digits| - 1];
    assert forall i | 0 <= i < |list| :: IsDigit(list[i]) || list[i] == '-';
    UnitSplits(unit, list);
  }

  /** `-count` is a suffix: the last bytes, however many there are. */
  lemma SuffixParses(unit: string, n: uint64)
    requires Bare(unit) && Free(unit, "=")
    ensures ParseHeader(unit + "=-" + ToString(n)) == Some((unit, [Suffix(n)]))
  {
    var list := "-" + ToString(n);
    SuffixSplits(unit, ToString(n));
    FromToString(n);
    assert list[1..] == ToString(n) && "-" <= list;
    assert unit + "=-" + ToString(n) == unit + "=" + list by {
      assert "=-" == "=" + "-";
      Associative(unit + "=", "-", ToString(n));
      assert unit + "=-" == (unit + "=") + "-";
    }
  }

  // ---------------------------------------------------------------- single headers

  function ClosedHeader(x: uint64, y: uint64): string {
    "bytes" + "=" + (ToString(x) + "-" + ToString(y))
  }

  /** A header with one closed range is read as that range. */
  lemma ClosedHeaderParses(x: uint64, y: uint64)
    requires x <= y
    ensures ParseHeader(ClosedHeader(x, y)) == Some(("bytes", [Between(x, y)]))
  {
    ElementsParse("bytes", [Between(x, y)]);
    assert ElementTexts([Between(x, y)]) == [ToString(x) + "-" + ToString(y)];
  }

  lemma NextDigit(n: nat, d: nat, s: string)
    requires 0 < n && d < 10 && ToString(n) == s
    ensures ToString(n * 10 + d) == s + [('0' as int + d) as char]
  {
    assert (n * 10 + d) / 10 == n && (n * 10 + d) % 10 == d;
  }

  lemma ShortText()
    ensures ClosedHeader(0, 999) == "bytes=0-999"
  {
    NextDigit(9, 9, "9");
    NextDigit(99, 9, "99");
    assert "bytes" + "=" + ("0" + "-" + "999") == "bytes=0-999";
  }

  lemma LongText()
    ensures ClosedHeader(0, WORD - 1) == "bytes=0-18446744073709551615"
  {
    LastWordText();
    assert "bytes" + "=" + ("0" + "-" + "18446744073709551615") == "bytes=0-18446744073709551615";
  }

  lemma LastWordText()
    ensures ToString(WORD - 1) == "18446744073709551615"
  {
    LastWordSixteen();
    NextDigit(1844674407370955, 1, "1844674407370955");
    NextDigit(18446744073709551, 6, "18446744073709551");
    NextDigit(184467440737095516, 1, "184467440737095516");
    NextDigit(1844674407370955161, 5, "1844674407370955161");
  }

  lemma LastWordSixteen()
    ensures ToString(1844674407370955) == "1844674407370955"
  {
    LastWordTwelve();
    NextDigit(184467440737, 0, "184467440737");
    NextDigit(1844674407370, 9, "1844674407370");
    NextDigit(18446744073709, 5, "18446744073709");
    NextDigit(184467440737095, 5, "184467440737095");
  }

  lemma LastWordTwelve()
    ensures ToString(184467440737) == "184467440737"
  {
    LastWordEight();
    NextDigit(18446744, 0, "18446744");
    NextDigit(184467440, 7, "184467440");
    NextDigit(1844674407, 3, "1844674407");
    NextDigit(18446744073, 7, "18446744073");
  }

  lemma LastWordEight()
    ensures ToString(18446744) == "18446744"
  {
    LastWordFour();
    NextDigit(1844, 6, "1844");
    NextDigit(18446, 7, "18446");
    NextDigit(184467, 4, "184467");
    NextDigit(1844674, 4, "1844674");
  }

  lemma LastWordFour()
    ensures ToString(1844) == "1844"
  {
    NextDigit(1, 8, "1");
    NextDigit(18, 4, "18");
    NextDigit(184, 4, "184");
  }
}
