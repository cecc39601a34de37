/** Entity tags and the `If-None-Match` list: printing, parsing, and the two undoing each other. */
module EntityTags {
  import opened Wrappers
  import opened Strings

  datatype EntityTag = EntityTag(strong: bool, value: string)

  predicate ValidChar(c: char) {
    0x21 <= c as int < 0x80 && c != '\"'
  }

  predicate ValidValue(v: string) {
    forall i | 0 <= i < |v| :: ValidChar(v[i])
  }

  function Print(tag: EntityTag): string {
    (if tag.strong then "" else "W/") + "\"" + tag.value + "\""
  }

  function ParseTag(input: string): Option<EntityTag> {
    var strong := !("W/" <= input);
    var quoted := if strong then input else input[2..];
    if |quoted| >= 2 && quoted[0] == '\"' && quoted[|quoted| - 1] == '\"' then
      var value := quoted[1..|quoted| - 1];
      if ValidValue(value) then Some(EntityTag(strong, value)) else None
    else None
  }

  /** The parser narrows its input and then looks at every character. */
  method ParseOne(input: string) returns (r: Option<EntityTag>)
    ensures r == ParseTag(input)
  {
    var strong, rest := true, input;
    if "W/" <= rest {
      strong := false;
      rest := rest[2..];
    }
    if |rest| >= 2 && rest[0] == '\"' && rest[|rest| - 1] == '\"' {
      ghost var value := rest[1..|rest| - 1];
      rest := rest[1..];
      rest := rest[..|rest| - 1];
      assert rest == value;
      for i := 0 to |rest|
        invariant forall k | 0 <= k < i :: ValidChar(rest[k])
      {
        if !ValidChar(rest[i]) { return None; }
      }
      return Some(EntityTag(strong, rest));
    }
    return None;
  }

  /** A tag survives printing and parsing exactly when its value is made of entity-tag characters. */
  lemma TagRoundTrip(tag: EntityTag)
    ensures ParseTag(Print(tag)) == Some(tag) <==> ValidValue(tag.value)
  {
    var s := Print(tag);
    var quoted := "\"" + tag.value + "\"";
    assert quoted[1..|quoted| - 1] == tag.value;
    if tag.strong {
      assert s == quoted;
      assert s[0] == '\"';
    } else {
      assert s == "W/" + quoted && s[2..] == quoted && s[..2] == "W/";
    }
  }

  /** What parses is what was printed: nothing else is accepted. */
  lemma ParsedPrints(input: string)
    requires ParseTag(input).Some?
    ensures Print(ParseTag(input).value) == input && ValidValue(ParseTag(input).value.value)
  {
    if "W/" <= input {
      Requoted(input[2..]);
      assert input == "W/" + input[2..];
    } else {
      Requoted(input);
    }
  }

  lemma Requoted(quoted: string)
    requires |quoted| >= 2 && quoted[0] == '\"' && quoted[|quoted| - 1] == '\"'
    ensures "\"" + quoted[1..|quoted| - 1] + "\"" == quoted
  {
  }

  // ---------------------------------------------------------------- the list

  /** No tags stands for `*`. */
  datatype IfNoneMatch = IfNoneMatch(etags: seq<EntityTag>)

  predicate IsAny(m: IfNoneMatch) {
    m.etags == []
  }

  /** All tokens parsed, or None at the first that does not. */
  function ParseAll(tokens: seq<string>): Option<seq<EntityTag>> {
    Collect(ParseTag, tokens)
  }

  function ParseList(input: string): Option<IfNoneMatch> {
    var text := Trimmed(input);
    if text == "*" then Some(IfNoneMatch([])) else
    var etags := ParseAll(Split(text, ","));
    if etags.None? then None else Some(IfNoneMatch(etags.value))
  }

  method Parse(input: string) returns (r: Option<IfNoneMatch>)
    ensures r == ParseList(input)
  {
    var text := Trim(input);
    if text == "*" { return Some(IfNoneMatch([])); }
    var etags := [];
    var tokens := SplitOf(text, ",");
    for i := 0 to |tokens|
      invariant ParseAll(tokens[..i]) == Some(etags)
    {
      var etag := ParseOne(tokens[i]);
      if etag.None? {
        CollectFails(ParseTag, tokens, i);
        return None;
      }
      CollectNext(ParseTag, tokens, i, etags, etag.value);
      etags := etags + [etag.value];
    }
    assert tokens[..|tokens|] == tokens;
    return Some(IfNoneMatch(etags));
  }

  function Printed(tags: seq<EntityTag>): (r: seq<string>)
    ensures |r| == |tags| && forall i | 0 <= i < |tags| :: r[i] == Print(tags[i])
  {
    seq(|tags|, i requires 0 <= i < |tags| => Print(tags[i]))
  }

  function PrintList(tags: seq<EntityTag>): string {
    Join(Printed(tags), ", ")
  }

  /** A tag that a comma-separated list can carry. */
  predicate Listable(tag: EntityTag) {
    ValidValue(tag.value) && Free(tag.value, ",")
  }

  lemma PrintedToken(tag: EntityTag)
    requires Listable(tag)
    ensures Bare(Print(tag)) && Free(Print(tag), ",")
  {
  }

  /** Bare, and longer than the star. */
  predicate Enclosed(s: string) {
    |s| >= 2 && Bare(s)
  }

  lemma EnclosedTwo(a: string, sep: string, b: string)
    requires Enclosed(a) && Enclosed(b)
    ensures Enclosed(a + sep + b)
  {
    var s := a + sep + b;
    assert s[0] == a[0] && s[|s| - 1] == b[|b| - 1];
  }

  lemma {:induction false} JoinedEnclosed(tokens: seq<string>, sep: string)
    requires tokens != [] && forall i | 0 <= i < |tokens| :: Enclosed(tokens[i])
    ensures Enclosed(Join(tokens, sep))
    decreases |tokens|
  {
    if |tokens| == 1 {
    } else {
      JoinedEnclosed(tokens[1..], sep);
      EnclosedTwo(tokens[0], sep, Join(tokens[1..], sep));
    }
  }

  lemma PrintedTokens(tags: seq<EntityTag>)
    requires forall i | 0 <= i < |tags| :: Listable(tags[i])
    ensures ParseAll(Printed(tags)) == Some(tags)
    ensures forall i | 0 <= i < |tags| :: Bare(Printed(tags)[i]) && Free(Printed(tags)[i], ",")
  {
    var tokens := Printed(tags);
    forall i | 0 <= i < |tags| ensures Bare(tokens[i]) && Free(tokens[i], ",") && ParseTag(tokens[i]) == Some(tags[i]) {
      PrintedToken(tags[i]);
      TagRoundTrip(tags[i]);
    }
    CollectIs(ParseTag, tokens, tags);
  }

  /** Tags that a list can carry come back from the printed list. */
  lemma ListParses(tags: seq<EntityTag>)
    requires tags != [] && forall i | 0 <= i < |tags| :: Listable(tags[i])
    ensures ParseList(PrintList(tags)) == Some(IfNoneMatch(tags))
  {
    PrintedTokens(tags);
    assert [','] + " " == ", ";
    SplitJoin(Printed(tags), ',', " ", ",");
    PrintListEnds(tags);
    BareTrims(PrintList(tags));
  }

  lemma PrintListEnds(tags: seq<EntityTag>)
    requires tags != []
    ensures Bare(PrintList(tags)) && PrintList(tags) != "*"
  {
    JoinedEnclosed(Printed(tags), ", ");
  }

  /** Whatever parses as a list of tags is a list of tags that a list can carry. */
  lemma ParsedListable(input: string, tags: seq<EntityTag>)
    requires ParseList(input) == Some(IfNoneMatch(tags)) && tags != []
    ensures forall i | 0 <= i < |tags| :: Listable(tags[i])
  {
    var tokens := Split(Trimmed(input), ",");
    SplitPieces(Trimmed(input), ",");
    forall i | 0 <= i < |tags| ensures Listable(tags[i]) {
      CollectAt(ParseTag, tokens, i);
      assert tokens[i] in tokens;
      ParsedPrints(tokens[i]);
      InnerFree(tags[i]);
    }
  }

  lemma InnerFree(tag: EntityTag)
    requires Free(Print(tag), ",")
    ensures Free(tag.value, ",")
  {
    var k := if tag.strong then 1 else 3;
    assert forall i | 0 <= i < |tag.value| :: Print(tag)[k + i] == tag.value[i];
  }

  /** Print then parse is the identity exactly on the non-empty lists of valid, comma-free tags. */
  lemma ListRoundTrip(tags: seq<EntityTag>)
    ensures ParseList(PrintList(tags)) == Some(IfNoneMatch(tags))
       <==> tags != [] && forall i | 0 <= i < |tags| :: Listable(tags[i])
  {
    if tags == [] {
      assert PrintList(tags) == "" && Trimmed("") == "";
      SplitNone("", ",");
      assert ParseTag(Split("", ",")[0]).None?;
    } else if ParseList(PrintList(tags)) == Some(IfNoneMatch(tags)) {
      ParsedListable(PrintList(tags), tags);
    } else if forall i | 0 <= i < |tags| :: Listable(tags[i]) {
      ListParses(tags);
    }
  }

  // ---------------------------------------------------------------- not modified?

  predicate WeaklyEqual(a: EntityTag, b: EntityTag) {
    a.value == b.value
  }

  /** None for a malformed header; otherwise does the header name the current tag? */
  function MatchesTag(header: string, current: EntityTag): Option<bool> {
    match ParseList(header)
    case None => None
    case Some(m) => Some(IsAny(m) || exists i | 0 <= i < |m.etags| :: WeaklyEqual(current, m.etags[i]))
  }

  /** Sent a list of tags, the answer is yes exactly if one of them has the current tag's value. */
  lemma MatchesExactly(tags: seq<EntityTag>, current: EntityTag)
    requires tags != [] && forall i | 0 <= i < |tags| :: Listable(tags[i])
    ensures MatchesTag(PrintList(tags), current) == Some(exists i | 0 <= i < |tags| :: tags[i].value == current.value)
  {
    ListParses(tags);
    assert forall i | 0 <= i < |tags| :: WeaklyEqual(current, tags[i]) <==> tags[i].value == current.value;
  }

  /** The star, with any blanks around it, stands for every tag. */
  lemma StarMatches(header: string, current: EntityTag)
    requires Trimmed(header) == "*"
    ensures MatchesTag(header, current) == Some(true)
  {
  }

  /** The characters of a value: all that are visible, but the quote, and the control character 0x7f. */
  lemma ValueChars(c: char)
    ensures ParseTag("\"" + [c] + "\"").Some? <==> '!' <= c && c as int <= 0x7f && c != '\"'
  {
    var s := "\"" + [c] + "\"";
    assert s[0] == '\"' && s[1..|s| - 1] == [c];
    assert !("W/" <= s);
    assert ValidValue([c]) <==> ValidChar([c][0]);
  }

  /** How tags are written. */
  lemma TagTexts()
    ensures ParseTag("\"ab\"") == Some(EntityTag(true, "ab"))
    ensures ParseTag("W/\"ab\"") == Some(EntityTag(false, "ab"))
    ensures PrintList([EntityTag(true, "ab"), EntityTag(false, "c")]) == "\"ab\", W/\"c\""
  {
    TagRoundTrip(EntityTag(true, "ab"));
    TagRoundTrip(EntityTag(false, "ab"));
    assert Print(EntityTag(true, "ab")) == "\"ab\"" && Print(EntityTag(false, "ab")) == "W/\"ab\"";
    TwoPrinted(EntityTag(true, "ab"), EntityTag(false, "c"));
    assert Print(EntityTag(false, "c")) == "W/\"c\"" && "\"ab\"" + ", " + "W/\"c\"" == "\"ab\", W/\"c\"";
  }

  lemma TwoPrinted(a: EntityTag, b: EntityTag)
    ensures PrintList([a, b]) == Print(a) + ", " + Print(b)
  {
    var tokens := Printed([a, b]);
    assert tokens[0] == Print(a) && tokens[1] == Print(b);
    assert tokens[1..] == [Print(b)] && Join([Print(b)], ", ") == Print(b);
  }

  /** A client that sends back a tag it was given, weak or strong, in any list, is told nothing changed. */
  lemma SentBackMatches(tags: seq<EntityTag>, current: EntityTag, k: nat)
    requires k < |tags| && tags[k].value == current.value
    requires forall i | 0 <= i < |tags| :: Listable(tags[i])
    ensures MatchesTag(PrintList(tags), current) == Some(true)
  {
    ListParses(tags);
    assert WeaklyEqual(current, tags[k]);
  }
}
