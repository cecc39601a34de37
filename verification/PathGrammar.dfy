/** The pattern scanner as a state machine over the remaining text, and its two inverse laws with
    the printer: it accepts exactly the printed forms of well-formed token lists. */
module PathGrammar {
  import opened Basics
  import opened Wrappers
  import opened PathTokens

  /** The scanner between two steps: the kind of the open token, the finished tokens, the text of
      the open one, and the character last read, if any. */
  datatype State = State(kind: Kind, done: seq<Token>, cur: string, prev: Option<char>)

  const START := State(Static, [], "", None)

  function Scan(wildcard: bool, st: State, rest: string): Option<seq<Token>>
    decreases |rest|
  {
    if rest == "" then Finish(st) else
    match st.kind
    case Static =>
      if rest[0] == '{' then
        if st.prev != Some('/') then None
        else Scan(wildcard, State(Param, st.done + [Token(Static, st.cur)], "", Some('{')), rest[1..])
      else if rest[0] == '#' then
        if !wildcard then None
        else Scan(wildcard, State(Wildcard, st.done + [Token(Static, st.cur)], "", Some('#')), rest[1..])
      else ScanUnit(wildcard, st, rest)
    case Param =>
      if rest[0] == '}' then
        if st.cur == "" || !Fresh(st.done, st.cur) || (|rest| > 1 && rest[1] != '/') then None
        else Scan(wildcard, State(Static, st.done + [Token(Param, st.cur)], "", Some('}')), rest[1..])
      else ScanUnit(wildcard, st, rest)
    case Wildcard => ScanUnit(wildcard, st, rest)
  }

  function ScanUnit(wildcard: bool, st: State, rest: string): Option<seq<Token>>
    requires rest != ""
    decreases |rest|, 0
  {
    var k := UnitLength(rest, st.kind == Static);
    if k == 0 then None
    else Scan(wildcard, st.(cur := st.cur + rest[..k], prev := Some(rest[k - 1])), rest[k..])
  }

  function Finish(st: State): Option<seq<Token>> {
    match st.kind
    case Static => Some(if st.cur == "" then st.done else st.done + [Token(Static, st.cur)])
    case Param => None
    case Wildcard =>
      if st.cur == "" || !Fresh(st.done, st.cur) then None else Some(st.done + [Token(Wildcard, st.cur)])
  }

  /** What the pattern parser makes of a pattern. */
  function Parse(wildcard: bool, pattern: string): Option<seq<Token>> {
    Scan(wildcard, START, pattern)
  }

  predicate HasWildcard(ts: seq<Token>) {
    exists t | t in ts :: t.kind == Wildcard
  }

  /** The grammar: well-formed token lists, without a wildcard where none is allowed. */
  predicate Grammatical(wildcard: bool, ts: seq<Token>) {
    WellFormed(ts) && (wildcard || !HasWildcard(ts))
  }

  function Open(kind: Kind): string {
    match kind
    case Static => ""
    case Param => "{"
    case Wildcard => "#"
  }

  // ---------------------------------------------------------------- text

  lemma UnitAppend(a: string, b: string, slashes: bool)
    requires UnitLength(a, slashes) > 0
    ensures UnitLength(a + b, slashes) == UnitLength(a, slashes)
    ensures (a + b)[UnitLength(a, slashes)..] == a[UnitLength(a, slashes)..] + b
  {
    assert (a + b)[0] == a[0];
    if |a| >= 3 { assert (a + b)[1] == a[1] && (a + b)[2] == a[2]; }
  }

  lemma {:induction false} TextAppend(a: string, b: string, slashes: bool)
    requires IsText(a, slashes) && IsText(b, slashes)
    ensures IsText(a + b, slashes)
  {
    if a == "" {
      assert a + b == b;
    } else {
      UnitAppend(a, b, slashes);
      TextAppend(a[UnitLength(a, slashes)..], b, slashes);
    }
  }

  lemma UnitIsText(s: string, slashes: bool)
    requires UnitLength(s, slashes) > 0
    ensures IsText(s[..UnitLength(s, slashes)], slashes)
  {
    var u := s[..UnitLength(s, slashes)];
    assert UnitLength(u, slashes) == |u| && u[|u|..] == "";
  }

  /** The characters that mark the boundaries of tokens. */
  predicate IsMark(c: char) {
    c == '{' || c == '}' || c == '#'
  }

  lemma {:induction false} TextHasNoMark(s: string, slashes: bool)
    requires IsText(s, slashes)
    ensures forall c | c in s :: !IsMark(c) && (slashes || c != '/')
  {
    if s == "" {
    } else {
      var k := UnitLength(s, slashes);
      TextHasNoMark(s[k..], slashes);
      assert s == s[..k] + s[k..];
    }
  }

  // ---------------------------------------------------------------- soundness

  /** What the scanner knows between two steps. */
  ghost predicate Sound(st: State, rest: string) {
    && Chained(st.done)
    && IsText(st.cur, st.kind == Static)
    && FollowsOpen(st, rest)
  }

  ghost predicate FollowsOpen(st: State, rest: string) {
    match st.kind
    case Static =>
      && (st.done != [] ==>
            st.done[|st.done| - 1].kind == Param && (st.cur + rest == "" || (st.cur + rest)[0] == '/'))
      && (st.prev == Some('/') ==> EndsWithSlash(st.cur))
    case Param => st.done != [] && st.done[|st.done| - 1].kind == Static && EndsWithSlash(st.done[|st.done| - 1].value)
    case Wildcard => st.done != [] && st.done[|st.done| - 1].kind == Static
  }

  /** The text read so far, seen from a state, and the text to come. */
  function Whole(st: State, rest: string): string {
    Print(st.done) + (Open(st.kind) + (st.cur + rest))
  }

  ghost predicate Reads(wildcard: bool, st: State, rest: string) {
    ReadsAs(Scan(wildcard, st, rest), wildcard, st, rest)
  }

  ghost predicate ReadsAs(read: Option<seq<Token>>, wildcard: bool, st: State, rest: string) {
    match read
    case None => true
    case Some(ts) =>
      && WellFormed(ts)
      && Print(ts) == Whole(st, rest)
      && (!wildcard && !HasWildcard(st.done) && st.kind != Wildcard ==> !HasWildcard(ts))
  }

  /** Whatever the scanner returns is well formed and prints to the text it read. */
  lemma {:induction false} ScanSound(wildcard: bool, st: State, rest: string)
    requires Sound(st, rest)
    ensures Reads(wildcard, st, rest)
    decreases |rest|
  {
    if rest == "" {
      FinishSound(wildcard, st);
    } else if st.kind == Static && (rest[0] == '{' || rest[0] == '#') {
      if Scan(wildcard, st, rest).Some? {
        var next := CloseText(st, rest);
        ScanSound(wildcard, next, rest[1..]);
        SameReading(wildcard, st, rest, next, rest[1..]);
      }
    } else if st.kind == Param && rest[0] == '}' {
      if Scan(wildcard, st, rest).Some? {
        var next := CloseParam(st, rest);
        ScanSound(wildcard, next, rest[1..]);
        SameReading(wildcard, st, rest, next, rest[1..]);
      }
    } else if UnitLength(rest, st.kind == Static) > 0 {
      var more := rest[UnitLength(rest, st.kind == Static)..];
      var next := ReadUnit(st, rest);
      ScanSound(wildcard, next, more);
      SameReading(wildcard, st, rest, next, more);
    }
  }

  lemma SameReading(wildcard: bool, st: State, rest: string, next: State, more: string)
    requires Reads(wildcard, next, more) && Scan(wildcard, st, rest) == Scan(wildcard, next, more)
    requires Whole(next, more) == Whole(st, rest) && HasWildcard(next.done) == HasWildcard(st.done)
    requires next.kind == Wildcard ==> wildcard || st.kind == Wildcard
    ensures Reads(wildcard, st, rest)
  {
  }

  lemma FinishSound(wildcard: bool, st: State)
    requires Sound(st, "")
    ensures ReadsAs(Finish(st), wildcard, st, "")
  {
    assert st.cur + "" == st.cur;
    if st.kind == Static && st.cur == "" {
      assert Print(st.done) + ("" + "") == Print(st.done);
    } else if Finish(st).Some? {
      FinishToken(st);
      WildcardInLast(st.done, Token(st.kind, st.cur));
    }
  }

  /** The token left open at the end can be added, and prints to the text that was read of it. */
  lemma FinishToken(st: State)
    requires Sound(st, "") && st.cur != "" && Finish(st).Some?
    ensures var ts := st.done + [Token(st.kind, st.cur)];
      WellFormed(ts) && Print(ts) == Print(st.done) + (Open(st.kind) + st.cur)
  {
    var t := Token(st.kind, st.cur);
    assert st.cur + "" == st.cur;
    ChainedAppend(st.done, t);
    PrintLast(st.done, t);
    assert PrintToken(t) == Open(st.kind) + st.cur;
  }

  lemma ReadUnit(st: State, rest: string) returns (next: State)
    requires Sound(st, rest) && UnitLength(rest, st.kind == Static) > 0
    ensures var k := UnitLength(rest, st.kind == Static);
      && next == st.(cur := st.cur + rest[..k], prev := Some(rest[k - 1]))
      && Sound(next, rest[k..]) && Whole(next, rest[k..]) == Whole(st, rest)
  {
    var slashes := st.kind == Static;
    var k := UnitLength(rest, slashes);
    next := st.(cur := st.cur + rest[..k], prev := Some(rest[k - 1]));
    UnitIsText(rest, slashes);
    TextAppend(st.cur, rest[..k], slashes);
    assert rest == rest[..k] + rest[k..];
    Associative(st.cur, rest[..k], rest[k..]);
    assert next.cur[|next.cur| - 1] == rest[k - 1];
  }

  lemma CloseText(st: State, rest: string) returns (next: State)
    requires Sound(st, rest) && rest != "" && st.kind == Static
    requires rest[0] == '#' || (rest[0] == '{' && st.prev == Some('/'))
    ensures next == State(
      if rest[0] == '{' then Param else Wildcard, st.done + [Token(Static, st.cur)], "", Some(rest[0]))
    ensures Sound(next, rest[1..]) && Whole(next, rest[1..]) == Whole(st, rest)
    ensures HasWildcard(next.done) == HasWildcard(st.done)
  {
    next := State(if rest[0] == '{' then Param else Wildcard, st.done + [Token(Static, st.cur)], "", Some(rest[0]));
    CloseTextSound(st, rest);
    PrintLast(st.done, Token(Static, st.cur));
    GlueText(Print(st.done), st.cur, Open(next.kind), rest);
    WildcardInLast(st.done, Token(Static, st.cur));
  }

  lemma CloseTextSound(st: State, rest: string)
    requires Sound(st, rest) && rest != "" && st.kind == Static && (rest[0] == '#' || rest[0] == '{')
    ensures LinkOk(st.done, Token(Static, st.cur)) && Chained(st.done + [Token(Static, st.cur)])
  {
    if st.cur == "" { assert st.cur + rest == rest; } else { assert (st.cur + rest)[0] == st.cur[0]; }
    ChainedAppend(st.done, Token(Static, st.cur));
  }

  lemma GlueText(before: string, text: string, mark: string, rest: string)
    requires rest != "" && mark == [rest[0]]
    ensures (before + text) + (mark + ("" + rest[1..])) == before + ("" + (text + rest))
  {
    assert mark + ("" + rest[1..]) == rest;
    Associative(before, text, rest);
    assert "" + (text + rest) == text + rest;
  }

  lemma CloseParam(st: State, rest: string) returns (next: State)
    requires Sound(st, rest) && rest != "" && st.kind == Param && rest[0] == '}'
    requires st.cur != "" && Fresh(st.done, st.cur) && (|rest| > 1 ==> rest[1] == '/')
    ensures next == State(Static, st.done + [Token(Param, st.cur)], "", Some('}'))
    ensures Sound(next, rest[1..]) && Whole(next, rest[1..]) == Whole(st, rest)
    ensures HasWildcard(next.done) == HasWildcard(st.done)
  {
    var t := Token(Param, st.cur);
    next := State(Static, st.done + [t], "", Some('}'));
    ChainedAppend(st.done, t);
    PrintLast(st.done, t);
    assert "" + rest[1..] == rest[1..];
    GlueParam(Print(st.done), st.cur, rest);
    WildcardInLast(st.done, t);
  }

  lemma GlueParam(before: string, name: string, rest: string)
    requires rest != "" && rest[0] == '}'
    ensures (before + ("{" + name + "}")) + ("" + ("" + rest[1..])) == before + ("{" + (name + rest))
  {
    assert ("{" + name + "}") + ("" + ("" + rest[1..])) == "{" + (name + rest);
    Associative(before, "{" + name + "}", "" + ("" + rest[1..]));
  }

  // ---------------------------------------------------------------- completeness

  /** Text is read unit by unit into the open token. */
  lemma {:induction false} ScanText(wildcard: bool, st: State, text: string, more: string)
    requires IsText(text, st.kind == Static)
    ensures var prev := if text == "" then st.prev else Some(text[|text| - 1]);
      Scan(wildcard, st, text + more) == Scan(wildcard, st.(cur := st.cur + text, prev := prev), more)
    decreases |text|
  {
    if text == "" {
      assert text + more == more && st.cur + text == st.cur;
    } else {
      var k := UnitLength(text, st.kind == Static);
      var next := ScanOneUnit(wildcard, st, text, more);
      ScanText(wildcard, next, text[k..], more);
      Associative(st.cur, text[..k], text[k..]);
      assert text == text[..k] + text[k..];
    }
  }

  lemma ScanOneUnit(wildcard: bool, st: State, text: string, more: string) returns (next: State)
    requires text != "" && IsText(text, st.kind == Static)
    ensures var k := UnitLength(text, st.kind == Static);
      && next == st.(cur := st.cur + text[..k], prev := Some(text[k - 1]))
      && Scan(wildcard, st, text + more) == Scan(wildcard, next, text[k..] + more)
  {
    var slashes := st.kind == Static;
    var k, rest := UnitLength(text, slashes), text + more;
    next := st.(cur := st.cur + text[..k], prev := Some(text[k - 1]));
    TextHasNoMark(text, slashes);
    UnitAppend(text, more, slashes);
    assert rest[0] == text[0] && text[0] in text && rest[..k] == text[..k];
  }

  /** The state of the scanner once it has read the printed form of `ts`. */
  function After(ts: seq<Token>): State {
    if ts == [] then START else
    var left, t := ts[..|ts| - 1], ts[|ts| - 1];
    if t.kind == Param then State(Static, ts, "", Some('}'))
    else State(t.kind, left, t.value, if t.value == "" then None else Some(t.value[|t.value| - 1]))
  }

  /** A parameter must be followed by a slash or by nothing. */
  predicate Continues(ts: seq<Token>, more: string) {
    ts != [] && ts[|ts| - 1].kind == Param ==> more == "" || more[0] == '/'
  }

  /** The scanner reads the printed form of a chained list as that list, whatever comes next. */
  lemma {:induction false} ScanPrinted(wildcard: bool, ts: seq<Token>, more: string)
    requires Chained(ts) && (wildcard || !HasWildcard(ts)) && Continues(ts, more)
    ensures Scan(wildcard, START, Print(ts) + more) == Scan(wildcard, After(ts), more)
  {
    if ts == [] {
      assert Print(ts) + more == more;
    } else {
      var left, t := ts[..|ts| - 1], ts[|ts| - 1];
      assert ts == left + [t];
      WildcardInLast(left, t);
      ScanPrinted(wildcard, left, PrintToken(t) + more);
      Associative(Print(left), PrintToken(t), more);
      ScanToken(wildcard, left, t, more);
    }
  }

  lemma ScanToken(wildcard: bool, left: seq<Token>, t: Token, more: string)
    requires LinkOk(left, t) && (wildcard || t.kind != Wildcard) && (t.kind == Param ==> more == "" || more[0] == '/')
    ensures Scan(wildcard, After(left), PrintToken(t) + more) == Scan(wildcard, After(left + [t]), more)
  {
    AfterLast(left, t);
    match t.kind
    case Static => ReadText(wildcard, After(left), t.value, more);
    case Param => ReadParam(wildcard, left, t.value, more);
    case Wildcard => ReadWildcard(left, t.value, more);
  }

  lemma AfterLast(left: seq<Token>, t: Token)
    ensures After(left + [t]) == if t.kind == Param then State(Static, left + [t], "", Some('}'))
      else State(t.kind, left, t.value, if t.value == "" then None else Some(t.value[|t.value| - 1]))
  {
    assert (left + [t])[..|left|] == left;
  }

  lemma ReadText(wildcard: bool, st: State, text: string, more: string)
    requires st.kind == Static && st.cur == "" && IsText(text, true)
    requires text == "" ==> st.prev == None
    ensures Scan(wildcard, st, text + more)
         == Scan(wildcard, State(Static, st.done, text, if text == "" then None else Some(text[|text| - 1])), more)
  {
    ScanText(wildcard, st, text, more);
    assert "" + text == text;
  }

  /** A parameter is read from its brace to just behind the closing one, or refused there. */
  lemma ReadParam(wildcard: bool, left: seq<Token>, name: string, more: string)
    requires TokenOk(Token(Param, name)) && FollowsOk(left, Token(Param, name))
    ensures Scan(wildcard, After(left), PrintToken(Token(Param, name)) + more)
         == if Fresh(left, name) && (more == "" || more[0] == '/')
            then Scan(wildcard, State(Static, left + [Token(Param, name)], "", Some('}')), more)
            else None
  {
    var st, close := After(left), "}" + more;
    var rest := PrintToken(Token(Param, name)) + more;
    LastText(left);
    assert rest[0] == '{' && rest[1..] == name + close;
    ScanText(wildcard, State(Param, left, "", Some('{')), name, close);
    assert "" + name == name && close[0] == '}' && close[1..] == more;
    assert more != "" ==> close[1] == more[0];
  }

  lemma ReadWildcard(left: seq<Token>, name: string, more: string)
    requires TokenOk(Token(Wildcard, name)) && FollowsOk(left, Token(Wildcard, name))
    ensures Scan(true, After(left), PrintToken(Token(Wildcard, name)) + more)
         == Scan(true, State(Wildcard, left, name, Some(name[|name| - 1])), more)
  {
    var rest := PrintToken(Token(Wildcard, name)) + more;
    LastText(left);
    assert rest[0] == '#' && rest[1..] == name + more;
    ScanText(true, State(Wildcard, left, "", Some('#')), name, more);
    assert "" + name == name;
  }

  lemma LastText(left: seq<Token>)
    requires left != [] && left[|left| - 1].kind == Static
    ensures After(left).done + [Token(Static, After(left).cur)] == left
  {
  }

  // ---------------------------------------------------------------- the two inverse laws

  /** Parsing a printed well-formed list gives back the list. */
  lemma ParsePrint(wildcard: bool, ts: seq<Token>)
    requires Grammatical(wildcard, ts)
    ensures Parse(wildcard, Print(ts)) == Some(ts)
  {
    ScanPrinted(wildcard, ts, "");
    assert Print(ts) + "" == Print(ts);
    FinishAfter(ts);
  }

  lemma FinishAfter(ts: seq<Token>)
    requires WellFormed(ts)
    ensures Finish(After(ts)) == Some(ts)
  {
    if ts != [] { assert ts == ts[..|ts| - 1] + [ts[|ts| - 1]]; }
  }

  /** Printing what was parsed gives back the pattern. */
  lemma PrintParse(wildcard: bool, pattern: string)
    requires Parse(wildcard, pattern).Some?
    ensures Grammatical(wildcard, Parse(wildcard, pattern).value)
    ensures Print(Parse(wildcard, pattern).value) == pattern
  {
    ScanSound(wildcard, START, pattern);
    assert Whole(START, pattern) == pattern;
  }

  /** The parser accepts exactly the printed forms of the grammar. */
  lemma AcceptsExactlyGrammar(wildcard: bool, pattern: string)
    ensures Parse(wildcard, pattern).Some? <==> exists ts :: Grammatical(wildcard, ts) && Print(ts) == pattern
  {
    if Parse(wildcard, pattern).Some? { PrintParse(wildcard, pattern); }
    if ts :| Grammatical(wildcard, ts) && Print(ts) == pattern { ParsePrint(wildcard, ts); }
  }

  /** The scope parser is the route parser restricted to patterns without `#`. */
  lemma ScopeParserIsRestriction(pattern: string)
    ensures Parse(false, pattern) == if '#' in pattern then None else Parse(true, pattern)
  {
    if Parse(true, pattern).Some? {
      PrintParse(true, pattern);
      var ts := Parse(true, pattern).value;
      MarkOfWildcard(ts);
      if !HasWildcard(ts) { ParsePrint(false, ts); }
    }
    if Parse(false, pattern).Some? {
      PrintParse(false, pattern);
      MarkOfWildcard(Parse(false, pattern).value);
      ParsePrint(true, Parse(false, pattern).value);
    }
  }

  lemma {:induction false} MarkOfWildcard(ts: seq<Token>)
    requires Chained(ts)
    ensures '#' in Print(ts) <==> HasWildcard(ts)
  {
    if ts == [] {
    } else {
      var k := |ts| - 1;
      MarkOfWildcard(ts[..k]);
      MarkAppend(ts[..k], ts[k]);
      assert ts == ts[..k] + [ts[k]];
    }
  }

  lemma MarkAppend(ts: seq<Token>, t: Token)
    requires ('#' in Print(ts) <==> HasWildcard(ts)) && TokenOk(t)
    ensures '#' in Print(ts + [t]) <==> HasWildcard(ts + [t])
  {
    PrintLast(ts, t);
    MarkOfToken(t);
    InConcat('#', Print(ts), PrintToken(t));
    WildcardInLast(ts, t);
  }

  lemma InConcat(c: char, a: string, b: string)
    ensures c in a + b <==> c in a || c in b
  {
  }

  lemma WildcardInLast(ts: seq<Token>, t: Token)
    ensures HasWildcard(ts + [t]) <==> HasWildcard(ts) || t.kind == Wildcard
  {
    var us := ts + [t];
    assert us[|ts|] == t;
    if x :| x in ts && x.kind == Wildcard { assert x in us; }
  }

  lemma MarkOfToken(t: Token)
    requires TokenOk(t)
    ensures '#' in PrintToken(t) <==> t.kind == Wildcard
  {
    TextHasNoMark(t.value, t.kind == Static);
    if t.kind == Wildcard { assert PrintToken(t)[0] == '#'; }
  }
}
