/** Path patterns as lists of tokens: the grammar of well-formed lists and their printed form. */
module PathTokens {
  import opened Basics

  datatype Kind = Static | Param | Wildcard

  datatype Token = Token(kind: Kind, value: string)

  // ---------------------------------------------------------------- characters

  predicate IsUnreserved(c: char) {
    'a' <= c <= 'z' || 'A' <= c <= 'Z' || '0' <= c <= '9' || c == '-' || c == '.' || c == '_' || c == '~'
  }

  predicate IsSubDelim(c: char) {
    c == '!' || c == '$' || c == '&' || c == '\'' || c == '(' || c == ')' ||
    c == '*' || c == '+' || c == ',' || c == ';' || c == '='
  }

  predicate IsHex(c: char) {
    '0' <= c <= '9' || 'a' <= c <= 'f' || 'A' <= c <= 'F'
  }

  /** A path character that stands for itself. */
  predicate IsPlain(c: char) {
    IsUnreserved(c) || IsSubDelim(c) || c == ':' || c == '@'
  }

  /** The length of the lexical unit at the head of `s`: a plain character (or a slash where
      slashes are allowed), a percent-encoded octet, or 0 when there is none. */
  function UnitLength(s: string, slashes: bool): (n: nat)
    ensures n <= |s|
  {
    if s == "" then 0
    else if IsPlain(s[0]) || (slashes && s[0] == '/') then 1
    else if s[0] == '%' && |s| >= 3 && IsHex(s[1]) && IsHex(s[2]) then 3
    else 0
  }

  /** `s` is a sequence of lexical units. */
  predicate IsText(s: string, slashes: bool) {
    s == "" || (UnitLength(s, slashes) > 0 && IsText(s[UnitLength(s, slashes)..], slashes))
  }

  // ---------------------------------------------------------------- well-formed token lists

  predicate TokenOk(t: Token) {
    match t.kind
    case Static => IsText(t.value, true)
    case Param => t.value != "" && IsText(t.value, false)
    case Wildcard => t.value != "" && IsText(t.value, false)
  }

  predicate StartsWithSlash(s: string) {
    s != "" && s[0] == '/'
  }

  predicate EndsWithSlash(s: string) {
    s != "" && s[|s| - 1] == '/'
  }

  /** What the grammar asks of a token given its left neighbour, if any. */
  predicate FollowsOk(left: seq<Token>, t: Token) {
    match t.kind
    case Static => left == [] || (left[|left| - 1].kind == Param && StartsWithSlash(t.value))
    case Param => left != [] && left[|left| - 1].kind == Static && EndsWithSlash(left[|left| - 1].value)
    case Wildcard => left != [] && left[|left| - 1].kind == Static
  }

  /** No earlier token has this value. */
  predicate Fresh(left: seq<Token>, value: string) {
    forall i | 0 <= i < |left| :: left[i].value != value
  }

  /** What the grammar asks of a token given everything to its left. */
  predicate LinkOk(left: seq<Token>, t: Token) {
    TokenOk(t) && FollowsOk(left, t) && (t.kind != Static ==> Fresh(left, t.value))
  }

  /** Every token is lexically correct, stands where the grammar allows it and repeats no value. */
  predicate Chained(ts: seq<Token>) {
    ts == [] || (Chained(ts[..|ts| - 1]) && LinkOk(ts[..|ts| - 1], ts[|ts| - 1]))
  }

  lemma {:induction false} ChainedAt(ts: seq<Token>, i: nat)
    requires Chained(ts) && i < |ts|
    ensures LinkOk(ts[..i], ts[i])
  {
    var k := |ts| - 1;
    if i == k {
    } else {
      ChainedAt(ts[..k], i);
      assert ts[..k][..i] == ts[..i];
    }
  }

  lemma ChainedAppend(ts: seq<Token>, t: Token)
    requires Chained(ts) && LinkOk(ts, t)
    ensures Chained(ts + [t])
  {
    assert (ts + [t])[..|ts|] == ts;
  }

  /** The token lists of accepted patterns: alternating text and parameters, an optional final
      wildcard, and no empty text except in front of a wildcard that opens the pattern. */
  predicate WellFormed(ts: seq<Token>) {
    Chained(ts) && (ts != [] && ts[|ts| - 1].kind == Static ==> ts[|ts| - 1].value != "")
  }

  // ---------------------------------------------------------------- printing

  function PrintToken(t: Token): string {
    match t.kind
    case Static => t.value
    case Param => "{" + t.value + "}"
    case Wildcard => "#" + t.value
  }

  function Print(ts: seq<Token>): string {
    if ts == [] then "" else Print(ts[..|ts| - 1]) + PrintToken(ts[|ts| - 1])
  }

  lemma PrintLast(a: seq<Token>, t: Token)
    ensures Print(a + [t]) == Print(a) + PrintToken(t)
  {
    assert (a + [t])[..|a|] == a;
  }

  lemma {:induction false} PrintConcat(a: seq<Token>, b: seq<Token>)
    ensures Print(a + b) == Print(a) + Print(b)
  {
    if b == [] {
      assert a + b == a;
    } else {
      PrintConcat(a, b[..|b| - 1]);
      PrintSnoc(a, b);
    }
  }

  lemma PrintSnoc(a: seq<Token>, b: seq<Token>)
    requires b != [] && Print(a + b[..|b| - 1]) == Print(a) + Print(b[..|b| - 1])
    ensures Print(a + b) == Print(a) + Print(b)
  {
    var init, t := b[..|b| - 1], b[|b| - 1];
    PrintLast(a + init, t);
    PrintLast(init, t);
    LastApart(a, b);
    Associative(Print(a), Print(init), PrintToken(t));
  }

  lemma LastApart<T>(a: seq<T>, b: seq<T>)
    requires b != []
    ensures a + b == (a + b[..|b| - 1]) + [b[|b| - 1]] && b == b[..|b| - 1] + [b[|b| - 1]]
  {
  }
}
