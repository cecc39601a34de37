/** The string helpers: trimming, splitting at delimiters, comparison that ignores case. */
module Strings {
  import opened Basics

  predicate IsSpace(c: char) {
    c == ' ' || '\t' <= c <= '\r'
  }

  predicate Blank(s: string) {
    forall i | 0 <= i < |s| :: IsSpace(s[i])
  }

  /** No space at either end. */
  predicate Bare(s: string) {
    s == "" || (!IsSpace(s[0]) && !IsSpace(s[|s| - 1]))
  }

  // ---------------------------------------------------------------- trimming

  function LeftTrimmed(s: string): string {
    if s != "" && IsSpace(s[0]) then LeftTrimmed(s[1..]) else s
  }

  function RightTrimmed(s: string): string {
    if s != "" && IsSpace(s[|s| - 1]) then RightTrimmed(s[..|s| - 1]) else s
  }

  function Trimmed(s: string): string {
    LeftTrimmed(RightTrimmed(s))
  }

  lemma {:induction false} LeftTrimmedOf(left: string, core: string)
    requires Blank(left) && (core == "" || !IsSpace(core[0]))
    ensures LeftTrimmed(left + core) == core
    decreases |left|
  {
    if left == "" {
      assert left + core == core;
    } else {
      assert (left + core)[0] == left[0] && (left + core)[1..] == left[1..] + core;
      LeftTrimmedOf(left[1..], core);
    }
  }

  lemma {:induction false} RightTrimmedOf(core: string, right: string)
    requires Blank(right) && (core == "" || !IsSpace(core[|core| - 1]))
    ensures RightTrimmed(core + right) == core
    decreases |right|
  {
    if right == "" {
      assert core + right == core;
    } else {
      var n := |core + right| - 1;
      assert (core + right)[n] == right[|right| - 1] && (core + right)[..n] == core + right[..|right| - 1];
      RightTrimmedOf(core, right[..|right| - 1]);
    }
  }

  lemma {:induction false} BlankTrims(s: string)
    requires Blank(s)
    ensures RightTrimmed(s) == ""
  {
    if s == "" {
    } else {
      BlankTrims(s[..|s| - 1]);
    }
  }

  /** Whatever blanks surround a bare text, trimming finds that text. */
  lemma TrimmedOf(left: string, core: string, right: string)
    requires Blank(left) && Bare(core) && Blank(right)
    ensures Trimmed(left + core + right) == core
  {
    if core == "" {
      BlankTrims(left + core + right);
    } else {
      RightTrimmedOf(left + core, right);
      LeftTrimmedOf(left, core);
    }
  }

  lemma {:induction false} LeftTrimmedMeans(s: string)
    ensures var core := LeftTrimmed(s);
      && |core| <= |s| && s[|s| - |core|..] == core && Blank(s[..|s| - |core|])
      && (core == "" || !IsSpace(core[0]))
  {
    if s == "" || !IsSpace(s[0]) {
    } else {
      LeftTrimmedMeans(s[1..]);
      var core, front := LeftTrimmed(s), s[..|s| - |LeftTrimmed(s)|];
      assert s[1..][|s| - 1 - |core|..] == s[|s| - |core|..];
      assert front == [s[0]] + s[1..][..|s| - 1 - |core|];
    }
  }

  lemma {:induction false} RightTrimmedMeans(s: string)
    ensures var core := RightTrimmed(s);
      && |core| <= |s| && s[..|core|] == core && Blank(s[|core|..])
      && (core == "" || !IsSpace(core[|core| - 1]))
  {
    if s == "" || !IsSpace(s[|s| - 1]) {
    } else {
      RightTrimmedMeans(s[..|s| - 1]);
      assert s == s[..|s| - 1] + [s[|s| - 1]];
    }
  }

  /** Every text is blanks, a bare text, and blanks; with TrimmedOf this says what trimming is. */
  lemma TrimmedMeans(s: string) returns (left: string, right: string)
    ensures s == left + Trimmed(s) + right && Blank(left) && Blank(right) && Bare(Trimmed(s))
  {
    RightTrimmedMeans(s);
    var front := RightTrimmed(s);
    LeftTrimmedMeans(front);
    left, right := front[..|front| - |Trimmed(s)|], s[|front|..];
    assert front == left + Trimmed(s) && s == front + right;
    TrimmedBare(front);
  }

  /** Trimming the front of a text leaves its last character where it was. */
  lemma TrimmedBare(front: string)
    requires front == "" || !IsSpace(front[|front| - 1])
    ensures Bare(LeftTrimmed(front))
  {
    LeftTrimmedMeans(front);
  }

  method TrimLeft(s: string) returns (r: string)
    ensures r == LeftTrimmed(s)
  {
    r := s;
    while r != "" && IsSpace(r[0])
      invariant LeftTrimmed(r) == LeftTrimmed(s)
      decreases |r|
    {
      r := r[1..];
    }
  }

  method TrimRight(s: string) returns (r: string)
    ensures r == RightTrimmed(s)
  {
    r := s;
    while r != "" && IsSpace(r[|r| - 1])
      invariant RightTrimmed(r) == RightTrimmed(s)
      decreases |r|
    {
      r := r[..|r| - 1];
    }
  }

  method Trim(s: string) returns (r: string)
    ensures r == Trimmed(s) && Bare(r)
  {
    var right := TrimRight(s);
    r := TrimLeft(right);
    var _, _ := TrimmedMeans(s);
  }

  // ---------------------------------------------------------------- splitting

  predicate Free(s: string, delimiters: string) {
    forall i | 0 <= i < |s| :: s[i] !in delimiters
  }

  function FirstOf(s: string, delimiters: string): (n: nat)
    ensures n <= |s| && Free(s[..n], delimiters)
    ensures n < |s| ==> s[n] in delimiters
  {
    if s == "" || s[0] in delimiters then 0 else 1 + FirstOf(s[1..], delimiters)
  }

  /** The trimmed pieces between delimiters. */
  function Split(s: string, delimiters: string): (tokens: seq<string>)
    ensures |tokens| > 0
    decreases |s|
  {
    var n := FirstOf(s, delimiters);
    if n == |s| then [Trimmed(s)] else [Trimmed(s[..n])] + Split(s[n + 1..], delimiters)
  }

  method SplitOf(s: string, delimiters: string) returns (tokens: seq<string>)
    ensures tokens == Split(s, delimiters)
  {
    tokens := [];
    ghost var left := Split(s, delimiters);
    var rest := s;
    var pos := FirstOf(rest, delimiters);
    while pos != |rest|
      invariant pos == FirstOf(rest, delimiters)
      invariant left == Split(rest, delimiters) && tokens + left == Split(s, delimiters)
      decreases |rest|
    {
      var token := Trim(rest[..pos]);
      SplitNext(rest, token, delimiters);
      left := Split(rest[pos + 1..], delimiters);
      Regroup(tokens, token, left);
      tokens := tokens + [token];
      rest := rest[pos + 1..];
      pos := FirstOf(rest, delimiters);
    }
    var token := Trim(rest);
    tokens := tokens + [token];
  }

  /** One piece more than there are delimiters. */
  lemma {:induction false} SplitCounts(s: string, d: char)
    ensures |Split(s, [d])| == multiset(s)[d] + 1
    decreases |s|
  {
    var n := FirstOf(s, [d]);
    if n == |s| {
      assert s[..n] == s;
      NoneCounted(s, d);
    } else {
      var x, y := s[..n], s[n + 1..];
      assert s == x + [d] + y;
      OneCounted(x, d, y);
      SplitFirst(x, d, y, [d]);
      SplitCounts(y, d);
    }
  }

  lemma OneCounted(x: string, d: char, y: string)
    requires Free(x, [d])
    ensures multiset(x + [d] + y)[d] == multiset(y)[d] + 1
  {
    NoneCounted(x, d);
  }

  lemma FreeParts(a: string, b: string, delimiters: string)
    requires Free(a + b, delimiters)
    ensures Free(a, delimiters) && Free(b, delimiters)
  {
    assert forall i | 0 <= i < |a| :: a[i] == (a + b)[i];
    assert forall i | 0 <= i < |b| :: b[i] == (a + b)[|a| + i];
  }

  lemma NoneCounted(s: string, d: char)
    requires Free(s, [d])
    ensures multiset(s)[d] == 0
  {
    assert d !in s;
  }

  lemma SplitNext(rest: string, token: string, delimiters: string)
    requires FirstOf(rest, delimiters) < |rest| && token == Trimmed(rest[..FirstOf(rest, delimiters)])
    ensures Split(rest, delimiters) == [token] + Split(rest[FirstOf(rest, delimiters) + 1..], delimiters)
  {
  }

  lemma Regroup<T>(a: seq<T>, x: T, b: seq<T>)
    ensures (a + [x]) + b == a + ([x] + b)
  {
  }

  lemma {:induction false} FirstOfFree(x: string, y: string, delimiters: string)
    requires Free(x, delimiters) && (y == "" || y[0] in delimiters)
    ensures FirstOf(x + y, delimiters) == |x|
    decreases |x|
  {
    if x != "" {
      assert (x + y)[0] == x[0] && (x + y)[1..] == x[1..] + y;
      FirstOfFree(x[1..], y, delimiters);
    } else {
      assert x + y == y;
    }
  }

  lemma SplitNone(x: string, delimiters: string)
    requires Free(x, delimiters)
    ensures Split(x, delimiters) == [Trimmed(x)]
  {
    FirstOfFree(x, "", delimiters);
    assert x + "" == x;
  }

  lemma SplitFirst(x: string, d: char, y: string, delimiters: string)
    requires Free(x, delimiters) && d in delimiters
    ensures Split(x + [d] + y, delimiters) == [Trimmed(x)] + Split(y, delimiters)
  {
    FirstOfFree(x, [d] + y, delimiters);
    assert x + [d] + y == x + ([d] + y);
    assert (x + [d] + y)[..|x|] == x && (x + [d] + y)[|x| + 1..] == y;
  }

  lemma Reshape(x: string, n: nat, d: char, y: string)
    requires n < |x|
    ensures x + [d] + y == x[..n] + [x[n]] + (x[n + 1..] + [d] + y)
  {
    assert x == x[..n] + [x[n]] + x[n + 1..];
  }

  lemma {:induction false} SplitLast(x: string, d: char, y: string, delimiters: string)
    requires Free(y, delimiters) && d in delimiters
    ensures Split(x + [d] + y, delimiters) == Split(x, delimiters) + [Trimmed(y)]
    decreases |x|
  {
    var n := FirstOf(x, delimiters);
    if n == |x| {
      assert x[..n] == x;
      SplitFirst(x, d, y, delimiters);
      SplitNone(y, delimiters);
    } else {
      var front, rest := x[..n], x[n + 1..];
      assert x == front + [x[n]] + rest;
      SplitFirst(front, x[n], rest, delimiters);
      SplitLast(rest, d, y, delimiters);
      Reshape(x, n, d, y);
      SplitFirst(front, x[n], rest + [d] + y, delimiters);
      Unshift(Trimmed(front), Split(rest, delimiters), Trimmed(y));
    }
  }

  lemma Unshift<T>(a: T, b: seq<T>, c: T)
    ensures ([a] + b) + [c] == [a] + (b + [c])
  {
  }

  function Join(tokens: seq<string>, separator: string): string {
    if tokens == [] then ""
    else if |tokens| == 1 then tokens[0]
    else tokens[0] + separator + Join(tokens[1..], separator)
  }

  lemma TrimmedIndented(pad: string, s: string)
    requires Blank(pad)
    ensures Trimmed(pad + s) == Trimmed(s)
  {
    var left, right := TrimmedMeans(s);
    assert pad + (left + Trimmed(s) + right) == (pad + left) + Trimmed(s) + right;
    TrimmedOf(pad + left, Trimmed(s), right);
  }

  /** Blanks in front of a text end up in its first piece, and are trimmed away. */
  lemma SplitIndented(pad: string, s: string, delimiters: string)
    requires Blank(pad) && Free(pad, delimiters)
    ensures Split(pad + s, delimiters) == Split(s, delimiters)
  {
    var n := FirstOf(s, delimiters);
    if n == |s| {
      assert s[..n] == s;
      IndentedLast(pad, s, delimiters);
    } else {
      IndentedFirst(pad, s, n, delimiters);
    }
  }

  lemma IndentedLast(pad: string, s: string, delimiters: string)
    requires Blank(pad) && Free(pad, delimiters) && Free(s, delimiters)
    ensures Split(pad + s, delimiters) == [Trimmed(s)]
  {
    TrimmedIndented(pad, s);
    SplitNone(pad + s, delimiters);
  }

  lemma IndentedFirst(pad: string, s: string, n: nat, delimiters: string)
    requires Blank(pad) && Free(pad, delimiters) && n < |s| && Free(s[..n], delimiters) && s[n] in delimiters
    ensures Split(pad + s, delimiters) == [Trimmed(s[..n])] + Split(s[n + 1..], delimiters)
  {
    TrimmedIndented(pad, s[..n]);
    ThreeParts(pad, s, n);
    SplitFirst(pad + s[..n], s[n], s[n + 1..], delimiters);
  }

  lemma ThreeParts<T>(pad: seq<T>, s: seq<T>, n: nat)
    requires n < |s|
    ensures pad + s == (pad + s[..n]) + [s[n]] + s[n + 1..]
  {
  }

  lemma BareTrims(t: string)
    requires Bare(t)
    ensures Trimmed(t) == t
  {
    TrimmedOf("", t, "");
    assert "" + t + "" == t;
  }

  lemma SplitCons(t: string, d: char, pad: string, rest: string, delimiters: string)
    requires d in delimiters && Blank(pad) && Free(pad, delimiters) && Bare(t) && Free(t, delimiters)
    ensures Split(t + ([d] + pad) + rest, delimiters) == [t] + Split(rest, delimiters)
  {
    BareTrims(t);
    SplitIndented(pad, rest, delimiters);
    SplitFirst(t, d, pad + rest, delimiters);
    Associate(t, [d], pad, rest);
  }

  lemma Associate<T>(a: seq<T>, b: seq<T>, c: seq<T>, d: seq<T>)
    ensures a + (b + c) + d == a + b + (c + d)
  {
  }

  /** Joining bare, delimiter-free texts and splitting again gives them back. */
  lemma {:induction false} SplitJoin(tokens: seq<string>, d: char, pad: string, delimiters: string)
    requires tokens != [] && d in delimiters && Blank(pad) && Free(pad, delimiters)
    requires forall i | 0 <= i < |tokens| :: Bare(tokens[i]) && Free(tokens[i], delimiters)
    ensures Split(Join(tokens, [d] + pad), delimiters) == tokens
    decreases |tokens|
  {
    if |tokens| == 1 {
      BareTrims(tokens[0]);
      SplitNone(tokens[0], delimiters);
    } else {
      SplitJoin(tokens[1..], d, pad, delimiters);
      SplitCons(tokens[0], d, pad, Join(tokens[1..], [d] + pad), delimiters);
      HeadTail(tokens);
    }
  }

  /** Every piece is bare and holds no delimiter. */
  lemma {:induction false} SplitPieces(s: string, delimiters: string)
    ensures forall t | t in Split(s, delimiters) :: Bare(t) && Free(t, delimiters)
    decreases |s|
  {
    var n := FirstOf(s, delimiters);
    TrimmedFree(s[..n], delimiters);
    if n == |s| {
      assert s[..n] == s;
    } else {
      SplitPieces(s[n + 1..], delimiters);
    }
  }

  lemma TrimmedFree(s: string, delimiters: string)
    requires Free(s, delimiters)
    ensures Bare(Trimmed(s)) && Free(Trimmed(s), delimiters)
  {
    var left, right := TrimmedMeans(s);
    assert forall i | 0 <= i < |Trimmed(s)| :: Trimmed(s)[i] == s[|left| + i];
  }

  // ---------------------------------------------------------------- ignoring case

  function Lower(c: char): char {
    if 'A' <= c <= 'Z' then (c as int + 32) as char else c
  }

  predicate EqualIgnoringCase(a: string, b: string) {
    |a| == |b| && forall i | 0 <= i < |a| :: Lower(a[i]) == Lower(b[i])
  }

  datatype Ordering = Less | Equal | Greater

  function Flip(o: Ordering): Ordering {
    match o case Less => Greater case Equal => Equal case Greater => Less
  }

  /** The order of the lower-cased texts, letter by letter. */
  function Compare(a: string, b: string): Ordering {
    if a == "" || b == "" then
      if a == b then Equal else if a == "" then Less else Greater
    else if Lower(a[0]) < Lower(b[0]) then Less
    else if Lower(a[0]) > Lower(b[0]) then Greater
    else Compare(a[1..], b[1..])
  }

  method CompareIgnoringCase(a: string, b: string) returns (o: Ordering)
    ensures o == Compare(a, b)
  {
    var i := 0;
    while i < |a| || i < |b|
      invariant 0 <= i <= |a| && i <= |b|
      invariant Compare(a, b) == Compare(a[i..], b[i..])
      decreases |a| - i
    {
      if i == |a| { return Less; }
      if i == |b| { return Greater; }
      if Lower(a[i]) < Lower(b[i]) { return Less; }
      if Lower(a[i]) > Lower(b[i]) { return Greater; }
      assert a[i..][1..] == a[i + 1..] && b[i..][1..] == b[i + 1..];
      i := i + 1;
    }
    return Equal;
  }

  /** The two comparisons agree, and the three-way one is a total order on texts up to case. */
  lemma {:induction false} CompareOrders(a: string, b: string)
    ensures Compare(a, b) == Equal <==> EqualIgnoringCase(a, b)
    ensures Compare(b, a) == Flip(Compare(a, b))
  {
    if a == "" || b == "" {
    } else {
      CompareOrders(a[1..], b[1..]);
      assert a == [a[0]] + a[1..] && b == [b[0]] + b[1..];
    }
  }

  lemma {:induction false} CompareTransitive(a: string, b: string, c: string)
    requires Compare(a, b) != Greater && Compare(b, c) != Greater
    ensures Compare(a, c) != Greater
    ensures Compare(a, c) == Equal ==> Compare(a, b) == Equal && Compare(b, c) == Equal
  {
    if a == "" || b == "" || c == "" {
    } else if Lower(a[0]) == Lower(b[0]) == Lower(c[0]) {
      CompareTransitive(a[1..], b[1..], c[1..]);
    }
  }

  /** Two characters are equal up to case when they are the same, or the two forms of one letter. */
  predicate SameLetter(c: char, d: char) {
    c == d || exists i | 0 <= i < |UPPER| == |LOWER| ::
      (c == UPPER[i] && d == LOWER[i]) || (c == LOWER[i] && d == UPPER[i])
  }

  lemma CapitalAt(c: char)
    requires 'A' <= c <= 'Z'
    ensures c as int - 65 < |UPPER| == |LOWER| && UPPER[c as int - 65] == c && LOWER[c as int - 65] == Lower(c)
  {
    UpperAt(c as int - 65);
    LowerAt(c as int - 65);
  }

  lemma PairLowers(i: nat)
    requires i < 26
    ensures |UPPER| == |LOWER| == 26 && Lower(UPPER[i]) == Lower(LOWER[i])
  {
    UpperAt(i);
    LowerAt(i);
  }

  lemma LowerMeans(c: char, d: char)
    ensures Lower(c) == Lower(d) <==> SameLetter(c, d)
  {
    PairLowers(0);
    if SameLetter(c, d) && c != d {
      var i :| 0 <= i < |UPPER| && ((c == UPPER[i] && d == LOWER[i]) || (c == LOWER[i] && d == UPPER[i]));
      PairLowers(i);
    } else if Lower(c) == Lower(d) && c != d {
      CapitalAt(if 'A' <= c <= 'Z' then c else d);
    }
  }

  /** Equality ignores the case of letters and nothing else. */
  lemma EqualLetters(a: string, b: string)
    ensures EqualIgnoringCase(a, b) <==> |a| == |b| && forall i | 0 <= i < |a| :: SameLetter(a[i], b[i])
  {
    if |a| == |b| {
      forall i | 0 <= i < |a| ensures Lower(a[i]) == Lower(b[i]) <==> SameLetter(a[i], b[i]) {
        LowerMeans(a[i], b[i]);
      }
    }
  }

  /** The order of texts without capitals is that of their character codes, and a capital counts as its
      small letter. */
  lemma CompareLetters(c: char, d: char, i: nat)
    requires c !in UPPER && d !in UPPER && i < 26
    ensures |UPPER| == |LOWER| == 26
    ensures Compare([c], [d]) == (if c < d then Less else if c == d then Equal else Greater)
    ensures Compare([UPPER[i]], [d]) == Compare([LOWER[i]], [d])
  {
    UpperListed(c);
    UpperListed(d);
    UpperAt(i);
    LowerAt(i);
  }

  /** The blanks that trimming removes: space, tab, the line and page feeds, and the carriage return. */
  lemma BlankListed(c: char)
    ensures Trimmed([c]) == "" <==> c in " \t\n\r" || c as int == 11 || c as int == 12
  {
    assert [c][1..] == "" && [c][..0] == "";
    assert RightTrimmed([c]) == if IsSpace(c) then "" else [c];
    assert LeftTrimmed([c]) == if IsSpace(c) then "" else [c];
    assert c in " \t\n\r" <==> c == ' ' || c == '\t' || c == '\n' || c == '\r';
  }

  // ---------------------------------------------------------------- numbers

  predicate IsDigit(c: char) {
    '0' <= c <= '9'
  }

  function DigitValue(c: char): nat
    requires IsDigit(c)
  {
    c as int - '0' as int
  }

  function Decimal(s: string): (n: nat)
    requires forall i | 0 <= i < |s| :: IsDigit(s[i])
  {
    if s == "" then 0 else Decimal(s[..|s| - 1]) * 10 + DigitValue(s[|s| - 1])
  }

  datatype Number = NotANumber | Number(value: nat)

  /** Digits only, at least one, and a value that a 64-bit word holds. */
  function FromString(s: string): (n: Number)
    ensures n.Number? ==> n.value < WORD
  {
    if s != "" && (forall i | 0 <= i < |s| :: IsDigit(s[i])) && Decimal(s) < WORD then Number(Decimal(s))
    else NotANumber
  }

  function ToString(n: nat): (s: string)
    ensures s != "" && forall i | 0 <= i < |s| :: IsDigit(s[i])
  {
    (if n < 10 then "" else ToString(n / 10)) + [('0' as int + n % 10) as char]
  }

  lemma {:induction false} DecimalToString(n: nat)
    ensures Decimal(ToString(n)) == n
  {
    var s := ToString(n);
    if n < 10 {
      assert s[..|s| - 1] == "";
    } else {
      DecimalToString(n / 10);
      assert s[..|s| - 1] == ToString(n / 10);
    }
  }

  /** Each further digit counts ten times what stands before it, as long as the value fits a word. */
  lemma DigitRead(s: string, i: nat)
    requires i < 10
    ensures |DIGITS| == 10
    ensures FromString([DIGITS[i]]) == Number(i)
    ensures s != "" ==>
      match FromString(s)
      case Number(v) => FromString(s + [DIGITS[i]]) == if v * 10 + i < WORD then Number(v * 10 + i) else NotANumber
      case NotANumber => FromString(s + [DIGITS[i]]) == NotANumber
  {
    DigitAt(i);
    var one, t := [DIGITS[i]], s + [DIGITS[i]];
    assert one[..0] == "" && t[..|t| - 1] == s;
    assert Decimal(one) == Decimal(one[..0]) * 10 + i;
    if forall j | 0 <= j < |t| :: IsDigit(t[j]) {
      assert forall j | 0 <= j < |s| :: s[j] == t[j];
    }
  }

  /** Nothing but digits, and at least one. */
  lemma OnlyDigits(s: string)
    requires s == "" || exists c | c in s :: c !in DIGITS
    ensures FromString(s) == NotANumber
  {
    if s != "" {
      var c :| c in s && c !in DIGITS;
      DigitListed(c);
      var i :| 0 <= i < |s| && s[i] == c;
    }
  }

  /** A number is printed digit by digit, without a zero in front. */
  lemma DigitPrinted(n: nat, i: nat)
    requires i < 10
    ensures |DIGITS| == 10 && ToString(i) == [DIGITS[i]]
    ensures n > 0 ==> ToString(n * 10 + i) == ToString(n) + [DIGITS[i]]
  {
    DigitAt(i);
    assert (n * 10 + i) / 10 == n && (n * 10 + i) % 10 == i;
  }

  /** Leading zeros do not matter. */
  lemma LeadingZero(s: string)
    requires FromString(s).Number?
    ensures FromString("0" + s) == FromString(s)
  {
    ZeroInFront(s);
  }

  lemma {:induction false} ZeroInFront(s: string)
    requires forall i | 0 <= i < |s| :: IsDigit(s[i])
    ensures Decimal("0" + s) == Decimal(s)
  {
    var t := "0" + s;
    if s == "" {
      assert t[..0] == "";
    } else {
      ZeroInFront(s[..|s| - 1]);
      assert t[..|t| - 1] == "0" + s[..|s| - 1];
    }
  }

  /** Printing a word and reading it back. */
  lemma FromToString(n: nat)
    requires n < WORD
    ensures FromString(ToString(n)) == Number(n)
  {
    DecimalToString(n);
  }
}
