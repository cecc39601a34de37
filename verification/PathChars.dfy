/** The characters of patterns, listed: which texts are static text, which names a parameter may have, and
    what the marks mean. */
module PathChars {
  import opened Basics
  import opened Wrappers
  import opened PathTokens
  import opened PathGrammar

  /** The `pchar` of section 3.3 of RFC 3986, but for percent-encoded octets. */
  const PCHARS := UPPER + LOWER + DIGITS + "-._~!$&'()*+,;=:@"

  const HEX_DIGITS := DIGITS + "abcdef" + "ABCDEF"

  lemma PlainListed(c: char)
    ensures IsPlain(c) <==> c in PCHARS
  {
    UpperListed(c);
    LowerListed(c);
    DigitListed(c);
    var others := "-._~!$&'()*+,;=:@";
    assert c in PCHARS <==> c in UPPER || c in LOWER || c in DIGITS || c in others;
  }

  lemma HexListed(c: char)
    ensures IsHex(c) <==> c in HEX_DIGITS
  {
    DigitListed(c);
  }

  lemma SingleGrammatical(t: Token)
    requires t.kind == Static && t.value != ""
    ensures Grammatical(false, [t]) && Grammatical(true, [t]) <==> IsText(t.value, true)
    ensures Grammatical(false, [t]) || Grammatical(true, [t]) ==> IsText(t.value, true)
  {
    var ts := [t];
    assert ts[..0] == [] && ts[0] == t;
    if IsText(t.value, true) {
      assert LinkOk([], t) && Chained(ts[..0]);
      assert WellFormed(ts);
    }
  }

  lemma SinglePrints(t: Token)
    requires t.kind == Static
    ensures Print([t]) == t.value
  {
    PrintLast([], t);
    assert [] + [t] == [t];
  }

  /** A pattern is one static token exactly when it is text. */
  lemma StaticAlone(wildcard: bool, s: string)
    requires s != ""
    ensures Parse(wildcard, s) == Some([Token(Static, s)]) <==> IsText(s, true)
  {
    var t := Token(Static, s);
    SingleGrammatical(t);
    SinglePrints(t);
    if IsText(s, true) {
      ParsePrint(wildcard, [t]);
    } else if Parse(wildcard, s) == Some([t]) {
      PrintParse(wildcard, s);
    }
  }

  lemma {:induction false} PlainText(s: string, slashes: bool)
    requires '%' !in s
    ensures IsText(s, slashes) <==> forall c | c in s :: c in PCHARS || (slashes && c == '/')
  {
    if s == "" {
    } else {
      PlainListed(s[0]);
      PlainText(s[1..], slashes);
      HeadTail(s);
    }
  }

  /** Without percent signs: static text is made of slashes and the listed characters, and of no other. */
  lemma StaticChars(wildcard: bool, s: string)
    requires s != "" && '%' !in s
    ensures Parse(wildcard, s) == Some([Token(Static, s)]) <==> forall c | c in s :: c == '/' || c in PCHARS
  {
    StaticAlone(wildcard, s);
    PlainText(s, true);
  }

  lemma BehindSlash(s: string)
    requires s != "" && s[0] == '/'
    ensures IsText(s, true) <==> IsText(s[1..], true)
  {
  }

  lemma OneUnit(s: string)
    requires |s| == 1
    ensures IsText(s, true) <==> s[0] == '/' || IsPlain(s[0])
  {
    assert s[1..] == "";
  }

  lemma ThreeUnit(s: string)
    requires |s| == 3 && s[0] == '%'
    ensures IsText(s, true) <==> s[1] in HEX_DIGITS && s[2] in HEX_DIGITS
  {
    HexListed(s[1]);
    HexListed(s[2]);
  }

  /** One character behind a slash. */
  lemma StaticChar(c: char)
    ensures Parse(true, "/" + [c]) == Some([Token(Static, "/" + [c])]) <==> c == '/' || c in PCHARS
  {
    var s := "/" + [c];
    StaticAlone(true, s);
    BehindSlash(s);
    assert s[1..] == [c];
    OneUnit([c]);
    PlainListed(c);
  }

  /** A percent sign is read with two hexadecimal digits behind it, and not otherwise. */
  lemma StaticOctet(a: char, b: char)
    ensures Parse(true, "/%" + [a, b]) == Some([Token(Static, "/%" + [a, b])]) <==> a in HEX_DIGITS && b in HEX_DIGITS
  {
    var s := "/%" + [a, b];
    StaticAlone(true, s);
    BehindSlash(s);
    assert s[1..] == ['%', a, b];
    ThreeUnit(['%', a, b]);
  }

  // ---------------------------------------------------------------- names and marks

  /** A slash, then a parameter or a wildcard. */
  function Named(kind: Kind, name: string): seq<Token> {
    [Token(Static, "/"), Token(kind, name)]
  }

  lemma SlashText()
    ensures IsText("/", true) && Chained([Token(Static, "/")])
  {
    OneUnit("/");
    SingleGrammatical(Token(Static, "/"));
  }

  lemma NamedGrammatical(kind: Kind, name: string)
    requires kind != Static
    ensures Grammatical(true, Named(kind, name)) <==> name != "" && IsText(name, false)
  {
    var ts := Named(kind, name);
    SlashText();
    assert ts[..1] == [Token(Static, "/")];
    if name != "" && IsText(name, false) { TextHasNoMark(name, false); }
  }

  lemma NamedPrints(name: string)
    ensures Print(Named(Param, name)) == "/{" + name + "}" && Print(Named(Wildcard, name)) == "/#" + name
  {
    NamedLast(Param, name);
    NamedLast(Wildcard, name);
    Regrouped(name);
  }

  lemma Regrouped(name: string)
    ensures "/" + ("{" + name + "}") == "/{" + name + "}" && "/" + ("#" + name) == "/#" + name
  {
  }

  lemma NamedLast(kind: Kind, name: string)
    ensures Print(Named(kind, name)) == "/" + PrintToken(Token(kind, name))
  {
    SinglePrints(Token(Static, "/"));
    PrintLast([Token(Static, "/")], Token(kind, name));
    assert [Token(Static, "/")] + [Token(kind, name)] == Named(kind, name);
  }

  lemma NamedParses(kind: Kind, name: string, pattern: string)
    requires kind != Static && Print(Named(kind, name)) == pattern
    ensures Parse(true, pattern) == Some(Named(kind, name)) <==> name != "" && IsText(name, false)
  {
    NamedGrammatical(kind, name);
    if name != "" && IsText(name, false) {
      ParsePrint(true, Named(kind, name));
    } else if Parse(true, pattern) == Some(Named(kind, name)) {
      PrintParse(true, pattern);
    }
  }

  /** Names are made of the same characters, without the slash. */
  lemma NameChars(name: string)
    requires '%' !in name
    ensures Parse(true, "/{" + name + "}") == Some([Token(Static, "/"), Token(Param, name)])
       <==> name != "" && forall c | c in name :: c in PCHARS
    ensures Parse(true, "/#" + name) == Some([Token(Static, "/"), Token(Wildcard, name)])
       <==> name != "" && forall c | c in name :: c in PCHARS
  {
    PlainText(name, false);
    NamedPrints(name);
    NamedParses(Param, name, "/{" + name + "}");
    NamedParses(Wildcard, name, "/#" + name);
  }
}
