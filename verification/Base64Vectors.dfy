/** The characters of base64 as the standard lists them, and the test vectors of section 10 of RFC 4648. */
module Base64Vectors {
  import opened Basics
  import opened Base64Codec
  import opened Base64Laws

  /** Tables 1 and 2 of the standard. */
  function Characters(a: Alphabet): string {
    UPPER + LOWER + DIGITS + if a == Standard then "+/" else "-_"
  }

  function Ascii(s: string): (bytes: seq<byte>)
    ensures |bytes| == |s| && forall i | 0 <= i < |s| :: bytes[i] == s[i] as int % 128
  {
    seq(|s|, i requires 0 <= i < |s| => s[i] as int % 128)
  }

  lemma Spelled(s: string, bytes: seq<byte>)
    requires |s| == |bytes| && forall i | 0 <= i < |s| :: s[i] as int == bytes[i] < 128
    ensures Ascii(s) == bytes
  {
  }

  lemma PartAt(u: string, l: string, d: string, m: string, v: sextet)
    requires |u| == |l| == 26 && |d| == 10 && |m| == 2
    ensures |u + l + d + m| == 64
    ensures (u + l + d + m)[v] ==
      if v < 26 then u[v] else if v < 52 then l[v - 26] else if v < 62 then d[v - 52] else m[v - 62]
  {
  }

  /** Each digit is the character that stands at its value in the standard's table. */
  lemma DigitListed(a: Alphabet, v: sextet)
    ensures |Characters(a)| == 64 && Digit(a, v) == Characters(a)[v] as int
  {
    UpperAt(if v < 26 then v else 0);
    LowerAt(if 26 <= v < 52 then v - 26 else 0);
    DigitAt(if 52 <= v < 62 then v - 52 else 0);
    PartAt(UPPER, LOWER, DIGITS, if a == Standard then "+/" else "-_", v);
  }

  // ---------------------------------------------------------------- the vectors

  /** The text of these bytes, in standard base64 with padding, and the decoder's way back. */
  ghost predicate IsVector(plain: seq<byte>, text: seq<byte>) {
    && Encoded(Standard, true, plain) == text
    && DecodeRun(Standard, D0, text).0 == plain && IsDone(DecodeRun(Standard, D0, text).1)
  }

  lemma Vector(plain: seq<byte>, text: seq<byte>)
    requires Encoded(Standard, true, plain) == text
    ensures IsVector(plain, text)
  {
    RoundTrip(Standard, true, plain);
  }

  lemma OneByte(b: byte)
    ensures Encoded(Standard, true, [b]) == [Digit(Standard, b / 4), Digit(Standard, (b % 4) * 16), PAD, PAD]
  {
    Base64Codec.EncodedOne(Standard, true, [b]);
  }

  lemma TwoBytes(b: byte, c: byte)
    ensures Encoded(Standard, true, [b, c])
         == [Digit(Standard, b / 4), Digit(Standard, (b % 4) * 16 + c / 16), Digit(Standard, (c % 16) * 4), PAD]
  {
    Base64Codec.EncodedTwo(Standard, true, [b, c]);
  }

  lemma ThreeBytes(b: byte, c: byte, d: byte, rest: seq<byte>)
    ensures Encoded(Standard, true, [b, c, d] + rest)
         == [Digit(Standard, b / 4), Digit(Standard, (b % 4) * 16 + c / 16),
             Digit(Standard, (c % 16) * 4 + d / 64), Digit(Standard, d % 64)] + Encoded(Standard, true, rest)
  {
    EncodedGroup(Standard, true, b, c, d, rest);
    GroupDigits(Standard, b, c, d);
  }

  lemma VectorOne(plain: string, text: string)
    requires plain == "f" && text == "Zg=="
    ensures IsVector(Ascii(plain), Ascii(text))
  {
    OneByte(102);
    assert Ascii(plain) == [102] && Ascii(text) == [90, 103, 61, 61];
    Vector(Ascii(plain), Ascii(text));
  }

  lemma VectorTwo(plain: string, text: string)
    requires plain == "fo" && text == "Zm8="
    ensures IsVector(Ascii(plain), Ascii(text))
  {
    TwoBytes(102, 111);
    assert Ascii(plain) == [102, 111] && Ascii(text) == [90, 109, 56, 61];
    Vector(Ascii(plain), Ascii(text));
  }

  lemma Foo(rest: seq<byte>)
    ensures Encoded(Standard, true, [102, 111, 111] + rest) == [90, 109, 57, 118] + Encoded(Standard, true, rest)
  {
    ThreeBytes(102, 111, 111, rest);
  }

  lemma VectorThree(plain: string, text: string)
    requires plain == "foo" && text == "Zm9v"
    ensures IsVector(Ascii(plain), Ascii(text))
  {
    Foo([]);
    assert Ascii(plain) == [102, 111, 111] + [] && Ascii(text) == [90, 109, 57, 118] + [];
    Vector(Ascii(plain), Ascii(text));
  }

  lemma VectorFour(plain: string, text: string)
    requires plain == "foob" && text == "Zm9vYg=="
    ensures IsVector(Ascii(plain), Ascii(text))
  {
    Foo([98]);
    OneByte(98);
    Spelled(plain, [102, 111, 111] + [98]);
    Spelled(text, [90, 109, 57, 118] + [89, 103, 61, 61]);
    Vector(Ascii(plain), Ascii(text));
  }

  lemma FooAnd(rest: seq<byte>, more: seq<byte>)
    requires Encoded(Standard, true, rest) == more
    ensures IsVector([102, 111, 111] + rest, [90, 109, 57, 118] + more)
  {
    Foo(rest);
    Vector([102, 111, 111] + rest, [90, 109, 57, 118] + more);
  }

  lemma VectorFive(plain: string, text: string)
    requires plain == "fooba" && text == "Zm9vYmE="
    ensures IsVector(Ascii(plain), Ascii(text))
  {
    TwoBytes(98, 97);
    FooAnd([98, 97], [89, 109, 69, 61]);
    Spelled(plain, [102, 111, 111] + [98, 97]);
    Spelled(text, [90, 109, 57, 118] + [89, 109, 69, 61]);
  }

  lemma Bar()
    ensures Encoded(Standard, true, [98, 97, 114]) == [89, 109, 70, 121]
  {
    ThreeBytes(98, 97, 114, []);
    assert [98, 97, 114] + [] == [98, 97, 114];
  }

  lemma VectorSix(plain: string, text: string)
    requires plain == "foobar" && text == "Zm9vYmFy"
    ensures IsVector(Ascii(plain), Ascii(text))
  {
    Bar();
    FooAnd([98, 97, 114], [89, 109, 70, 121]);
    Spelled(plain, [102, 111, 111] + [98, 97, 114]);
    Spelled(text, [90, 109, 57, 118] + [89, 109, 70, 121]);
  }

  /** Section 10 of RFC 4648, in both directions. */
  lemma Vectors()
    ensures IsVector(Ascii("f"), Ascii("Zg==")) && IsVector(Ascii("fo"), Ascii("Zm8="))
    ensures IsVector(Ascii("foo"), Ascii("Zm9v")) && IsVector(Ascii("foob"), Ascii("Zm9vYg=="))
    ensures IsVector(Ascii("fooba"), Ascii("Zm9vYmE=")) && IsVector(Ascii("foobar"), Ascii("Zm9vYmFy"))
  {
    VectorOne("f", "Zg==");
    VectorTwo("fo", "Zm8=");
    VectorThree("foo", "Zm9v");
    VectorFour("foob", "Zm9vYg==");
    VectorFive("fooba", "Zm9vYmE=");
    VectorSix("foobar", "Zm9vYmFy");
  }

  // ---------------------------------------------------------------- padding

  lemma {:induction false} Count(text: seq<byte>, n: nat)
    requires n <= |text| && forall i | 0 <= i < n :: InAlphabet(Standard, text[i])
    requires n < |text| ==> !InAlphabet(Standard, text[n])
    ensures DigitCount(Standard, text) == n
    decreases n
  {
    if n == 0 {
    } else {
      Count(text[1..], n - 1);
    }
  }

  /** Behind two digits none, some or all of the padding is accepted, and no more. */
  lemma PaddingOfTwo(text: seq<byte>, pads: nat)
    requires |text| == 2 + pads && text[0] == 90 && text[1] == 103 && forall i | 2 <= i < |text| :: text[i] == 61
    ensures IsDone(DecodeRun(Standard, D0, text).1) <==> pads <= 2
  {
    Count(text, 2);
    AcceptsExactly(Standard, text);
    assert forall i | 0 <= i < pads :: text[2..][i] == text[2 + i];
  }

  /** Behind three digits one, behind four none; and one digit alone is refused. */
  lemma PaddingOfOthers(three: string, four: string, one: string)
    requires three == "Zm8==" && four == "Zm9v=" && one == "Z"
    ensures !IsDone(DecodeRun(Standard, D0, Ascii(three)).1) && IsDone(DecodeRun(Standard, D0, Ascii(three)[..4]).1)
    ensures !IsDone(DecodeRun(Standard, D0, Ascii(four)).1) && !IsDone(DecodeRun(Standard, D0, Ascii(one)).1)
  {
    Count(Ascii(three), 3);
    Count(Ascii(three)[..4], 3);
    Count(Ascii(four), 4);
    Count(Ascii(one), 1);
    AcceptsExactly(Standard, Ascii(three));
    AcceptsExactly(Standard, Ascii(three)[..4]);
    AcceptsExactly(Standard, Ascii(four));
    AcceptsExactly(Standard, Ascii(one));
  }
}
