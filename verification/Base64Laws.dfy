/** Base64: what the decoder accepts, and the two round trips. */
module Base64Laws {
  import opened Basics
  import opened Base64Codec

  // ---------------------------------------------------------------- what the decoder accepts

  /** The length of the longest prefix of alphabet characters. */
  function DigitCount(a: Alphabet, text: seq<byte>): (n: nat)
    ensures n <= |text|
  {
    if text == [] || !InAlphabet(a, text[0]) then 0 else 1 + DigitCount(a, text[1..])
  }

  /** It is a prefix of alphabet characters, and the longest. */
  lemma {:induction false} DigitCountMeans(a: Alphabet, text: seq<byte>)
    ensures forall i | 0 <= i < DigitCount(a, text) :: InAlphabet(a, text[i])
    ensures DigitCount(a, text) < |text| ==> !InAlphabet(a, text[DigitCount(a, text)])
  {
    if text == [] || !InAlphabet(a, text[0]) {
    } else {
      DigitCountMeans(a, text[1..]);
      assert text == [text[0]] + text[1..];
    }
  }

  predicate AllPad(text: seq<byte>) {
    forall i | 0 <= i < |text| :: text[i] == PAD
  }

  /** How many `=` may follow `n` digits. */
  function PadAllowed(n: nat): nat {
    if n % 4 == 2 then 2 else if n % 4 == 3 then 1 else 0
  }

  /** What may follow `n` digits: nothing may if one digit of a group is left over. */
  predicate MayEnd(n: nat, rest: seq<byte>) {
    n % 4 != 1 && AllPad(rest) && |rest| <= PadAllowed(n)
  }

  lemma MayEndPeriodic(m: nat, n: nat, rest: seq<byte>)
    requires m % 4 == n % 4
    ensures MayEnd(m, rest) == MayEnd(n, rest)
  {
  }

  lemma MayEndGroup(n: nat, rest: seq<byte>)
    requires n >= 4
    ensures MayEnd(n - 4, rest) == MayEnd(n, rest)
  {
    MayEndPeriodic(n - 4, n, rest);
  }

  /** `n` alphabet characters, not one more than a multiple of four, then at most the padding that
      completes the last group. */
  predicate Acceptable(a: Alphabet, text: seq<byte>) {
    var n := DigitCount(a, text);
    MayEnd(n, text[n..])
  }

  predicate InGroup(st: DecodeState) {
    st.D0? || st.D1? || st.D2? || st.D3?
  }

  function Phase(st: DecodeState): nat
    requires InGroup(st)
  {
    match st case D0 => 0 case D1(_) => 1 case D2(_) => 2 case D3(_) => 3
  }

  /** Once an error, always an error, and nothing more is written. */
  lemma {:induction false} ErrorAbsorbs(a: Alphabet, text: seq<byte>)
    ensures DecodeRun(a, Error, text) == ([], Error)
    decreases |text|
  {
    if text == [] {
    } else {
      ErrorAbsorbs(a, text[1..]);
      assert DecodeByte(a, Error, text[0]).0 + DecodeRun(a, Error, text[1..]).0 == [];
    }
  }

  lemma {:induction false} AfterPadding(a: Alphabet, st: DecodeState, text: seq<byte>)
    requires st.End1? || st.End0?
    ensures var (out, last) := DecodeRun(a, st, text);
      out == [] && (IsDone(last) <==> AllPad(text) && |text| <= if st.End1? then 1 else 0)
    decreases |text|
  {
    if text == [] {
    } else {
      ErrorAbsorbs(a, text[1..]);
      if st.End1? && text[0] == PAD {
        AfterPadding(a, End0, text[1..]);
        assert text == [PAD] + text[1..];
      }
    }
  }

  lemma AfterDigits(a: Alphabet, st: DecodeState, text: seq<byte>)
    requires InGroup(st) && (text == [] || !InAlphabet(a, text[0]))
    ensures var (out, last) := DecodeRun(a, st, text);
      out == [] && (IsDone(last) <==> MayEnd(Phase(st), text))
  {
    if text != [] {
      ErrorAbsorbs(a, text[1..]);
      if text[0] == PAD {
        AfterPadding(a, End1, text[1..]);
        AfterPadding(a, End0, text[1..]);
        assert text == [PAD] + text[1..];
      }
    }
  }

  lemma DigitStep(a: Alphabet, st: DecodeState, c: byte)
    requires InGroup(st) && InAlphabet(a, c)
    ensures
      var (out, next) := DecodeByte(a, st, c);
      && InGroup(next) && Phase(next) == (Phase(st) + 1) % 4
      && |out| == (Phase(st) + 1) * 3 / 4 - Phase(st) * 3 / 4
  {
    TablesInverse(a);
  }

  lemma PhaseArithmetic(n: nat, p: nat)
    requires n > 0 && p < 4
    ensures
      var q := (p + 1) % 4;
      && (n - 1 + q) % 4 == (n + p) % 4
      && (n - 1 + q) * 3 / 4 - q * 3 / 4 + ((p + 1) * 3 / 4 - p * 3 / 4) == (n + p) * 3 / 4 - p * 3 / 4
  {
  }

  /** One induction for all four states inside a group: `p` digits of the group are already read. */
  lemma {:induction false} AcceptsFrom(a: Alphabet, st: DecodeState, text: seq<byte>)
    requires InGroup(st)
    ensures
      var n, p := DigitCount(a, text), Phase(st);
      var (out, last) := DecodeRun(a, st, text);
      && |out| == (n + p) * 3 / 4 - p * 3 / 4
      && (IsDone(last) <==> MayEnd(n + p, text[n..]))
    decreases |text|
  {
    var n := DigitCount(a, text);
    if n == 0 {
      AfterDigits(a, st, text);
      assert text[0..] == text;
    } else {
      var (out, next) := DecodeByte(a, st, text[0]);
      DigitStep(a, st, text[0]);
      PhaseArithmetic(n, Phase(st));
      AcceptsFrom(a, next, text[1..]);
      assert text[1..][n - 1..] == text[n..];
      MayEndPeriodic(n - 1 + Phase(next), n + Phase(st), text[n..]);
    }
  }

  /** The decoder ends done exactly on acceptable text, and always writes floor(3n/4) bytes. */
  lemma AcceptsExactly(a: Alphabet, text: seq<byte>)
    ensures IsDone(DecodeRun(a, D0, text).1) <==> Acceptable(a, text)
    ensures |DecodeRun(a, D0, text).0| == DigitCount(a, text) * 3 / 4
  {
    AcceptsFrom(a, D0, text);
  }

  // ---------------------------------------------------------------- the round trip

  function ByteOf(v: int): (b: byte)
    requires 0 <= v < 256
    ensures b == v
  {
    v
  }

  lemma DecodeFour(a: Alphabet, text: seq<byte>)
    requires |text| >= 4 && forall i | 0 <= i < 4 :: InAlphabet(a, text[i])
    ensures
      var v0, v1, v2, v3 := Value(a, text[0]), Value(a, text[1]), Value(a, text[2]), Value(a, text[3]);
      var (more, last) := DecodeRun(a, D0, text[4..]);
      v0 < 64 && v1 < 64 && v2 < 64 && v3 < 64 &&
      DecodeRun(a, D0, text) == ([v0 * 4 + v1 / 16, (v1 % 16) * 16 + v2 / 4, (v2 % 4) * 64 + v3] + more, last)
  {
    TablesInverse(a);
    var v0, v1, v2, v3 := Value(a, text[0]), Value(a, text[1]), Value(a, text[2]), Value(a, text[3]);
    var (more, last) := DecodeRun(a, D0, text[4..]);
    var one, two, three := text[1..], text[2..], text[3..];
    assert one[1..] == two && two[1..] == three && three[1..] == text[4..];
    assert text[0] != PAD && text[1] != PAD && text[2] != PAD && text[3] != PAD;
    assert DecodeRun(a, D3(v2), three) == ([ByteOf((v2 % 4) * 64 + v3)] + more, last);
    assert DecodeRun(a, D2(v1), two)
        == ([ByteOf((v1 % 16) * 16 + v2 / 4)] + DecodeRun(a, D3(v2), three).0, last);
    assert DecodeRun(a, D1(v0), one) == ([ByteOf(v0 * 4 + v1 / 16)] + DecodeRun(a, D2(v1), two).0, last);
    assert DecodeRun(a, D0, text) == ([] + DecodeRun(a, D1(v0), one).0, last);
    ThreeInFront(ByteOf(v0 * 4 + v1 / 16), ByteOf((v1 % 16) * 16 + v2 / 4), ByteOf((v2 % 4) * 64 + v3), more);
  }

  lemma ThreeInFront<T>(x: T, y: T, z: T, more: seq<T>)
    ensures [] + ([x] + ([y] + ([z] + more))) == [x, y, z] + more
  {
  }

  /** Three bytes split into four digits and joined again. */
  lemma SplitJoin(b0: byte, b1: byte, b2: byte)
    ensures
      var v0, v1, v2, v3 := b0 / 4, (b0 % 4) * 16 + b1 / 16, (b1 % 16) * 4 + b2 / 64, b2 % 64;
      v0 * 4 + v1 / 16 == b0 && (v1 % 16) * 16 + v2 / 4 == b1 && (v2 % 4) * 64 + v3 == b2
  {
  }

  lemma ValuesOfDigits(a: Alphabet, b0: byte, b1: byte, b2: byte)
    ensures
      var ds := Digits(a, Group(b0, b1, b2));
      && (forall i | 0 <= i < 4 :: InAlphabet(a, ds[i]))
      && Value(a, ds[0]) == b0 / 4 && Value(a, ds[1]) == (b0 % 4) * 16 + b1 / 16
      && Value(a, ds[2]) == (b1 % 16) * 4 + b2 / 64 && Value(a, ds[3]) == b2 % 64
  {
    GroupDigits(a, b0, b1, b2);
    TablesInverse(a);
  }

  /** Four digits, read at the start of a group, give the three bytes they spell. */
  lemma DecodeDigits(a: Alphabet, text: seq<byte>, b0: byte, b1: byte, b2: byte)
    requires |text| >= 4 && forall i | 0 <= i < 4 :: InAlphabet(a, text[i])
    requires Value(a, text[0]) * 4 + Value(a, text[1]) / 16 == b0
    requires (Value(a, text[1]) % 16) * 16 + Value(a, text[2]) / 4 == b1
    requires (Value(a, text[2]) % 4) * 64 + Value(a, text[3]) == b2
    ensures
      var (more, last) := DecodeRun(a, D0, text[4..]);
      DecodeRun(a, D0, text) == ([b0, b1, b2] + more, last)
  {
    DecodeFour(a, text);
  }

  lemma DecodeGroup(a: Alphabet, b0: byte, b1: byte, b2: byte, rest: seq<byte>)
    ensures
      var (more, last) := DecodeRun(a, D0, rest);
      DecodeRun(a, D0, Digits(a, Group(b0, b1, b2)) + rest) == ([b0, b1, b2] + more, last)
  {
    ValuesOfDigits(a, b0, b1, b2);
    DecodeSpelled(a, Digits(a, Group(b0, b1, b2)), b0, b1, b2, rest);
  }

  lemma DecodeSpelled(a: Alphabet, ds: seq<byte>, b0: byte, b1: byte, b2: byte, rest: seq<byte>)
    requires |ds| == 4 && forall i | 0 <= i < 4 :: InAlphabet(a, ds[i])
    requires Value(a, ds[0]) == b0 / 4 && Value(a, ds[1]) == (b0 % 4) * 16 + b1 / 16
    requires Value(a, ds[2]) == (b1 % 16) * 4 + b2 / 64 && Value(a, ds[3]) == b2 % 64
    ensures
      var (more, last) := DecodeRun(a, D0, rest);
      DecodeRun(a, D0, ds + rest) == ([b0, b1, b2] + more, last)
  {
    JoinOf(b0, b1, b2, Value(a, ds[0]), Value(a, ds[1]), Value(a, ds[2]), Value(a, ds[3]));
    assert (ds + rest)[4..] == rest;
    DecodeDigits(a, ds + rest, b0, b1, b2);
  }

  lemma JoinOf(b0: byte, b1: byte, b2: byte, v0: int, v1: int, v2: int, v3: int)
    requires v0 == b0 / 4 && v1 == (b0 % 4) * 16 + b1 / 16 && v2 == (b1 % 16) * 4 + b2 / 64 && v3 == b2 % 64
    ensures v0 * 4 + v1 / 16 == b0 && (v1 % 16) * 16 + v2 / 4 == b1 && (v2 % 4) * 64 + v3 == b2
  {
    SplitJoin(b0, b1, b2);
  }

  /** Decoding what section 4 prescribes gives the bytes back and ends done. */
  lemma {:induction false} RoundTrip(a: Alphabet, padding: bool, bytes: seq<byte>)
    ensures
      var (out, last) := DecodeRun(a, D0, Encoded(a, padding, bytes));
      out == bytes && IsDone(last)
    decreases |bytes|
  {
    if |bytes| >= 3 {
      RoundTrip(a, padding, bytes[3..]);
      DecodeGroup(a, bytes[0], bytes[1], bytes[2], Encoded(a, padding, bytes[3..]));
      assert bytes == [bytes[0], bytes[1], bytes[2]] + bytes[3..];
    } else if |bytes| == 2 {
      RoundTripTwo(a, padding, bytes[0], bytes[1]);
      assert bytes == [bytes[0], bytes[1]];
    } else if |bytes| == 1 {
      RoundTripOne(a, padding, bytes[0]);
      assert bytes == [bytes[0]];
    }
  }

  lemma RoundTripOne(a: Alphabet, padding: bool, b: byte)
    ensures
      var (out, last) := DecodeRun(a, D0, Encoded(a, padding, [b]));
      out == [b] && IsDone(last)
  {
    var text := Encoded(a, padding, [b]);
    ValuesOfDigits(a, b, 0, 0);
    SplitJoin(b, 0, 0);
    TwoDigits(a, text);
  }

  lemma RoundTripTwo(a: Alphabet, padding: bool, b0: byte, b1: byte)
    ensures
      var (out, last) := DecodeRun(a, D0, Encoded(a, padding, [b0, b1]));
      out == [b0, b1] && IsDone(last)
  {
    var text := Encoded(a, padding, [b0, b1]);
    ValuesOfDigits(a, b0, b1, 0);
    SplitJoin(b0, b1, 0);
    ThreeDigits(a, text);
  }

  /** The last group when it has two digits. */
  lemma TwoDigits(a: Alphabet, text: seq<byte>)
    requires |text| >= 2 && InAlphabet(a, text[0]) && InAlphabet(a, text[1])
    requires AllPad(text[2..]) && |text| <= 4
    ensures Value(a, text[0]) < 64 && Value(a, text[1]) < 64
    ensures
      var (out, last) := DecodeRun(a, D0, text);
      out == [Value(a, text[0]) * 4 + Value(a, text[1]) / 16] && IsDone(last)
  {
    TablesInverse(a);
    var v0, v1 := Value(a, text[0]), Value(a, text[1]);
    var one, two := text[1..], text[2..];
    assert one[1..] == two;
    AfterDigits(a, D2(v1), two);
    assert DecodeRun(a, D1(v0), one).0 == [ByteOf(v0 * 4 + v1 / 16)] + DecodeRun(a, D2(v1), two).0;
    assert DecodeRun(a, D0, text).0 == [] + DecodeRun(a, D1(v0), one).0;
  }

  /** The last group when it has three digits. */
  lemma ThreeDigits(a: Alphabet, text: seq<byte>)
    requires |text| >= 3 && InAlphabet(a, text[0]) && InAlphabet(a, text[1]) && InAlphabet(a, text[2])
    requires AllPad(text[3..]) && |text| <= 4
    ensures Value(a, text[0]) < 64 && Value(a, text[1]) < 64 && Value(a, text[2]) < 64
    ensures
      var (out, last) := DecodeRun(a, D0, text);
      && out == [Value(a, text[0]) * 4 + Value(a, text[1]) / 16,
                 (Value(a, text[1]) % 16) * 16 + Value(a, text[2]) / 4]
      && IsDone(last)
  {
    TablesInverse(a);
    var v0, v1, v2 := Value(a, text[0]), Value(a, text[1]), Value(a, text[2]);
    var one, two, three := text[1..], text[2..], text[3..];
    assert one[1..] == two && two[1..] == three;
    AfterDigits(a, D3(v2), three);
    assert DecodeRun(a, D2(v1), two).0 == [ByteOf((v1 % 16) * 16 + v2 / 4)] + DecodeRun(a, D3(v2), three).0;
    assert DecodeRun(a, D1(v0), one).0 == [ByteOf(v0 * 4 + v1 / 16)] + DecodeRun(a, D2(v1), two).0;
    assert DecodeRun(a, D0, text).0 == [] + DecodeRun(a, D1(v0), one).0;
  }

  // ---------------------------------------------------------------- the other round trip

  /** The one spelling the encoder writes: no bits left over, and full padding or none. */
  predicate Canonical(a: Alphabet, padding: bool, text: seq<byte>) {
    CanonicalAt(a, padding, DigitCount(a, text), text)
  }

  predicate CanonicalAt(a: Alphabet, padding: bool, n: nat, text: seq<byte>)
    requires n <= |text|
  {
    && (n % 4 == 2 ==> Value(a, text[n - 1]) % 16 == 0)
    && (n % 4 == 3 ==> Value(a, text[n - 1]) % 4 == 0)
    && |text| - n == if padding then PadAllowed(n) else 0
  }

  lemma {:induction false} DigitCountFour(a: Alphabet, text: seq<byte>)
    requires |text| >= 4 && forall i | 0 <= i < 4 :: InAlphabet(a, text[i])
    ensures DigitCount(a, text) == 4 + DigitCount(a, text[4..])
  {
    var one, two, three := text[1..], text[2..], text[3..];
    assert one[1..] == two && two[1..] == three && three[1..] == text[4..];
    assert DigitCount(a, three) == 1 + DigitCount(a, text[4..]);
    assert DigitCount(a, two) == 1 + DigitCount(a, three);
    assert DigitCount(a, one) == 1 + DigitCount(a, two);
  }

  /** Four digits joined into three bytes and split again. */
  lemma JoinSplit(v0: sextet, v1: sextet, v2: sextet, v3: sextet)
    ensures
      var b0, b1, b2 := v0 * 4 + v1 / 16, (v1 % 16) * 16 + v2 / 4, (v2 % 4) * 64 + v3;
      b0 / 4 == v0 && (b0 % 4) * 16 + b1 / 16 == v1 && (b1 % 16) * 4 + b2 / 64 == v2 && b2 % 64 == v3
  {
  }

  lemma DigitsOfValues(a: Alphabet, v0: sextet, v1: sextet, v2: sextet, v3: sextet)
    ensures
      var b0, b1, b2 := v0 * 4 + v1 / 16, (v1 % 16) * 16 + v2 / 4, (v2 % 4) * 64 + v3;
      Digits(a, Group(b0, b1, b2)) == [Digit(a, v0), Digit(a, v1), Digit(a, v2), Digit(a, v3)]
  {
    JoinSplit(v0, v1, v2, v3);
    GroupDigits(a, v0 * 4 + v1 / 16, (v1 % 16) * 16 + v2 / 4, (v2 % 4) * 64 + v3);
  }

  /** On acceptable text, encoding the decoded bytes gives the text back exactly when it is canonical. */
  lemma {:induction false} Reencode(a: Alphabet, padding: bool, text: seq<byte>)
    requires Acceptable(a, text)
    ensures Encoded(a, padding, DecodeRun(a, D0, text).0) == text <==> Canonical(a, padding, text)
    decreases |text|
  {
    var n := DigitCount(a, text);
    if n >= 4 {
      DigitCountMeans(a, text);
      DigitCountFour(a, text);
      CanonicalGroup(a, padding, text);
      Reencode(a, padding, text[4..]);
      ReencodeGroup(a, padding, text);
    } else if n == 0 {
      assert text == [];
    } else if n == 2 {
      ReencodeTwo(a, padding, text);
    } else {
      ReencodeThree(a, padding, text);
    }
  }

  lemma CanonicalGroup(a: Alphabet, padding: bool, text: seq<byte>)
    requires |text| >= 4 && DigitCount(a, text) == 4 + DigitCount(a, text[4..])
    ensures Acceptable(a, text) <==> Acceptable(a, text[4..])
    ensures Canonical(a, padding, text) <==> Canonical(a, padding, text[4..])
  {
    var n, rest := DigitCount(a, text), text[4..];
    assert rest[n - 4..] == text[n..];
    MayEndGroup(n, text[n..]);
    CanonicalPeriodic(a, padding, n, text, rest);
  }

  lemma CanonicalPeriodic(a: Alphabet, padding: bool, n: nat, text: seq<byte>, rest: seq<byte>)
    requires 4 <= n <= |text| && rest == text[4..]
    ensures CanonicalAt(a, padding, n, text) == CanonicalAt(a, padding, n - 4, rest)
  {
    var m := n - 4;
    assert n == m + 4 && n % 4 == m % 4;
    if m > 0 {
      assert rest[m - 1] == text[n - 1];
    }
  }

  lemma ReencodeGroup(a: Alphabet, padding: bool, text: seq<byte>)
    requires |text| >= 4 && forall i | 0 <= i < 4 :: InAlphabet(a, text[i])
    ensures
      var bytes, more := DecodeRun(a, D0, text).0, DecodeRun(a, D0, text[4..]).0;
      Encoded(a, padding, bytes) == text <==> Encoded(a, padding, more) == text[4..]
  {
    ReencodedGroup(a, padding, text);
    FourApart(text);
    SameHead([text[0], text[1], text[2], text[3]], Encoded(a, padding, DecodeRun(a, D0, text[4..]).0), text[4..]);
  }

  lemma ReencodedGroup(a: Alphabet, padding: bool, text: seq<byte>)
    requires |text| >= 4
    requires InAlphabet(a, text[0]) && InAlphabet(a, text[1]) && InAlphabet(a, text[2]) && InAlphabet(a, text[3])
    ensures Encoded(a, padding, DecodeRun(a, D0, text).0)
         == [text[0], text[1], text[2], text[3]] + Encoded(a, padding, DecodeRun(a, D0, text[4..]).0)
  {
    var b0, b1, b2 := GroupBack(a, text);
    EncodedGroup(a, padding, b0, b1, b2, DecodeRun(a, D0, text[4..]).0);
  }

  /** The three bytes that four digits spell, and that are spelled by them. */
  lemma GroupBack(a: Alphabet, text: seq<byte>) returns (b0: byte, b1: byte, b2: byte)
    requires |text| >= 4
    requires InAlphabet(a, text[0]) && InAlphabet(a, text[1]) && InAlphabet(a, text[2]) && InAlphabet(a, text[3])
    ensures DecodeRun(a, D0, text).0 == [b0, b1, b2] + DecodeRun(a, D0, text[4..]).0
    ensures Digits(a, Group(b0, b1, b2)) == [text[0], text[1], text[2], text[3]]
  {
    DigitOfValue(a, text[0]);
    DigitOfValue(a, text[1]);
    DigitOfValue(a, text[2]);
    DigitOfValue(a, text[3]);
    var v0, v1, v2, v3 := Value(a, text[0]), Value(a, text[1]), Value(a, text[2]), Value(a, text[3]);
    b0, b1, b2 := v0 * 4 + v1 / 16, (v1 % 16) * 16 + v2 / 4, (v2 % 4) * 64 + v3;
    DecodeDigits(a, text, b0, b1, b2);
    DigitsOfValues(a, v0, v1, v2, v3);
  }

  lemma FourApart<T>(s: seq<T>)
    requires |s| >= 4
    ensures s == [s[0], s[1], s[2], s[3]] + s[4..]
  {
  }

  lemma EncodedGroup(a: Alphabet, padding: bool, b0: byte, b1: byte, b2: byte, more: seq<byte>)
    ensures Encoded(a, padding, [b0, b1, b2] + more) == Digits(a, Group(b0, b1, b2)) + Encoded(a, padding, more)
  {
    assert ([b0, b1, b2] + more)[3..] == more;
  }

  lemma SameHead<T>(head: seq<T>, x: seq<T>, y: seq<T>)
    ensures head + x == head + y <==> x == y
  {
    if head + x == head + y {
      assert x == (head + x)[|head|..] && y == (head + y)[|head|..];
    }
  }

  /** The two-digit group of one byte: the low four bits of the second digit are lost. */
  lemma EncodedOne(a: Alphabet, padding: bool, v0: sextet, v1: sextet)
    ensures Encoded(a, padding, [ByteOf(v0 * 4 + v1 / 16)])
         == [Digit(a, v0), Digit(a, v1 / 16 * 16)] + (if padding then [PAD, PAD] else [])
  {
    var w: sextet := v1 / 16 * 16;
    assert w / 16 == v1 / 16 && w % 16 == 0;
    DigitsOfValues(a, v0, w, 0, 0);
  }

  /** The three-digit group of two bytes: the low two bits of the third digit are lost. */
  lemma EncodedTwo(a: Alphabet, padding: bool, v0: sextet, v1: sextet, v2: sextet)
    ensures Encoded(a, padding, [ByteOf(v0 * 4 + v1 / 16), ByteOf((v1 % 16) * 16 + v2 / 4)])
         == [Digit(a, v0), Digit(a, v1), Digit(a, v2 / 4 * 4)] + (if padding then [PAD] else [])
  {
    var w: sextet := v2 / 4 * 4;
    assert w / 4 == v2 / 4 && w % 4 == 0;
    DigitsOfValues(a, v0, v1, w, 0);
  }

  lemma LeftOver(v: sextet)
    ensures v == v / 16 * 16 <==> v % 16 == 0
    ensures v == v / 4 * 4 <==> v % 4 == 0
  {
  }

  lemma DigitInjective(a: Alphabet, v: sextet, w: sextet)
    ensures Digit(a, v) == Digit(a, w) <==> v == w
  {
    TablesInverse(a);
  }

  lemma DigitOfValue(a: Alphabet, c: byte)
    requires InAlphabet(a, c)
    ensures Value(a, c) < 64 && Digit(a, Value(a, c)) == c
  {
    TablesInverse(a);
  }

  /** Padding is all `=`, so only its length can differ. */
  lemma PadOnly(text: seq<byte>, k: nat)
    requires AllPad(text)
    ensures text == seq(k, _ => PAD) <==> |text| == k
  {
  }

  lemma ReencodeTwo(a: Alphabet, padding: bool, text: seq<byte>)
    requires Acceptable(a, text) && DigitCount(a, text) == 2
    ensures Encoded(a, padding, DecodeRun(a, D0, text).0) == text <==> Canonical(a, padding, text)
  {
    DigitCountMeans(a, text);
    DigitOfValue(a, text[1]);
    ReencodedTwo(a, padding, text);
    CompareTwo(a, padding, text);
  }

  lemma ReencodedTwo(a: Alphabet, padding: bool, text: seq<byte>)
    requires 2 <= |text| <= 4 && InAlphabet(a, text[0]) && InAlphabet(a, text[1]) && AllPad(text[2..])
    requires Value(a, text[1]) < 64
    ensures Encoded(a, padding, DecodeRun(a, D0, text).0)
         == [text[0], Digit(a, Value(a, text[1]) / 16 * 16)] + (if padding then [PAD, PAD] else [])
  {
    TwoDigits(a, text);
    DigitOfValue(a, text[0]);
    EncodedOne(a, padding, Value(a, text[0]), Value(a, text[1]));
  }

  lemma CompareTwo(a: Alphabet, padding: bool, text: seq<byte>)
    requires Acceptable(a, text) && DigitCount(a, text) == 2
    requires Value(a, text[1]) < 64 && Digit(a, Value(a, text[1])) == text[1]
    ensures [text[0], Digit(a, Value(a, text[1]) / 16 * 16)] + (if padding then [PAD, PAD] else []) == text
       <==> Canonical(a, padding, text)
  {
    var v1, pad := Value(a, text[1]), if padding then [PAD, PAD] else [];
    DigitInjective(a, v1, v1 / 16 * 16);
    LeftOver(v1);
    CutTwo(text[0], Digit(a, v1 / 16 * 16), pad, text);
    PadOnly(text[2..], |pad|);
    assert pad == seq(|pad|, _ => PAD);
  }

  lemma CutAt<T>(head: seq<T>, tail: seq<T>, text: seq<T>)
    requires |head| <= |text|
    ensures head + tail == text <==> head == text[..|head|] && tail == text[|head|..]
  {
    assert text == text[..|head|] + text[|head|..];
    assert (head + tail)[..|head|] == head && (head + tail)[|head|..] == tail;
  }

  lemma ReencodeThree(a: Alphabet, padding: bool, text: seq<byte>)
    requires Acceptable(a, text) && DigitCount(a, text) == 3
    ensures Encoded(a, padding, DecodeRun(a, D0, text).0) == text <==> Canonical(a, padding, text)
  {
    DigitCountMeans(a, text);
    DigitOfValue(a, text[2]);
    ReencodedThree(a, padding, text);
    CompareThree(a, padding, text);
  }

  lemma ReencodedThree(a: Alphabet, padding: bool, text: seq<byte>)
    requires 3 <= |text| <= 4 && AllPad(text[3..])
    requires InAlphabet(a, text[0]) && InAlphabet(a, text[1]) && InAlphabet(a, text[2]) && Value(a, text[2]) < 64
    ensures Encoded(a, padding, DecodeRun(a, D0, text).0)
         == [text[0], text[1], Digit(a, Value(a, text[2]) / 4 * 4)] + (if padding then [PAD] else [])
  {
    ThreeDigits(a, text);
    DigitOfValue(a, text[0]);
    DigitOfValue(a, text[1]);
    var v0, v1, v2 := Value(a, text[0]), Value(a, text[1]), Value(a, text[2]);
    EncodedTwo(a, padding, v0, v1, v2);
    assert DecodeRun(a, D0, text).0 == [ByteOf(v0 * 4 + v1 / 16), ByteOf((v1 % 16) * 16 + v2 / 4)];
  }

  lemma CompareThree(a: Alphabet, padding: bool, text: seq<byte>)
    requires Acceptable(a, text) && DigitCount(a, text) == 3
    requires Value(a, text[2]) < 64 && Digit(a, Value(a, text[2])) == text[2]
    ensures [text[0], text[1], Digit(a, Value(a, text[2]) / 4 * 4)] + (if padding then [PAD] else []) == text
       <==> Canonical(a, padding, text)
  {
    var v2, pad := Value(a, text[2]), if padding then [PAD] else [];
    DigitInjective(a, v2, v2 / 4 * 4);
    LeftOver(v2);
    CutThree(text[0], text[1], Digit(a, v2 / 4 * 4), pad, text);
    PadOnly(text[3..], |pad|);
    assert pad == seq(|pad|, _ => PAD);
  }

  lemma CutThree<T>(x: T, y: T, z: T, tail: seq<T>, text: seq<T>)
    requires |text| >= 3 && x == text[0] && y == text[1]
    ensures [x, y, z] + tail == text <==> z == text[2] && tail == text[3..]
  {
    CutAt([x, y, z], tail, text);
  }

  lemma CutTwo<T>(x: T, y: T, tail: seq<T>, text: seq<T>)
    requires |text| >= 2 && x == text[0]
    ensures [x, y] + tail == text <==> y == text[1] && tail == text[2..]
  {
    CutAt([x, y], tail, text);
  }

  // ---------------------------------------------------------------- every way of cutting the input

  function EncodeChunks(a: Alphabet, chunks: seq<seq<byte>>): (seq<byte>, EncodeState) {
    if chunks == [] then ([], E0) else
    var (out, st) := EncodeChunks(a, chunks[..|chunks| - 1]);
    var (more, last) := EncodeRun(a, st, chunks[|chunks| - 1]);
    (out + more, last)
  }

  function DecodeChunks(a: Alphabet, chunks: seq<seq<byte>>): (seq<byte>, DecodeState) {
    if chunks == [] then ([], D0) else
    var (out, st) := DecodeChunks(a, chunks[..|chunks| - 1]);
    var (more, last) := DecodeRun(a, st, chunks[|chunks| - 1]);
    (out + more, last)
  }

  lemma {:induction false} EncodeChunksFlatten(a: Alphabet, chunks: seq<seq<byte>>)
    ensures EncodeChunks(a, chunks) == EncodeRun(a, E0, Flatten(chunks))
  {
    if chunks == [] {
    } else {
      var front, last := chunks[..|chunks| - 1], chunks[|chunks| - 1];
      EncodeChunksFlatten(a, front);
      EncodeRunConcat(a, E0, Flatten(front), last);
    }
  }

  lemma {:induction false} DecodeChunksFlatten(a: Alphabet, chunks: seq<seq<byte>>)
    ensures DecodeChunks(a, chunks) == DecodeRun(a, D0, Flatten(chunks))
  {
    if chunks == [] {
    } else {
      var front, last := chunks[..|chunks| - 1], chunks[|chunks| - 1];
      DecodeChunksFlatten(a, front);
      DecodeRunConcat(a, D0, Flatten(front), last);
    }
  }

  /** However the bytes are cut on the way in, and however the text is cut on the way out. */
  lemma StreamingRoundTrip(a: Alphabet, padding: bool, plain: seq<seq<byte>>, coded: seq<seq<byte>>)
    requires
      var (text, last) := EncodeChunks(a, plain);
      Flatten(coded) == text + EncodeRest(a, padding, last)
    ensures Flatten(coded) == Encoded(a, padding, Flatten(plain))
    ensures
      var (out, last) := DecodeChunks(a, coded);
      out == Flatten(plain) && IsDone(last)
  {
    EncodeChunksFlatten(a, plain);
    DecodeChunksFlatten(a, coded);
    EncoderMeetsStandard(a, padding, Flatten(plain));
    RoundTrip(a, padding, Flatten(plain));
  }
}
