/** Base64 (sections 4 and 5 of RFC 4648): the two streaming state machines, the group-wise encoding
    of the standard as an independent reference, and the laws that connect them. */
module Base64Codec {
  import opened Basics

  /** The value of six bits, or the marker for a character outside the alphabet. */
  type sextet = x: int | 0 <= x < 64

  datatype Alphabet = Standard | Url

  const PAD: byte := 61
  const NOT_IN_ALPHABET: byte := 255

  /** The encode tables. */
  function Digit(a: Alphabet, v: sextet): byte {
    if v < 26 then 65 + v
    else if v < 52 then 97 + (v - 26)
    else if v < 62 then 48 + (v - 52)
    else if v == 62 then (if a == Standard then 43 else 45)
    else (if a == Standard then 47 else 95)
  }

  /** The decode tables. */
  function Value(a: Alphabet, c: byte): byte {
    if 65 <= c <= 90 then c - 65
    else if 97 <= c <= 122 then c - 97 + 26
    else if 48 <= c <= 57 then c - 48 + 52
    else if c == (if a == Standard then 43 else 45) then 62
    else if c == (if a == Standard then 47 else 95) then 63
    else NOT_IN_ALPHABET
  }

  predicate InAlphabet(a: Alphabet, c: byte) {
    Value(a, c) != NOT_IN_ALPHABET
  }

  /** The two tables of an alphabet are inverse to each other, and padding is in neither. */
  lemma TablesInverse(a: Alphabet)
    ensures forall v: sextet :: Value(a, Digit(a, v)) == v && InAlphabet(a, Digit(a, v))
    ensures forall c: byte | InAlphabet(a, c) :: Value(a, c) < 64 && Digit(a, Value(a, c)) == c
    ensures !InAlphabet(a, PAD)
  {
  }

  // ---------------------------------------------------------------- the encoder

  datatype EncodeState = E0 | E1(rest: byte) | E2(rest: byte)

  function EncodeByte(a: Alphabet, st: EncodeState, b: byte): (seq<byte>, EncodeState) {
    match st
    case E0 => ([Digit(a, b / 4)], E1(b))
    case E1(rest) => ([Digit(a, (rest % 4) * 16 + b / 16)], E2(b))
    case E2(rest) => ([Digit(a, (rest % 16) * 4 + b / 64), Digit(a, b % 64)], E0)
  }

  function EncodeRest(a: Alphabet, padding: bool, st: EncodeState): seq<byte> {
    match st
    case E0 => []
    case E1(rest) => [Digit(a, (rest % 4) * 16)] + (if padding then [PAD, PAD] else [])
    case E2(rest) => [Digit(a, (rest % 16) * 4)] + (if padding then [PAD] else [])
  }

  /** Feeding a run of bytes. */
  function EncodeRun(a: Alphabet, st: EncodeState, input: seq<byte>): (seq<byte>, EncodeState)
    decreases |input|
  {
    if input == [] then ([], st) else
    var (out, next) := EncodeByte(a, st, input[0]);
    var (more, last) := EncodeRun(a, next, input[1..]);
    (out + more, last)
  }

  // ---------------------------------------------------------------- the decoder

  datatype DecodeState = D0 | D1(rest: sextet) | D2(rest: sextet) | D3(rest: sextet) | End1 | End0 | Error

  predicate IsDone(st: DecodeState) {
    !st.Error? && !st.D1?
  }

  function DecodeByte(a: Alphabet, st: DecodeState, c: byte): (seq<byte>, DecodeState) {
    var v := Value(a, c);
    match st
    case D0 => if !InAlphabet(a, c) then ([], Error) else ([], D1(v))
    case D1(rest) => if !InAlphabet(a, c) then ([], Error) else ([rest * 4 + v / 16], D2(v))
    case D2(rest) =>
      if c == PAD then ([], End1)
      else if !InAlphabet(a, c) then ([], Error) else ([(rest % 16) * 16 + v / 4], D3(v))
    case D3(rest) =>
      if c == PAD then ([], End0)
      else if !InAlphabet(a, c) then ([], Error) else ([(rest % 4) * 64 + v], D0)
    case End1 => if c == PAD then ([], End0) else ([], Error)
    case End0 => ([], Error)
    case Error => ([], Error)
  }

  function DecodeRun(a: Alphabet, st: DecodeState, input: seq<byte>): (seq<byte>, DecodeState)
    decreases |input|
  {
    if input == [] then ([], st) else
    var (out, next) := DecodeByte(a, st, input[0]);
    var (more, last) := DecodeRun(a, next, input[1..]);
    (out + more, last)
  }

  // ---------------------------------------------------------------- the standard

  /** Section 4: three bytes as one 24-bit group, written as four digits; a final group of one or two
      bytes is zero-filled and written as two or three digits, padded to four if padding is on. */
  function Encoded(a: Alphabet, padding: bool, bytes: seq<byte>): seq<byte>
    decreases |bytes|
  {
    if |bytes| == 0 then []
    else if |bytes| == 1 then Digits(a, Group(bytes[0], 0, 0))[..2] + (if padding then [PAD, PAD] else [])
    else if |bytes| == 2 then Digits(a, Group(bytes[0], bytes[1], 0))[..3] + (if padding then [PAD] else [])
    else Digits(a, Group(bytes[0], bytes[1], bytes[2])) + Encoded(a, padding, bytes[3..])
  }

  function Group(b0: byte, b1: byte, b2: byte): (g: int)
    ensures 0 <= g < 0x100_0000
  {
    b0 * 0x1_0000 + b1 * 0x100 + b2
  }

  function Digits(a: Alphabet, g: int): (ds: seq<byte>)
    requires 0 <= g < 0x100_0000
    ensures |ds| == 4
  {
    [Digit(a, g / 0x4_0000), Digit(a, g / 0x1000 % 64), Digit(a, g / 64 % 64), Digit(a, g % 64)]
  }

  // ---------------------------------------------------------------- chunks do not matter

  lemma {:induction false} EncodeRunConcat(a: Alphabet, st: EncodeState, x: seq<byte>, y: seq<byte>)
    ensures EncodeRun(a, st, x + y) ==
      var (out, mid) := EncodeRun(a, st, x);
      var (more, last) := EncodeRun(a, mid, y);
      (out + more, last)
    decreases |x|
  {
    if x == [] {
      assert x + y == y && [] + EncodeRun(a, st, y).0 == EncodeRun(a, st, y).0;
    } else {
      var (out, next) := EncodeByte(a, st, x[0]);
      EncodeRunConcat(a, next, x[1..], y);
      assert (x + y)[0] == x[0] && (x + y)[1..] == x[1..] + y;
      var (tail, mid) := EncodeRun(a, next, x[1..]);
      Associative(out, tail, EncodeRun(a, mid, y).0);
    }
  }

  lemma {:induction false} DecodeRunConcat(a: Alphabet, st: DecodeState, x: seq<byte>, y: seq<byte>)
    ensures DecodeRun(a, st, x + y) ==
      var (out, mid) := DecodeRun(a, st, x);
      var (more, last) := DecodeRun(a, mid, y);
      (out + more, last)
    decreases |x|
  {
    if x == [] {
      assert x + y == y && [] + DecodeRun(a, st, y).0 == DecodeRun(a, st, y).0;
    } else {
      var (out, next) := DecodeByte(a, st, x[0]);
      DecodeRunConcat(a, next, x[1..], y);
      assert (x + y)[0] == x[0] && (x + y)[1..] == x[1..] + y;
      var (tail, mid) := DecodeRun(a, next, x[1..]);
      Associative(out, tail, DecodeRun(a, mid, y).0);
    }
  }

  lemma EncodeRunOne(a: Alphabet, st: EncodeState, b: byte)
    ensures EncodeRun(a, st, [b]) == EncodeByte(a, st, b)
  {
    var (out, next) := EncodeByte(a, st, b);
    assert [b][1..] == [] && out + [] == out;
  }

  lemma DecodeRunOne(a: Alphabet, st: DecodeState, c: byte)
    ensures DecodeRun(a, st, [c]) == DecodeByte(a, st, c)
  {
    var (out, next) := DecodeByte(a, st, c);
    assert [c][1..] == [] && out + [] == out;
  }

  function Flatten(chunks: seq<seq<byte>>): seq<byte> {
    if chunks == [] then [] else Flatten(chunks[..|chunks| - 1]) + chunks[|chunks| - 1]
  }

  // ---------------------------------------------------------------- the encoder meets the standard

  lemma SixBits(x: int, q: int, r: int)
    requires 0 <= r < 64 && x == q * 64 + r
    ensures x / 64 == q && x % 64 == r
  {
  }

  lemma ThreePieces(x: nat)
    ensures x / 0x1000 == x / 64 / 64 && x / 0x4_0000 == x / 64 / 64 / 64
  {
  }

  /** The four six-bit pieces of three bytes. */
  lemma GroupArithmetic(b0: byte, b1: byte, b2: byte)
    ensures var g := Group(b0, b1, b2);
      && g / 0x4_0000 == b0 / 4 && g / 0x1000 % 64 == (b0 % 4) * 16 + b1 / 16
      && g / 64 % 64 == (b1 % 16) * 4 + b2 / 64 && g % 64 == b2 % 64
  {
    var g := Group(b0, b1, b2);
    var d0, d1, d2, d3 := b0 / 4, (b0 % 4) * 16 + b1 / 16, (b1 % 16) * 4 + b2 / 64, b2 % 64;
    assert g == ((d0 * 64 + d1) * 64 + d2) * 64 + d3;
    SixBits(g, (d0 * 64 + d1) * 64 + d2, d3);
    SixBits((d0 * 64 + d1) * 64 + d2, d0 * 64 + d1, d2);
    SixBits(d0 * 64 + d1, d0, d1);
    ThreePieces(g);
  }

  lemma GroupDigits(a: Alphabet, b0: byte, b1: byte, b2: byte)
    ensures Digits(a, Group(b0, b1, b2)) ==
      [Digit(a, b0 / 4), Digit(a, (b0 % 4) * 16 + b1 / 16), Digit(a, (b1 % 16) * 4 + b2 / 64), Digit(a, b2 % 64)]
  {
    GroupArithmetic(b0, b1, b2);
  }

  /** Streaming and then flushing writes exactly what section 4 prescribes. */
  lemma {:induction false} EncoderMeetsStandard(a: Alphabet, padding: bool, bytes: seq<byte>)
    ensures var (out, last) := EncodeRun(a, E0, bytes);
      out + EncodeRest(a, padding, last) == Encoded(a, padding, bytes)
    decreases |bytes|
  {
    if |bytes| >= 3 {
      EncoderMeetsStandard(a, padding, bytes[3..]);
      EncodeThree(a, bytes);
      GroupDigits(a, bytes[0], bytes[1], bytes[2]);
      var (more, last) := EncodeRun(a, E0, bytes[3..]);
      Associative(Digits(a, Group(bytes[0], bytes[1], bytes[2])), more, EncodeRest(a, padding, last));
    } else {
      EncodeTail(a, padding, bytes);
    }
  }

  lemma EncodeThree(a: Alphabet, bytes: seq<byte>)
    requires |bytes| >= 3
    ensures var (more, last) := EncodeRun(a, E0, bytes[3..]);
      EncodeRun(a, E0, bytes) == (
        [Digit(a, bytes[0] / 4), Digit(a, (bytes[0] % 4) * 16 + bytes[1] / 16),
         Digit(a, (bytes[1] % 16) * 4 + bytes[2] / 64), Digit(a, bytes[2] % 64)] + more, last)
  {
    var (more, last) := EncodeRun(a, E0, bytes[3..]);
    var one, two := bytes[1..], bytes[2..];
    assert one[1..] == two && two[1..] == bytes[3..];
    assert EncodeRun(a, E2(bytes[1]), two)
        == ([Digit(a, (bytes[1] % 16) * 4 + bytes[2] / 64), Digit(a, bytes[2] % 64)] + more, last);
    assert EncodeRun(a, E1(bytes[0]), one)
        == ([Digit(a, (bytes[0] % 4) * 16 + bytes[1] / 16)] + EncodeRun(a, E2(bytes[1]), two).0, last);
    FourInFront(Digit(a, bytes[0] / 4), Digit(a, (bytes[0] % 4) * 16 + bytes[1] / 16),
                Digit(a, (bytes[1] % 16) * 4 + bytes[2] / 64), Digit(a, bytes[2] % 64), more);
  }

  lemma FourInFront<T>(w: T, x: T, y: T, z: T, more: seq<T>)
    ensures [w] + ([x] + ([y, z] + more)) == [w, x, y, z] + more
  {
  }

  lemma EncodeTail(a: Alphabet, padding: bool, bytes: seq<byte>)
    requires |bytes| < 3
    ensures var (out, last) := EncodeRun(a, E0, bytes);
      out + EncodeRest(a, padding, last) == Encoded(a, padding, bytes)
  {
    if |bytes| == 1 {
      EncodeRunOne(a, E0, bytes[0]);
      assert bytes == [bytes[0]];
      EncodedOne(a, padding, bytes);
    } else if |bytes| == 2 {
      EncodeTwo(a, bytes);
      EncodedTwo(a, padding, bytes);
    }
  }

  lemma EncodedOne(a: Alphabet, padding: bool, bytes: seq<byte>)
    requires |bytes| == 1
    ensures Encoded(a, padding, bytes) == [Digit(a, bytes[0] / 4)] + EncodeRest(a, padding, E1(bytes[0]))
  {
    GroupDigits(a, bytes[0], 0, 0);
    assert Digits(a, Group(bytes[0], 0, 0))[..2] == [Digit(a, bytes[0] / 4), Digit(a, (bytes[0] % 4) * 16)];
  }

  lemma EncodedTwo(a: Alphabet, padding: bool, bytes: seq<byte>)
    requires |bytes| == 2
    ensures Encoded(a, padding, bytes)
         == [Digit(a, bytes[0] / 4), Digit(a, (bytes[0] % 4) * 16 + bytes[1] / 16)]
          + EncodeRest(a, padding, E2(bytes[1]))
  {
    GroupDigits(a, bytes[0], bytes[1], 0);
    assert Digits(a, Group(bytes[0], bytes[1], 0))[..3]
        == [Digit(a, bytes[0] / 4), Digit(a, (bytes[0] % 4) * 16 + bytes[1] / 16), Digit(a, (bytes[1] % 16) * 4)];
  }

  lemma EncodeTwo(a: Alphabet, bytes: seq<byte>)
    requires |bytes| == 2
    ensures EncodeRun(a, E0, bytes) ==
      ([Digit(a, bytes[0] / 4), Digit(a, (bytes[0] % 4) * 16 + bytes[1] / 16)], E2(bytes[1]))
  {
    EncodeRunOne(a, E0, bytes[0]);
    EncodeRunOne(a, E1(bytes[0]), bytes[1]);
    EncodeRunConcat(a, E0, [bytes[0]], [bytes[1]]);
    assert bytes == [bytes[0]] + [bytes[1]];
    var x, y := Digit(a, bytes[0] / 4), Digit(a, (bytes[0] % 4) * 16 + bytes[1] / 16);
    assert [x] + [y] == [x, y];
  }

  lemma LengthStep(n: nat)
    requires n >= 3
    ensures 4 + (n - 3 + 2) / 3 * 4 == (n + 2) / 3 * 4
    ensures 4 + ((n - 3) * 4 + 2) / 3 == (n * 4 + 2) / 3
  {
  }

  /** The encoded length: four digits a group when padded, else the digits the bits need. */
  lemma {:induction false} EncodedLength(a: Alphabet, padding: bool, bytes: seq<byte>)
    ensures |Encoded(a, padding, bytes)| ==
      if padding then (|bytes| + 2) / 3 * 4 else (|bytes| * 4 + 2) / 3
    decreases |bytes|
  {
    if |bytes| < 3 {
    } else {
      EncodedLength(a, padding, bytes[3..]);
      LengthStep(|bytes|);
    }
  }
}
