/** Base64: the two stream objects, which keep their state between calls. */
module Base64Stream {
  import opened Basics
  import opened Wrappers
  import opened Base64Codec
  import opened Base64Laws

  datatype EncoderPhase = S0 | S1 | S2

  class Encoder {
    const alphabet: Alphabet
    const padding: bool
    var phase: EncoderPhase
    var rest: byte

    function State(): EncodeState
      reads this
    {
      match phase case S0 => E0 case S1 => E1(rest) case S2 => E2(rest)
    }

    constructor (alphabet: Alphabet, padding: bool)
      ensures this.alphabet == alphabet && this.padding == padding && State() == E0
    {
      this.alphabet, this.padding := alphabet, padding;
      phase, rest := S0, 0;
    }

    method EncodeOne(b: byte) returns (out: seq<byte>)
      modifies this
      ensures (out, State()) == EncodeByte(alphabet, old(State()), b)
    {
      match phase
      case S2 =>
        out := [Digit(alphabet, (rest % 16) * 4 + b / 64), Digit(alphabet, b % 64)];
        phase := S0;
      case S1 =>
        out := [Digit(alphabet, (rest % 4) * 16 + b / 16)];
        rest, phase := b, S2;
      case S0 =>
        out := [Digit(alphabet, b / 4)];
        rest, phase := b, S1;
    }

    method EncodeNext(input: seq<byte>) returns (out: seq<byte>)
      modifies this
      ensures (out, State()) == EncodeRun(alphabet, old(State()), input)
    {
      out := [];
      var i := 0;
      while i < |input|
        invariant 0 <= i <= |input|
        invariant (out, State()) == EncodeRun(alphabet, old(State()), input[..i])
      {
        EncodeRunConcat(alphabet, old(State()), input[..i], [input[i]]);
        assert input[..i + 1] == input[..i] + [input[i]];
        EncodeRunOne(alphabet, State(), input[i]);
        var more := EncodeOne(input[i]);
        out := out + more;
        i := i + 1;
      }
      assert input[..i] == input;
    }

    method EncodeRemainder() returns (out: seq<byte>)
      modifies this
      ensures out == EncodeRest(alphabet, padding, old(State())) && State() == E0
    {
      match phase
      case S2 =>
        out := [Digit(alphabet, (rest % 16) * 4)];
        if padding { out := out + [PAD]; }
        phase := S0;
      case S1 =>
        out := [Digit(alphabet, (rest % 4) * 16)];
        if padding {
          out := out + [PAD];
          out := out + [PAD];
        }
        phase := S0;
      case S0 =>
        out := [];
    }

    /** On a fresh encoder this is the text of section 4, and the encoder is fresh again. */
    method Encode(input: seq<byte>) returns (out: seq<byte>)
      modifies this
      ensures out == EncodeRun(alphabet, old(State()), input).0
                     + EncodeRest(alphabet, padding, EncodeRun(alphabet, old(State()), input).1)
      ensures old(State()) == E0 ==> out == Encoded(alphabet, padding, input)
      ensures State() == E0
    {
      var head := EncodeNext(input);
      var tail := EncodeRemainder();
      out := head + tail;
      EncoderMeetsStandard(alphabet, padding, input);
    }
  }

  datatype DecoderPhase = P0 | P1 | P2 | P3 | PEnd1 | PEnd0 | PError

  class Decoder {
    const alphabet: Alphabet
    var phase: DecoderPhase
    var rest: byte

    /** The digit kept between characters is a six-bit value wherever it is still needed. */
    ghost predicate Valid()
      reads this
    {
      phase in {P1, P2, P3} ==> rest < 64
    }

    function State(): DecodeState
      requires Valid()
      reads this
    {
      match phase
      case P0 => D0
      case P1 => D1(rest)
      case P2 => D2(rest)
      case P3 => D3(rest)
      case PEnd1 => End1
      case PEnd0 => End0
      case PError => Error
    }

    constructor (alphabet: Alphabet)
      ensures Valid() && this.alphabet == alphabet && State() == D0
    {
      this.alphabet := alphabet;
      phase, rest := P0, 0;
    }

    method DecodeOne(c: byte) returns (out: seq<byte>)
      requires Valid()
      modifies this
      ensures Valid() && (out, State()) == DecodeByte(alphabet, old(State()), c)
    {
      TablesInverse(alphabet);
      out := [];
      if phase == PError { return; }
      match phase
      case P0 =>
        rest := Value(alphabet, c);
        phase := if rest == NOT_IN_ALPHABET then PError else P1;
      case P1 =>
        var curr := Value(alphabet, c);
        if curr == NOT_IN_ALPHABET {
          phase := PError;
        } else {
          out := [rest * 4 + curr / 16];
          rest, phase := curr, P2;
        }
      case P2 =>
        if c == PAD {
          phase := PEnd1;
        } else {
          var curr := Value(alphabet, c);
          if curr == NOT_IN_ALPHABET {
            phase := PError;
          } else {
            out := [(rest % 16) * 16 + curr / 4];
            rest, phase := curr, P3;
          }
        }
      case P3 =>
        if c == PAD {
          phase := PEnd0;
        } else {
          var curr := Value(alphabet, c);
          if curr == NOT_IN_ALPHABET {
            phase := PError;
          } else {
            out := [(rest % 4) * 64 + curr];
            phase := P0;
          }
        }
      case PEnd1 =>
        phase := if c == PAD then PEnd0 else PError;
      case PEnd0 =>
        phase := PError;
      case PError =>
    }

    /** The loop stops at the first error; that changes nothing, since an error is absorbing. */
    method DecodeNext(input: seq<byte>) returns (out: seq<byte>)
      requires Valid()
      modifies this
      ensures Valid() && (out, State()) == DecodeRun(alphabet, old(State()), input)
    {
      out := [];
      var i := 0;
      while i < |input|
        invariant 0 <= i <= |input| && Valid()
        invariant (out, State()) == DecodeRun(alphabet, old(State()), input[..i])
      {
        DecodeRunConcat(alphabet, old(State()), input[..i], [input[i]]);
        assert input[..i + 1] == input[..i] + [input[i]];
        DecodeRunOne(alphabet, State(), input[i]);
        var more := DecodeOne(input[i]);
        out := out + more;
        i := i + 1;
        if phase == PError {
          DecodeRunConcat(alphabet, old(State()), input[..i], input[i..]);
          ErrorAbsorbs(alphabet, input[i..]);
          assert input == input[..i] + input[i..] && out + [] == out;
          return;
        }
      }
      assert input[..i] == input;
    }

    /** A whole text at once, on a decoder of its own: this object is left as it was. */
    method Decode(input: seq<byte>) returns (r: Option<seq<byte>>)
      ensures r.Some? <==> Acceptable(alphabet, input)
      ensures r.Some? ==> r.value == DecodeRun(alphabet, D0, input).0
                          && |r.value| == DigitCount(alphabet, input) * 3 / 4
      ensures forall padding, bytes | input == Encoded(alphabet, padding, bytes) :: r == Some(bytes)
    {
      var decoder := new Decoder(alphabet);
      var out := decoder.DecodeNext(input);
      r := if IsDone(decoder.State()) then Some(out) else None;
      AcceptsExactly(alphabet, input);
      forall padding, bytes | input == Encoded(alphabet, padding, bytes) ensures r == Some(bytes) {
        RoundTrip(alphabet, padding, bytes);
      }
    }
  }
}
