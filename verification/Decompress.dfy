/** Unwinding `Content-Encoding`: the middleware that undoes the codings of a request body, last first. */
module Decompress {
  import opened Wrappers
  import opened Strings

  datatype Coding = Deflate | Gzip | Brotli | Identity

  /** What this build supports. */
  datatype Build = Build(zlib: bool, brotli: bool)

  /** The coding a name stands for; None if the build does not support it. */
  function Named(build: Build, name: string): Option<Coding> {
    if EqualIgnoringCase(name, "deflate") then Some(Deflate)
    else if build.zlib && EqualIgnoringCase(name, "gzip") then Some(Gzip)
    else if build.brotli && EqualIgnoringCase(name, "brotli") then Some(Brotli)
    else if EqualIgnoringCase(name, "identity") then Some(Identity)
    else None
  }

  /** Each name stands for its own coding, in any case, if the build has it; and no other name for any. */
  lemma NamedIs(build: Build, name: string)
    ensures Named(build, name) == Some(Deflate) <==> EqualIgnoringCase(name, "deflate")
    ensures Named(build, name) == Some(Gzip) <==> build.zlib && EqualIgnoringCase(name, "gzip")
    ensures Named(build, name) == Some(Brotli) <==> build.brotli && EqualIgnoringCase(name, "brotli")
    ensures Named(build, name) == Some(Identity) <==> EqualIgnoringCase(name, "identity")
  {
    assert |"deflate"| == 7 && |"gzip"| == 4 && |"brotli"| == 6 && |"identity"| == 8;
  }

  /** A compression library: what each coding does to a body, and undoes. */
  datatype Codec<!B> = Codec(encode: (Coding, B) -> B, decode: (Coding, B) -> B)

  /** Undoing `identity` does nothing. */
  ghost predicate KeepsIdentity<B(!new)>(codec: Codec<B>) {
    forall b :: codec.decode(Identity, b) == b
  }

  ghost predicate Inverse<B(!new)>(codec: Codec<B>) {
    forall c, b :: codec.decode(c, codec.encode(c, b)) == b
  }

  predicate Supported(build: Build, names: seq<string>) {
    forall i | 0 <= i < |names| :: Named(build, names[i]).Some?
  }

  /** Section 8.4 of RFC 9110: the codings in the order in which they were applied. */
  function EncodedBy<B>(codec: Codec<B>, build: Build, names: seq<string>, plain: B): B
    requires Supported(build, names)
  {
    if names == [] then plain
    else codec.encode(Named(build, names[|names| - 1]).value, EncodedBy(codec, build, names[..|names| - 1], plain))
  }

  /** Undoing them from the last to the first. */
  function DecodedBy<B>(codec: Codec<B>, build: Build, names: seq<string>, body: B): B
    requires Supported(build, names)
  {
    if names == [] then body
    else DecodedBy(codec, build, names[..|names| - 1], codec.decode(Named(build, names[|names| - 1]).value, body))
  }

  lemma {:induction false} DecodedInverts<B(!new)>(codec: Codec<B>, build: Build, names: seq<string>, plain: B)
    requires Inverse(codec) && Supported(build, names)
    ensures DecodedBy(codec, build, names, EncodedBy(codec, build, names, plain)) == plain
  {
    if names == [] {
    } else {
      DecodedInverts(codec, build, names[..|names| - 1], plain);
    }
  }

  // ---------------------------------------------------------------- the header text

  function LastComma(s: string): (n: nat)
    ensures n <= |s|
    ensures n > 0 ==> s[n - 1] == ',' && Free(s[n..], ",")
    ensures n == 0 ==> Free(s, ",")
  {
    if s == "" then 0
    else if s[|s| - 1] == ',' then |s|
    else
      var n := LastComma(s[..|s| - 1]);
      assert s == s[..|s| - 1] + [s[|s| - 1]];
      n
  }

  /** Everything before the last comma. */
  function RemoveLastEncoding(s: string): string {
    var n := LastComma(s);
    if n > 0 then s[..n - 1] else ""
  }

  lemma CutAtComma(s: string, n: nat)
    requires 0 < n <= |s| && s[n - 1] == ','
    ensures s == s[..n - 1] + [','] + s[n..]
  {
  }

  lemma SplitAtComma(s: string, n: nat)
    requires 0 < n <= |s| && s[n - 1] == ',' && Free(s[n..], ",")
    ensures Split(s, ",") == Split(s[..n - 1], ",") + [Trimmed(s[n..])]
  {
    CutAtComma(s, n);
    SplitLast(s[..n - 1], ',', s[n..], ",");
  }

  lemma DropLast<T>(names: seq<T>, last: T)
    ensures (names + [last])[..|names + [last]| - 1] == names
  {
  }

  /** Cutting the text at its last comma drops the last name and no other. */
  lemma RemoveDropsLast(s: string)
    ensures
      var names := Split(s, ",");
      if |names| == 1 then RemoveLastEncoding(s) == ""
      else Split(RemoveLastEncoding(s), ",") == names[..|names| - 1]
  {
    var n := LastComma(s);
    if n == 0 {
      SplitNone(s, ",");
    } else {
      SplitAtComma(s, n);
      DropLast(Split(s[..n - 1], ","), Trimmed(s[n..]));
    }
  }

  // ---------------------------------------------------------------- the middleware

  /** The refusal, or the request handed on: its body, and its header unless that was erased. */
  datatype Outcome<!B> = Refused | Next(body: B, header: Option<string>)

  /** One turn of the loop: the body behind one more decoder, or None if the name is not supported. */
  method Undo<B(!new)>(codec: Codec<B>, build: Build, name: string, body: B) returns (r: Option<B>)
    requires KeepsIdentity(codec)
    ensures r == match Named(build, name) case None => None case Some(c) => Some(codec.decode(c, body))
  {
    if EqualIgnoringCase(name, "deflate") {
      return Some(codec.decode(Deflate, body));
    } else if build.zlib && EqualIgnoringCase(name, "gzip") {
      return Some(codec.decode(Gzip, body));
    } else if build.brotli && EqualIgnoringCase(name, "brotli") {
      return Some(codec.decode(Brotli, body));
    } else if EqualIgnoringCase(name, "identity") {
      return Some(body);
    } else {
      return None;
    }
  }

  lemma SupportedMore(build: Build, names: seq<string>, k: nat)
    requires 0 < k <= |names|
    ensures Supported(build, names[k - 1..]) <==> Named(build, names[k - 1]).Some? && Supported(build, names[k..])
  {
    assert names[k - 1..] == [names[k - 1]] + names[k..];
  }

  lemma SupportedPart(build: Build, names: seq<string>, k: nat)
    requires k < |names| && Named(build, names[k]).None?
    ensures !Supported(build, names)
  {
  }

  lemma TextStep(text: string, names: seq<string>, k: nat)
    requires 0 < k <= |names| && Split(text, ",") == names[..k]
    ensures if k > 1 then Split(RemoveLastEncoding(text), ",") == names[..k - 1] else RemoveLastEncoding(text) == ""
  {
    RemoveDropsLast(text);
    assert names[..k][..k - 1] == names[..k - 1];
  }

  lemma DecodeNext<B>(codec: Codec<B>, build: Build, names: seq<string>, k: nat, body: B)
    requires 0 < k <= |names| && Supported(build, names)
    ensures DecodedBy(codec, build, names[..k], body)
         == DecodedBy(codec, build, names[..k - 1], codec.decode(Named(build, names[k - 1]).value, body))
  {
    assert names[..k][..k - 1] == names[..k - 1];
  }

  /** The next handler is reached exactly when every listed coding is supported, and always without the
      header: the text left after the loop is empty. A body coded in the listed order arrives restored. */
  method Handle<B(!new)>(codec: Codec<B>, build: Build, header: Option<string>, received: B)
    returns (r: Outcome<B>)
    requires KeepsIdentity(codec)
    ensures header.None? ==> r == Next(received, None)
    ensures header.Some? ==>
      var names := Split(header.value, ",");
      r == if Supported(build, names) then Next(DecodedBy(codec, build, names, received), None) else Refused
    ensures Inverse(codec) && header.Some? && Supported(build, Split(header.value, ",")) ==>
      forall plain | received == EncodedBy(codec, build, Split(header.value, ","), plain) :: r == Next(plain, None)
  {
    if header.None? { return Next(received, None); }
    var names := SplitOf(header.value, ",");
    var decoded, text := UndoAll(codec, build, header.value, names, received);
    if decoded.None? { return Refused; }
    forall plain | Inverse(codec) && received == EncodedBy(codec, build, names, plain)
      ensures DecodedBy(codec, build, names, received) == plain
    {
      DecodedInverts(codec, build, names, plain);
    }
    return Next(decoded.value, if text == "" then None else Some(text));
  }

  /** The loop: the last coding is undone first, and its name is cut off the header's text. */
  method UndoAll<B(!new)>(codec: Codec<B>, build: Build, header: string, names: seq<string>, received: B)
    returns (r: Option<B>, text: string)
    requires KeepsIdentity(codec) && names == Split(header, ",")
    ensures r == if Supported(build, names) then Some(DecodedBy(codec, build, names, received)) else None
    ensures r.Some? ==> text == ""
  {
    text := header;
    var body := received;
    var k := |names|;
    assert names[..k] == names;
    while k > 0
      invariant 0 <= k <= |names|
      invariant if k > 0 then Split(text, ",") == names[..k] else text == ""
      invariant Supported(build, names[k..])
      invariant Supported(build, names) ==>
        DecodedBy(codec, build, names[..k], body) == DecodedBy(codec, build, names, received)
    {
      var undone := Undo(codec, build, names[k - 1], body);
      if undone.None? {
        SupportedPart(build, names, k - 1);
        return None, text;
      }
      SupportedMore(build, names, k);
      if Supported(build, names) { DecodeNext(codec, build, names, k, body); }
      body := undone.value;
      TextStep(text, names, k);
      text := RemoveLastEncoding(text);
      k := k - 1;
    }
    assert names[k..] == names;
    r := Some(body);
  }
}
