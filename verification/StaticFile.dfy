/** Serving a file: preconditions, the `Range` header, and the partial response. */
module StaticFile {
  import opened Basics
  import opened Wrappers
  import opened Strings
  import opened ByteRanges
  import opened EntityTags
  import F = FileStream

  datatype State =
    | FullRangeOnly
    | FullRange
    | RangeNotSatisfiable
    | Partial(subrange: Subrange)
    | BadRequest
    | NotModified

  /** The headers `open` looks at. `since` is `If-Modified-Since` if present: None if its date is
      malformed, else whether the file is no newer than it. */
  datatype Headers = Headers(ifNoneMatch: Option<string>, since: Option<Option<bool>>, range: Option<string>)

  /** `If-None-Match` wins; None is a malformed header. */
  function CheckIfNotModified(etag: EntityTag, headers: Headers): Option<bool> {
    match headers.ifNoneMatch
    case Some(header) => MatchesTag(header, etag)
    case None => if headers.since.Some? then headers.since.value else Some(false)
  }

  /** The subrange a `Range` header is answered with, or None. */
  function Accepted(header: string, size: uint64): Option<Subrange> {
    match ParseHeader(header)
    case None => None
    case Some((unit, specs)) =>
      HeaderNonEmpty(header);
      var first := Resolve(specs[0], size);
      if EqualIgnoringCase(unit, "bytes") && Bounded(first, size) then Some(first) else None
  }

  /** Only the first subrange is looked at. */
  method Accept(header: string, size: uint64) returns (r: Option<Subrange>)
    ensures r == Accepted(header, size)
  {
    var range := ByteRanges.Parse(header, size);
    HeaderNonEmpty(header);
    if range.Some? && EqualIgnoringCase(range.value.unit, "bytes") {
      var first := range.value.subranges[0];
      if Plus(first.offset, first.length) <= size { return Some(first); }
    }
    return None;
  }

  method Open(etag: EntityTag, headers: Headers, size: uint64) returns (state: State)
    ensures match CheckIfNotModified(etag, headers)
            case None => state == BadRequest
            case Some(true) => state == NotModified
            case Some(false) =>
              match headers.range
              case None => state == FullRange
              case Some(header) =>
                state == (match Accepted(header, size) case Some(r) => Partial(r) case None => RangeNotSatisfiable)
  {
    var notModified := CheckIfNotModified(etag, headers);
    if notModified.None? { return BadRequest; }
    if notModified.value { return NotModified; }
    if headers.range.Some? {
      var accepted := Accept(headers.range.value, size);
      if accepted.Some? { return Partial(accepted.value); }
      return RangeNotSatisfiable;
    }
    return FullRange;
  }

  // ---------------------------------------------------------------- not modified?

  /** A list of tags decides alone, whatever the date says: yes exactly if one has the file's value. */
  lemma TagsDecide(etag: EntityTag, tags: seq<EntityTag>, since: Option<Option<bool>>, range: Option<string>)
    requires tags != [] && forall i | 0 <= i < |tags| :: EntityTags.Listable(tags[i])
    ensures CheckIfNotModified(etag, Headers(Some(PrintList(tags)), since, range))
         == Some(exists i | 0 <= i < |tags| :: tags[i].value == etag.value)
  {
    MatchesExactly(tags, etag);
  }

  /** The star always says yes, a text that is no list is a bad request, the date counts only without
      tags, and without either the file counts as modified. */
  lemma OthersDecide(etag: EntityTag, header: string, since: Option<Option<bool>>, range: Option<string>)
    ensures Trimmed(header) == "*" ==> CheckIfNotModified(etag, Headers(Some(header), since, range)) == Some(true)
    ensures ParseList(header) == None ==> CheckIfNotModified(etag, Headers(Some(header), since, range)) == None
    ensures since.Some? ==> CheckIfNotModified(etag, Headers(None, since, range)) == since.value
    ensures CheckIfNotModified(etag, Headers(None, None, range)) == Some(false)
  {
    if Trimmed(header) == "*" { StarMatches(header, etag); }
  }

  // ---------------------------------------------------------------- what a range request is answered with

  /** The first element of a header decides. */
  function FirstSpec(header: string): Spec
    requires ParseHeader(header).Some?
  {
    HeaderNonEmpty(header);
    ParseHeader(header).value.1[0]
  }

  lemma FirstOrdered(header: string)
    requires ParseHeader(header).Some?
    ensures Ordered(FirstSpec(header))
  {
    var list := Split(header, "=")[1];
    if "-" <= list {
    } else {
      SpecsOrdered(Split(list, ","), 0);
    }
  }

  /** What is streamed for a subrange. */
  function Body<T>(r: Subrange, content: seq<T>): seq<T> {
    F.Slice(content, r.offset, r.offset + r.length)
  }

  /** The length: an accepted range delivers as many bytes as it announces exactly when it is deliverable. */
  lemma AcceptedExactly<T>(header: string, content: seq<T>)
    requires |content| < WORD && Accepted(header, |content|).Some?
    ensures
      var r := Accepted(header, |content|).value;
      |Body(r, content)| == r.length <==> Deliverable(FirstSpec(header), |content|)
  {
    var spec := FirstSpec(header);
    FirstOrdered(header);
    BoundedInside(spec, |content|);
    if !Deliverable(spec, |content|) { WrappedIsShort(spec, |content|); }
  }

  lemma WrappedIsShort(spec: Spec, size: uint64)
    requires Ordered(spec)
    requires Bounded(Resolve(spec, size), size) && !Deliverable(spec, size)
    ensures Resolve(spec, size).length > 0
  {
  }

  /** Section 14.1.2 of RFC 9110: the bytes an element denotes. */
  function Denoted<T>(spec: Spec, content: seq<T>): seq<T>
    requires |content| < WORD && Ordered(spec)
  {
    match spec
    case Suffix(n) => content[|content| - Min(n, |content|)..]
    case From(s) => content[Min(s, |content|)..]
    case Between(s, e) => F.Slice(content, s, e + 1)
  }

  /** A suffix that the file is long enough for, any open range, and any closed range but the one whose
      length wraps to zero; on an empty file, everything. */
  predicate MeetsStandard(spec: Spec, size: uint64) {
    match spec
    case Suffix(n) => n <= size || size == 0
    case From(_) => true
    case Between(s, e) => size == 0 || s > 0 || e < WORD - 1
  }

  lemma SuffixDenoted<T>(n: uint64, content: seq<T>)
    requires |content| < WORD
    ensures Body(Resolve(Suffix(n), |content|), content) == Denoted(Suffix(n), content)
       <==> MeetsStandard(Suffix(n), |content|)
  {
    ResolveMeans(Suffix(n), |content|);
    if n > |content| {
      assert Body(Resolve(Suffix(n), |content|), content) == [];
      assert Denoted(Suffix(n), content) == content;
    }
  }

  lemma OpenDenoted<T>(s: uint64, content: seq<T>)
    requires |content| < WORD
    ensures Body(Resolve(From(s), |content|), content) == Denoted(From(s), content)
  {
    ResolveMeans(From(s), |content|);
  }

  lemma ClosedDenoted<T>(s: uint64, e: uint64, content: seq<T>)
    requires |content| < WORD && s <= e
    ensures Body(Resolve(Between(s, e), |content|), content) == Denoted(Between(s, e), content)
       <==> MeetsStandard(Between(s, e), |content|)
  {
    ResolveMeans(Between(s, e), |content|);
    if s == 0 && e == WORD - 1 {
      assert Body(Resolve(Between(s, e), |content|), content) == [];
      assert Denoted(Between(s, e), content) == content;
    }
  }

  /** The bytes: what is streamed for an element is what the standard says it denotes exactly when it meets
      this condition, whether or not the announced length is right. */
  lemma AcceptedDenoted<T>(spec: Spec, content: seq<T>)
    requires |content| < WORD && Ordered(spec)
    ensures Body(Resolve(spec, |content|), content) == Denoted(spec, content) <==> MeetsStandard(spec, |content|)
  {
    match spec
    case Suffix(n) => SuffixDenoted(n, content);
    case From(s) => OpenDenoted(s, content);
    case Between(s, e) => ClosedDenoted(s, e, content);
  }

  /** End to end: what a client reads is the accepted slice, whatever the cuts, unless a call on the file fails. */
  method ServeRange(file: F.File, header: string) returns (r: Option<Result<seq<byte>, F.Failure>>)
    requires |file.content| <= F.INT64_MAX && file.pos == 0
    modifies file
    ensures r.None? <==> Accepted(header, |file.content|).None?
    ensures r.Some? && r.value.Success? ==>
      var a := Accepted(header, |file.content|).value;
      r.value.value == F.Slice(file.content, a.offset, a.offset + a.length)
    ensures file.failed == (old(file.failed) || (r.Some? && r.value.Failure?))
  {
    var accepted := Accept(header, |file.content|);
    if accepted.None? { return None; }
    var first := accepted.value;
    var stream := new F.Stream.Part(file, first.offset, Some(first.length));
    var all := F.ReadAll(stream);
    return Some(all);
  }

  /** The body of a partial response is what the standard asks for exactly on this condition. */
  lemma ServedMeans<T>(header: string, content: seq<T>)
    requires |content| < WORD && Accepted(header, |content|).Some?
    ensures Ordered(FirstSpec(header))
    ensures
      Body(Accepted(header, |content|).value, content) == Denoted(FirstSpec(header), content)
      <==> MeetsStandard(FirstSpec(header), |content|)
  {
    FirstOrdered(header);
    AcceptedDenoted(FirstSpec(header), content);
  }

  lemma SingleDecides(header: string, unit: string, spec: Spec, size: uint64)
    requires ParseHeader(header) == Some((unit, [spec])) && EqualIgnoringCase(unit, "bytes")
    ensures FirstSpec(header) == spec
    ensures Accepted(header, size) == if Bounded(Resolve(spec, size), size) then Some(Resolve(spec, size)) else None
  {
  }

  lemma ClosedDecides(header: string, x: uint64, y: uint64, size: uint64)
    requires x <= y && header == ClosedHeader(x, y)
    ensures ParseHeader(header).Some? && FirstSpec(header) == Between(x, y)
    ensures Accepted(header, size).Some? <==> y < size || y == WORD - 1
    ensures Accepted(header, size).Some? ==> Accepted(header, size).value == Resolve(Between(x, y), size)
  {
    ClosedHeaderParses(x, y);
    SingleDecides(header, "bytes", Between(x, y), size);
    BoundedExactly(Between(x, y), size);
  }

  /** The first element of a list decides, and only the unit `bytes` is answered. */
  lemma ElementsDecide(unit: string, specs: seq<Spec>, size: uint64)
    requires Elements(specs) && Bare(unit) && Free(unit, "=")
    ensures Accepted(unit + "=" + Join(ElementTexts(specs), ", "), size) ==
      if !EqualIgnoringCase(unit, "bytes") then None else
      match specs[0]
      case From(s) => Some(Subrange(s, if s <= size then size - s else WORD + size - s))
      case Between(s, e) =>
        if e < size then Some(Subrange(s, e - s + 1))
        else if e == WORD - 1 then Some(Subrange(s, if s == 0 then 0 else e - s + 1)) else None
  {
    ElementsParse(unit, specs);
    ResolveMeans(specs[0], size);
    BoundedExactly(specs[0], size);
  }

  /** A suffix is answered with the last bytes, and also one that the file is too short for. */
  lemma SuffixDecides(unit: string, n: uint64, size: uint64)
    requires Bare(unit) && Free(unit, "=")
    ensures Accepted(unit + "=-" + ToString(n), size) ==
      if EqualIgnoringCase(unit, "bytes")
      then Some(Subrange(if n <= size then size - n else WORD + size - n, n))
      else None
  {
    SuffixParses(unit, n);
    ResolveMeans(Suffix(n), size);
    BoundedExactly(Suffix(n), size);
  }

  /** So `bytes=-n` means the last `n` bytes, when there are as many. */
  lemma LastBytes(n: uint64, size: uint64)
    requires n <= size
    ensures Accepted("bytes=-" + ToString(n), size) == Some(Subrange(size - n, n))
  {
    SuffixDecides("bytes", n, size);
    assert "bytes" + "=-" == "bytes=-";
  }

  lemma WholeWordResolved<T>(content: seq<T>)
    requires |content| < WORD
    ensures Resolve(Between(0, WORD - 1), |content|) == Subrange(0, 0)
    ensures Body(Subrange(0, 0), content) == [] && Denoted(Between(0, WORD - 1), content) == content
  {
  }

  /** This header is accepted, and nothing is delivered of a file that has bytes. */
  lemma WholeWordServesNothing<T>(header: string, content: seq<T>)
    requires header == "bytes=0-18446744073709551615" && 0 < |content| < WORD
    ensures ParseHeader(header).Some? && FirstSpec(header) == Between(0, WORD - 1)
    ensures Accepted(header, |content|) == Some(Subrange(0, 0))
    ensures Body(Subrange(0, 0), content) == [] && Denoted(FirstSpec(header), content) == content
  {
    LongText();
    ClosedDecides(header, 0, WORD - 1, |content|);
    WholeWordResolved(content);
  }

  /** This header on 500 bytes is satisfiable, by all of them, and refused. */
  lemma OverlongRangeRefused<T>(header: string, content: seq<T>)
    requires header == "bytes=0-999" && |content| == 500
    ensures ParseHeader(header).Some? && FirstSpec(header) == Between(0, 999)
    ensures Accepted(header, 500).None?
    ensures Satisfiable(FirstSpec(header), 500) && Denoted(FirstSpec(header), content) == content
  {
    ShortText();
    ClosedDecides(header, 0, 999, 500);
  }

  // ---------------------------------------------------------------- Content-Range

  /** The header the source prints; the number after the slash is the length of the part. */
  function ContentRange(r: Subrange): string {
    ContentRangeOf(r, r.length)
  }

  function ContentRangeOf(r: Subrange, complete: nat): string {
    "bytes " + ToString(r.offset) + "-" + ToString(Minus(Plus(r.offset, r.length), 1)) + "/" + ToString(complete)
  }

  /** First and last byte and the length of the part, for a part whose last byte a word can number. */
  lemma ContentRangeText(first: uint64, last: uint64)
    requires first <= last < WORD - 1
    ensures ContentRange(Subrange(first, last - first + 1))
         == "bytes " + ToString(first) + "-" + ToString(last) + "/" + ToString(last - first + 1)
  {
    assert Minus(Plus(first, last - first + 1), 1) == last;
  }

  /** Section 14.4 of RFC 9110 wants the complete length there: the two agree only for the whole file. */
  lemma ContentRangeComplete(r: Subrange, size: uint64)
    ensures ContentRange(r) == ContentRangeOf(r, size) <==> r.length == size
  {
    var front := "bytes " + ToString(r.offset) + "-" + ToString(Minus(Plus(r.offset, r.length), 1)) + "/";
    assert ContentRange(r)[|front|..] == ToString(r.length);
    assert ContentRangeOf(r, size)[|front|..] == ToString(size);
    DecimalToString(r.length);
    DecimalToString(size);
  }
}
