/** Streaming a byte range of a file in chunks, for every way the operating system may cut its reads. */
module FileStream {
  import opened Basics
  import opened Wrappers
  import opened ByteRanges

  const INT64_MAX := 0x7fff_ffff_ffff_ffff
  const CHUNK := 65536

  /** The bytes of `content` from `from` up to `to`, as far as they exist. */
  function Slice<T>(content: seq<T>, from: nat, to: nat): seq<T>
    requires from <= to
  {
    content[Min(from, |content|)..Min(to, |content|)]
  }

  datatype ReadResult = Bytes(data: seq<byte>) | EndOfFile | IoError

  /** An open file: its bytes, its position, and a system that may fail or read less than asked. */
  class File {
    const content: seq<byte>
    var pos: nat
    /** Whether some call has failed. */
    var failed: bool

    constructor (content: seq<byte>)
      ensures this.content == content && pos == 0 && !failed
    {
      this.content := content;
      pos, failed := 0, false;
    }

    method Seek(to: nat) returns (ok: bool)
      modifies this
      ensures pos == if ok then to else old(pos)
      ensures failed == (old(failed) || !ok)
    {
      ok := *;
      if ok { pos := to; } else { failed := true; }
    }

    method ReadSome(n: nat) returns (r: ReadResult)
      requires n > 0
      modifies this
      ensures r.Bytes? ==> 0 < |r.data| <= n && pos == old(pos) + |r.data| <= |content|
      ensures r.Bytes? ==> r.data == content[old(pos)..pos]
      ensures r.EndOfFile? ==> pos >= |content|
      ensures !r.Bytes? ==> pos == old(pos)
      ensures failed == (old(failed) || r.IoError?)
    {
      var broken: bool := *;
      if broken {
        failed := true;
        return IoError;
      }
      if pos >= |content| { return EndOfFile; }
      var most := Min(n, |content| - pos);
      var k: nat :| 1 <= k <= most;
      r := Bytes(content[pos..pos + k]);
      pos := pos + k;
    }
  }

  datatype Failure = SeekFailed | ReadFailed

  class Stream {
    const file: File
    var offset: uint64
    var remaining: uint64

    /** File positions are signed 64-bit numbers. */
    ghost predicate Valid()
      reads this, file
    {
      |file.content| <= INT64_MAX
    }

    /** Where the next read starts: a pending seek, or the file's own position. */
    ghost function Cursor(): nat
      reads this, file
    {
      if offset > 0 then Min(offset, INT64_MAX) else file.pos
    }

    /** What is still to be delivered. */
    ghost function Rest(): seq<byte>
      reads this, file
    {
      Slice(file.content, Cursor(), Cursor() + remaining)
    }

    constructor Whole(file: File)
      requires |file.content| <= INT64_MAX && file.pos == 0
      ensures this.file == file && Valid() && Rest() == file.content
    {
      this.file := file;
      offset, remaining := 0, |file.content|;
    }

    /** Without a size the rest of the file is meant, also where the subtraction wraps. */
    constructor Part(file: File, offset: uint64, size: Option<uint64>)
      requires |file.content| <= INT64_MAX && file.pos == 0
      ensures this.file == file && Valid()
      ensures size.Some? ==> Rest() == Slice(file.content, offset, offset + size.value)
      ensures size.None? ==> Rest() == file.content[Min(offset, |file.content|)..]
    {
      this.file, this.offset := file, offset;
      remaining := if size.Some? then size.value else Minus(|file.content|, offset);
    }

    /** Moves to the pending offset, if there is one; nothing that is left to deliver changes. */
    method SeekPending() returns (ok: bool)
      requires Valid()
      modifies this`offset, file
      ensures Rest() == old(Rest()) && (ok ==> offset == 0)
      ensures file.failed == (old(file.failed) || !ok)
    {
      if offset > 0 {
        ok := file.Seek(if offset >= INT64_MAX then INT64_MAX else offset);
        if !ok { return; }
        offset := 0;
      }
      ok := true;
    }

    /** Each chunk is the next piece of what is left; a failure is one of the file's, and loses nothing. */
    method AsyncReadSome() returns (r: Option<Result<seq<byte>, Failure>>)
      requires Valid()
      modifies this, file
      ensures Valid()
      ensures r.None? ==> old(Rest()) == []
      ensures r.Some? && r.value.Success? ==>
        0 < |r.value.value| <= CHUNK && remaining == old(remaining) - |r.value.value|
      ensures r.Some? && r.value.Success? ==> old(Rest()) == r.value.value + Rest()
      ensures r.Some? && r.value.Failure? ==> Rest() == old(Rest()) && remaining == old(remaining)
      ensures file.failed == (old(file.failed) || (r.Some? && r.value.Failure?))
    {
      if remaining == 0 { return None; }
      var ok := SeekPending();
      if !ok { return Some(Failure(SeekFailed)); }
      ghost var start := file.pos;
      var got := file.ReadSome(Min(remaining, CHUNK));
      match got
      case Bytes(data) =>
        remaining := remaining - |data|;
        SliceStep(file.content, start, data, remaining);
        return Some(Success(data));
      case EndOfFile =>
        return None;
      case IoError =>
        return Some(Failure(ReadFailed));
    }
  }

  lemma SliceStep<T>(content: seq<T>, start: nat, data: seq<T>, more: nat)
    requires start + |data| <= |content| && data == content[start..start + |data|]
    ensures Slice(content, start, start + (|data| + more))
         == data + Slice(content, start + |data|, start + |data| + more)
  {
  }

  /** Reading to the end: unless a call on the file fails, the chunks join to exactly what the stream was to
      deliver, whatever the cuts. */
  method ReadAll(stream: Stream) returns (r: Result<seq<byte>, Failure>)
    requires stream.Valid()
    modifies stream, stream.file
    ensures r.Success? ==> r.value == old(stream.Rest())
    ensures stream.file.failed == (old(stream.file.failed) || r.Failure?)
  {
    var all: seq<byte> := [];
    while true
      invariant stream.Valid() && old(stream.Rest()) == all + stream.Rest()
      invariant stream.file.failed == old(stream.file.failed)
      decreases stream.remaining
    {
      var next := stream.AsyncReadSome();
      match next {
        case None =>
          return Success(all);
        case Some(Success(data)) =>
          Associative(all, data, stream.Rest());
          all := all + data;
        case Some(Failure(e)) =>
          return Failure(e);
      }
    }
  }
}
