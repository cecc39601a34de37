/** The offset-managed byte queue: its transition function, the queue it is meant to be, the one branch
    where the two part, and the mutable object. */
module DynamicBuffer {
  import opened Basics
  import opened Wrappers

  /** The four fields. Readable bytes are `container[roffset..woffset]`. */
  datatype Buffer = Buffer(container: seq<byte>, roffset: nat, woffset: nat, limit: nat)

  predicate Valid(b: Buffer) {
    b.roffset <= b.woffset <= |b.container| <= b.limit < WORD
  }

  function Readable(b: Buffer): seq<byte>
    requires Valid(b)
  {
    b.container[b.roffset..b.woffset]
  }

  function Size(b: Buffer): nat
    requires Valid(b)
  {
    b.woffset - b.roffset
  }

  function Resized(container: seq<byte>, n: nat): (r: seq<byte>)
    ensures |r| == n
    ensures forall i | 0 <= i < n && i < |container| :: r[i] == container[i]
  {
    if n <= |container| then container[..n] else container + seq(n - |container|, _ => 0)
  }

  function Compressed(b: Buffer): (r: Buffer)
    requires Valid(b)
    ensures Valid(r) && Readable(r) == Readable(b) && r.roffset == 0 && r.limit == b.limit
    ensures |r.container| == |b.container|
  {
    if b.roffset > 0 then
      b.(container := Readable(b) + b.container[Size(b)..], roffset := 0, woffset := Size(b))
    else b
  }

  /** None is the length error. */
  function Prepared(b: Buffer, n: nat): Option<Buffer>
    requires Valid(b)
  {
    if n <= b.limit - b.woffset then Some(b.(container := Resized(b.container, b.woffset + n)))
    else if n <= b.limit - Size(b) then Some(Compressed(b))
    else None
  }

  /** Copying into the writable region; what lies past the container's end is not part of it. */
  function Filled(b: Buffer, data: seq<byte>): (r: Buffer)
    requires Valid(b)
    ensures Valid(r) && Readable(r) == Readable(b) && r.(container := b.container) == b
    ensures |r.container| == |b.container|
  {
    var k := Min(|data|, |b.container| - b.woffset);
    b.(container := b.container[..b.woffset] + data[..k] + b.container[b.woffset + k..])
  }

  function Committed(b: Buffer, n: nat): Buffer {
    b.(woffset := Min((b.woffset + n) % WORD, |b.container|))
  }

  function Consumed(b: Buffer, n: nat): Buffer {
    var r := Min((b.roffset + n) % WORD, b.woffset);
    if r == b.woffset then b.(roffset := 0, woffset := 0) else b.(roffset := r)
  }

  // ---------------------------------------------------------------- single calls

  /** `prepare` throws exactly when the readable bytes and the new ones exceed the limit together, and
      never changes the readable bytes. */
  lemma PrepareMeans(b: Buffer, n: nat)
    requires Valid(b)
    ensures Prepared(b, n).None? <==> Size(b) + n > b.limit
    ensures Prepared(b, n).Some? ==>
      var r := Prepared(b, n).value;
      Valid(r) && Readable(r) == Readable(b) && r.limit == b.limit
  {
  }

  /** Is there room for `n` bytes behind the readable ones once `prepare` has returned? */
  predicate Fits(b: Buffer, n: nat)
    requires Valid(b)
  {
    n <= b.limit - b.woffset || Size(b) + n <= |b.container|
  }

  /** The region that `prepare` hands out lies inside the container exactly when it fits: the branch that
      compresses does not resize. */
  lemma RegionInside(b: Buffer, n: nat)
    requires Valid(b) && Prepared(b, n).Some?
    ensures var r := Prepared(b, n).value; r.woffset + n <= |r.container| <==> Fits(b, n)
  {
  }

  /** Committing is exact within the prepared region. */
  lemma CommitMeans(b: Buffer, n: nat)
    requires Valid(b) && b.woffset + n <= |b.container|
    ensures Valid(Committed(b, n))
    ensures Committed(b, n) == b.(woffset := b.woffset + n)
    ensures Readable(Committed(b, n)) == Readable(b) + b.container[b.woffset..b.woffset + n]
  {
  }

  /** For any count: what lies behind the readable bytes is added, up to the container's end, and the state
      stays a buffer, exactly when the addition does not wrap. */
  lemma CommitExact(b: Buffer, n: nat)
    requires Valid(b) && n < WORD
    ensures
      var r := Committed(b, n);
      (Valid(r) && Readable(r) == Readable(b) + b.container[b.woffset..Min(b.woffset + n, |b.container|)])
      <==> b.woffset + n < WORD
  {
    var r := Committed(b, n);
    if b.woffset + n < WORD {
      assert (b.woffset + n) % WORD == b.woffset + n;
    } else {
      assert (b.woffset + n) % WORD == b.woffset + n - WORD < b.woffset;
      assert r.woffset < b.woffset;
      if Valid(r) { assert |Readable(r)| < |Readable(b)|; }
    }
  }

  /** Committing 2^64 - 1 bytes behind six readable ones takes one of the six back. */
  lemma CommitWraps()
    ensures
      var b := Buffer([1, 2, 3, 4, 5, 6], 0, 6, 10);
      Valid(b) && Readable(Committed(b, WORD - 1)) == [1, 2, 3, 4, 5] && Readable(b) == [1, 2, 3, 4, 5, 6]
  {
    var b := Buffer([1, 2, 3, 4, 5, 6], 0, 6, 10);
    assert (b.woffset + (WORD - 1)) % WORD == 5;
  }

  /** Consuming drops bytes from the front, and all of them when there are not enough; the addition wraps
      exactly when that is not what happens. */
  lemma ConsumeMeans(b: Buffer, n: nat)
    requires Valid(b) && n < WORD
    ensures Valid(Consumed(b, n))
    ensures Readable(Consumed(b, n)) == Readable(b)[Min(n, Size(b))..] <==> b.roffset + n < WORD
  {
    if b.roffset + n < WORD {
      ConsumeWithin(b, n);
    } else {
      assert (b.roffset + n) % WORD == b.roffset + n - WORD;
      assert Consumed(b, n).roffset < b.roffset;
      assert |Readable(Consumed(b, n))| > |Readable(b)|;
    }
  }

  lemma ConsumeWithin(b: Buffer, n: nat)
    requires Valid(b) && b.roffset + n < WORD
    ensures Valid(Consumed(b, n)) && Consumed(b, n).limit == b.limit
    ensures Readable(Consumed(b, n)) == Readable(b)[Min(n, Size(b))..]
  {
    assert (b.roffset + n) % WORD == b.roffset + n;
    if b.roffset + n >= b.woffset {
      assert Readable(Consumed(b, n)) == [];
    } else {
      assert Consumed(b, n) == b.(roffset := b.roffset + n);
    }
  }

  /** Prepare, copy, commit: the bytes arrive exactly when the region fits, otherwise some are lost. */
  lemma PutExact(b: Buffer, data: seq<byte>)
    requires Valid(b) && Size(b) + |data| <= b.limit
    ensures
      var p := Prepared(b, |data|);
      && p.Some?
      && var r := Committed(Filled(p.value, data), |data|);
      && Valid(r)
      && (Readable(r) == Readable(b) + data <==> Fits(b, |data|))
  {
    PrepareMeans(b, |data|);
    RegionInside(b, |data|);
    var p := Prepared(b, |data|).value;
    var f := Filled(p, data);
    assert (f.woffset + |data|) % WORD == f.woffset + |data|;
    if Fits(b, |data|) {
      CommitMeans(f, |data|);
      assert f.container[f.woffset..f.woffset + |data|] == data;
    } else {
      var r := Committed(f, |data|);
      assert |Readable(r)| < |Readable(b) + data|;
    }
  }

  /** Prepare, copy and commit in one. */
  function Put(b: Buffer, data: seq<byte>): Option<Buffer>
    requires Valid(b)
  {
    PrepareMeans(b, |data|);
    var p := Prepared(b, |data|);
    if p.None? then None else Some(Committed(Filled(p.value, data), |data|))
  }

  /** Limit 10: put six bytes, consume three, put five. Eight bytes fit the limit, six remain. */
  lemma CompressLosesBytes()
    ensures
      var first := Put(Buffer([], 0, 0, 10), [1, 2, 3, 4, 5, 6]);
      && first.Some? && Valid(first.value) && Readable(first.value) == [1, 2, 3, 4, 5, 6]
      && var b := Consumed(first.value, 3);
      && Valid(b) && Readable(b) == [4, 5, 6]
      && var second := Put(b, [7, 8, 9, 10, 11]);
      && second.Some? && Valid(second.value) && Readable(second.value) == [4, 5, 6, 7, 8, 9]
  {
    FirstPut([1, 2, 3, 4, 5, 6], 10);
    SecondPut();
    var b := Buffer([1, 2, 3, 4, 5, 6], 0, 6, 10);
    assert Consumed(b, 3) == b.(roffset := 3);
  }

  /** The container stays six bytes long, so only three of the five fit behind the three that moved. */
  lemma SecondPut()
    ensures
      var b := Buffer([1, 2, 3, 4, 5, 6], 3, 6, 10);
      Valid(b) && Put(b, [7, 8, 9, 10, 11]) == Some(Buffer([4, 5, 6, 7, 8, 9], 0, 6, 10))
  {
    var b := Buffer([1, 2, 3, 4, 5, 6], 3, 6, 10);
    var p := Prepared(b, 5).value;
    assert p.container == [4, 5, 6, 4, 5, 6] && p.woffset == 3;
    var f := Filled(p, [7, 8, 9, 10, 11]);
    assert f.container == [4, 5, 6, 7, 8, 9] by {
      assert [7, 8, 9, 10, 11][..3] == [7, 8, 9] && p.container[..3] == [4, 5, 6] && p.container[6..] == [];
    }
  }

  lemma FirstPut(data: seq<byte>, limit: nat)
    requires |data| <= limit < WORD
    ensures Put(Buffer([], 0, 0, limit), data) == Some(Buffer(data, 0, |data|, limit))
  {
    var p := Prepared(Buffer([], 0, 0, limit), |data|).value;
    assert p.container[..0] == [] && p.container[|data|..] == [];
    assert Filled(p, data).container == [] + data[..|data|] + [] == data;
    assert |data| % WORD == |data|;
  }

  // ---------------------------------------------------------------- whole runs

  datatype Op = Prepare(data: seq<byte>) | Commit(n: nat) | Consume(n: nat)

  /** One call: the new state, and whether it returned. A prepared region is filled at once. */
  function Step(b: Buffer, op: Op): (Buffer, bool)
    requires Valid(b)
  {
    match op
    case Prepare(data) =>
      PrepareMeans(b, |data|);
      var p := Prepared(b, |data|);
      if p.None? then (b, false) else (Filled(p.value, data), true)
    case Commit(n) => (Committed(b, n), true)
    case Consume(n) => (Consumed(b, n), true)
  }

  /** The byte queue: what is readable, and what is written but not committed. Taking the last readable
      byte gives up the latter, because the buffer then starts over at its front. */
  datatype Queue = Queue(readable: seq<byte>, pending: seq<byte>)

  function QueueStep(q: Queue, limit: nat, op: Op): (Queue, bool) {
    match op
    case Prepare(data) =>
      if |q.readable| + |data| > limit then (q, false) else (q.(pending := data), true)
    case Commit(n) =>
      var k := Min(n, |q.pending|);
      (Queue(q.readable + q.pending[..k], q.pending[k..]), true)
    case Consume(n) =>
      (Queue(q.readable[Min(n, |q.readable|)..], if n < |q.readable| || q.readable == [] then q.pending else []), true)
  }

  predicate Represents(b: Buffer, q: Queue) {
    && Valid(b) && Readable(b) == q.readable && (b.roffset == b.woffset ==> b.woffset == 0)
    && b.woffset + |q.pending| <= |b.container|
    && b.container[b.woffset..b.woffset + |q.pending|] == q.pending
  }

  /** What a caller must observe: prepare where it fits, commit what was prepared, no wrap-around. */
  predicate Allowed(b: Buffer, q: Queue, op: Op)
    requires Valid(b)
  {
    match op
    case Prepare(data) => Size(b) + |data| <= b.limit ==> Fits(b, |data|)
    case Commit(n) => n <= |q.pending|
    case Consume(n) => b.roffset + n < WORD
  }

  lemma PrepareRefines(b: Buffer, q: Queue, data: seq<byte>)
    requires Represents(b, q) && Allowed(b, q, Prepare(data))
    ensures
      var (b', ok) := Step(b, Prepare(data));
      var (q', ok') := QueueStep(q, b.limit, Prepare(data));
      Represents(b', q') && ok == ok' && b'.limit == b.limit
  {
    PrepareMeans(b, |data|);
    if Prepared(b, |data|).Some? {
      RegionInside(b, |data|);
      var p := Prepared(b, |data|).value;
      var f := Filled(p, data);
      assert f.container[f.woffset..f.woffset + |data|] == data;
    }
  }

  lemma CutSlice<T>(s: seq<T>, a: nat, b: nat, n: nat)
    requires a <= a + n <= b <= |s|
    ensures s[a..b][..n] == s[a..a + n] && s[a..b][n..] == s[a + n..b]
  {
  }

  lemma StepRefines(b: Buffer, q: Queue, op: Op)
    requires Represents(b, q) && Allowed(b, q, op)
    ensures
      var (b', ok) := Step(b, op);
      var (q', ok') := QueueStep(q, b.limit, op);
      Represents(b', q') && ok == ok' && b'.limit == b.limit
  {
    match op
    case Prepare(data) =>
      PrepareRefines(b, q, data);
    case Commit(n) =>
      CommitRefines(b, q, n);
    case Consume(n) =>
      ConsumeWithin(b, n);
  }

  lemma CommitRefines(b: Buffer, q: Queue, n: nat)
    requires Represents(b, q) && Allowed(b, q, Commit(n))
    ensures Represents(Committed(b, n), QueueStep(q, b.limit, Commit(n)).0)
  {
    CommitMeans(b, n);
    CutSlice(b.container, b.woffset, b.woffset + |q.pending|, n);
    var next := QueueStep(q, b.limit, Commit(n)).0;
    assert next.pending == b.container[b.woffset + n..b.woffset + |q.pending|];
    assert next.readable == Readable(Committed(b, n));
  }

  function Run(b: Buffer, q: Queue, ops: seq<Op>): Option<(Buffer, seq<bool>)>
    requires Represents(b, q)
    decreases |ops|
  {
    if ops == [] then Some((b, []))
    else if !Allowed(b, q, ops[0]) then None
    else
      StepRefines(b, q, ops[0]);
      var (b', ok) := Step(b, ops[0]);
      var rest := Run(b', QueueStep(q, b.limit, ops[0]).0, ops[1..]);
      if rest.None? then None else Some((rest.value.0, [ok] + rest.value.1))
  }

  function QueueRun(q: Queue, limit: nat, ops: seq<Op>): (Queue, seq<bool>)
    decreases |ops|
  {
    if ops == [] then (q, []) else
    var (q', ok) := QueueStep(q, limit, ops[0]);
    var (last, oks) := QueueRun(q', limit, ops[1..]);
    (last, [ok] + oks)
  }

  /** Over every run that observes the rules, the buffer is the queue: the same calls fail, and the
      readable bytes are those committed less those consumed. */
  lemma {:induction false} RunRefinesQueue(b: Buffer, q: Queue, ops: seq<Op>)
    requires Represents(b, q) && Run(b, q, ops).Some?
    ensures
      var (b', oks) := Run(b, q, ops).value;
      var (q', oks') := QueueRun(q, b.limit, ops);
      Represents(b', q') && oks == oks'
    decreases |ops|
  {
    if ops == [] {
    } else {
      StepRefines(b, q, ops[0]);
      RunRefinesQueue(Step(b, ops[0]).0, QueueStep(q, b.limit, ops[0]).0, ops[1..]);
    }
  }

  /** All bytes a run commits, and how many bytes it takes from the front. */
  function CommittedBytes(q: Queue, limit: nat, ops: seq<Op>): seq<byte>
    decreases |ops|
  {
    if ops == [] then [] else
    var q' := QueueStep(q, limit, ops[0]).0;
    (if ops[0].Commit? then q.pending[..Min(ops[0].n, |q.pending|)] else []) + CommittedBytes(q', limit, ops[1..])
  }

  function ConsumedCount(q: Queue, limit: nat, ops: seq<Op>): nat
    decreases |ops|
  {
    if ops == [] then 0 else
    var q' := QueueStep(q, limit, ops[0]).0;
    (if ops[0].Consume? then Min(ops[0].n, |q.readable|) else 0) + ConsumedCount(q', limit, ops[1..])
  }

  lemma DropAppend<T>(x: seq<T>, k: nat, y: seq<T>, m: nat)
    requires k <= |x| && m <= |x[k..] + y|
    ensures k + m <= |x + y| && (x[k..] + y)[m..] == (x + y)[k + m..]
  {
    assert x[k..] + y == (x + y)[k..];
  }

  lemma Unit<T>(x: seq<T>)
    ensures [] + x == x && x + [] == x && x[0..] == x
  {
  }

  /** First in, first out, with nothing lost in between. */
  lemma {:induction false} QueueConserves(q: Queue, limit: nat, ops: seq<Op>)
    ensures
      var all, n := q.readable + CommittedBytes(q, limit, ops), ConsumedCount(q, limit, ops);
      n <= |all| && QueueRun(q, limit, ops).0.readable == all[n..]
    decreases |ops|
  {
    if ops == [] {
      Unit(q.readable);
    } else {
      var q' := QueueStep(q, limit, ops[0]).0;
      var later, n := CommittedBytes(q', limit, ops[1..]), ConsumedCount(q', limit, ops[1..]);
      QueueConserves(q', limit, ops[1..]);
      match ops[0]
      case Prepare(_) =>
        Unit(later);
      case Commit(k) =>
        Associative(q.readable, q.pending[..Min(k, |q.pending|)], later);
      case Consume(k) =>
        Unit(later);
        DropAppend(q.readable, Min(k, |q.readable|), later, n);
    }
  }

  // ---------------------------------------------------------------- the object

  class ByteQueue {
    var container: seq<byte>
    var roffset: nat
    var woffset: nat
    const limit: nat

    function State(): Buffer
      reads this
    {
      Buffer(container, roffset, woffset, limit)
    }

    constructor (limit: nat)
      requires limit < WORD
      ensures State() == Buffer([], 0, 0, limit) && Valid(State()) && Readable(State()) == []
    {
      this.limit := limit;
      container, roffset, woffset := [], 0, 0;
    }

    constructor FromContainer(container: seq<byte>, maxSize: nat)
      requires |container| <= maxSize < WORD
      ensures State() == Buffer(container, 0, |container|, maxSize)
      ensures Valid(State()) && Readable(State()) == container
    {
      this.container, limit := container, maxSize;
      roffset, woffset := 0, |container|;
    }

    method Consume(n: nat)
      requires Valid(State()) && n < WORD
      modifies this
      ensures State() == Consumed(old(State()), n) && Valid(State())
      ensures Readable(State()) == old(Readable(State()))[Min(n, old(Size(State())))..]
         <==> old(roffset) + n < WORD
    {
      ConsumeMeans(State(), n);
      roffset := Min((roffset + n) % WORD, woffset);
      if roffset == woffset {
        roffset := 0;
        woffset := 0;
      }
    }

    /** `Some(offset)` is the writable region `container[offset..offset + n]`; None is the length error. */
    method Prepare(n: nat) returns (region: Option<nat>)
      requires Valid(State())
      modifies this
      ensures region.None? <==> old(Size(State())) + n > limit
      ensures region.None? ==> State() == old(State())
      ensures region.Some? ==> Prepared(old(State()), n) == Some(State()) && region.value == woffset
      ensures Valid(State()) && Readable(State()) == old(Readable(State()))
      ensures region.Some? ==> (woffset + n <= |container| <==> old(Fits(State(), n)))
    {
      PrepareMeans(State(), n);
      if n <= limit - woffset {
        container := Resized(container, woffset + n);
      } else if n <= limit - (woffset - roffset) {
        Compress();
      } else {
        return None;
      }
      return Some(woffset);
    }

    /** Copying into the prepared region. */
    method Fill(data: seq<byte>)
      requires Valid(State()) && woffset + |data| <= |container|
      modifies this`container
      ensures State() == Filled(old(State()), data) && Readable(State()) == old(Readable(State()))
      ensures container[woffset..woffset + |data|] == data
    {
      container := container[..woffset] + data + container[woffset + |data|..];
    }

    method Commit(n: nat)
      requires Valid(State()) && n < WORD
      modifies this
      ensures State() == Committed(old(State()), n)
      ensures old(woffset) + n < WORD ==> Valid(State())
      ensures old(woffset) + n <= |container| ==>
        Readable(State()) == old(Readable(State())) + container[old(woffset)..old(woffset) + n]
    {
      woffset := Min((woffset + n) % WORD, |container|);
    }

    method Compress()
      requires Valid(State())
      modifies this
      ensures State() == Compressed(old(State())) && Readable(State()) == old(Readable(State()))
    {
      if roffset > 0 {
        var len := woffset - roffset;
        container := container[roffset..woffset] + container[len..];
        woffset := len;
        roffset := 0;
      }
    }

    /** Hands out exactly the readable bytes; the container has been moved from. */
    method Release() returns (r: seq<byte>)
      requires Valid(State())
      modifies this
      ensures r == old(Readable(State()))
      ensures State() == Buffer([], 0, |r|, limit)
    {
      Compress();
      r := Resized(container, woffset - roffset);
      container := [];
    }
  }

  // ---------------------------------------------------------------- reading a stream to its end

  /** What the stream's next read gives; after the last event it reports the end. */
  datatype Event<E> = Chunk(data: seq<byte>) | Fault(error: E)

  datatype ReadError<E> = Stream(error: E) | LengthError

  function Joined<E>(events: seq<Event<E>>): (r: seq<byte>)
    requires forall i | 0 <= i < |events| :: events[i].Chunk?
  {
    if events == [] then [] else Joined(events[..|events| - 1]) + events[|events| - 1].data
  }

  /** The first `k` events are chunks that stay within the limit. */
  predicate Clean<E>(events: seq<Event<E>>, k: nat, limit: nat)
    requires k <= |events|
  {
    (forall i | 0 <= i < k :: events[i].Chunk?) && |Joined(events[..k])| <= limit
  }

  /** Everything before event `k` is fine, and event `k` is what goes wrong. */
  ghost predicate FailsAt<E>(events: seq<Event<E>>, k: nat, limit: nat, error: ReadError<E>)
    requires k < |events|
  {
    && Clean(events, k, limit)
    && match error
       case Stream(e) => events[k] == Fault(e)
       case LengthError => events[k].Chunk? && |Joined(events[..k])| + |events[k].data| > limit
  }

  /** An earlier excess stays an excess. */
  lemma {:induction false} JoinedGrows<E>(events: seq<Event<E>>, k: nat)
    requires k <= |events| && forall i | 0 <= i < |events| :: events[i].Chunk?
    ensures |Joined(events[..k])| <= |Joined(events)|
    decreases |events|
  {
    if k < |events| {
      var front := events[..|events| - 1];
      JoinedGrows(front, k);
      assert front[..k] == events[..k];
    } else {
      assert events[..k] == events;
    }
  }

  lemma JoinedNext<E>(events: seq<Event<E>>, k: nat)
    requires k < |events| && forall i | 0 <= i <= k :: events[i].Chunk?
    ensures Joined(events[..k + 1]) == Joined(events[..k]) + events[k].data
  {
    assert events[..k + 1][..k] == events[..k];
  }

  /** The concatenation of all chunks, or the first thing that goes wrong. */
  method ReadUntilEof<E>(events: seq<Event<E>>, maxSize: nat) returns (r: Result<seq<byte>, ReadError<E>>)
    requires maxSize < WORD
    ensures r.Success? <==> Clean(events, |events|, maxSize)
    ensures r.Success? ==> r.value == Joined(events)
    ensures r.Failure? ==> exists k | 0 <= k < |events| :: FailsAt(events, k, maxSize, r.error)
  {
    assert events[..|events|] == events;
    var buffer := new ByteQueue(maxSize);
    var k := 0;
    while k < |events|
      invariant 0 <= k <= |events| && Clean(events, k, maxSize)
      invariant fresh(buffer) && buffer.limit == maxSize && Valid(buffer.State()) && buffer.roffset == 0
      invariant Readable(buffer.State()) == Joined(events[..k])
    {
      match events[k] {
        case Chunk(data) =>
          JoinedNext(events, k);
          var region := buffer.Prepare(|data|);
          if region.None? {
            if forall i | 0 <= i < |events| :: events[i].Chunk? { JoinedGrows(events, k + 1); }
            assert FailsAt(events, k, maxSize, LengthError);
            return Failure(LengthError);
          }
          buffer.Fill(data);
          buffer.Commit(|data|);
        case Fault(e) =>
          assert FailsAt(events, k, maxSize, Stream(e));
          return Failure(Stream(e));
      }
      k := k + 1;
    }
    var all := buffer.Release();
    return Success(all);
  }
}
