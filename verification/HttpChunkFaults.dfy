/**
  `HttpChunkDecoder` after it has reported invalid input: what a client that goes on reading gets, and
  when the check in `consume_buffers` fails.
 */
module HttpChunkFaults {
  import opened Arithmetic
  import opened ByteTypes
  import opened ChunkDecoder
  import opened ChunkEncoder
  import opened HttpChunkDecoding
  import opened HttpChunkProgress
  import opened Sequences

  // ---------------------------------------------------------------- the same bytes again

  /** A source that always gives all it has, in one buffer. */
  ghost predicate GivesAll(source: ByteSource) {
    forall k: nat, pos: nat, n: nat :: pos + n <= |source.stream| ==> source.answer(k, pos, n) == Buffers([source.stream[pos..]])
  }

  /** One more time: the fault is reported, and what came before it handed out. */
  method ReadOnceMore(decoder: HttpChunkDecoder, ghost d: Decoder) returns (bytes: seq<Byte>)
    requires decoder.Ready() && !decoder.failed && GivesAll(decoder.src) && decoder.src.pos < |decoder.src.stream|
    requires IsNew(decoder.body, decoder.src.pos, d) && decoder.State() == FreshProgress(d)
    requires decoder.body.full.verdict == Invalid && decoder.body.full.decoder == d
    modifies decoder, decoder.src
    ensures decoder.Ready() && !decoder.failed && decoder.src.pos == old(decoder.src.pos)
    ensures IsNew(decoder.body, decoder.src.pos, d) && decoder.State() == FreshProgress(d)
    ensures bytes == old(decoder.body.full.output) && decoder.body == old(decoder.body)
  {
    ghost var b := decoder.body;
    FullIsRun(b, decoder.src.stream);
    FlattenOne(b.bytes);
    var r := decoder.FetchAtLeast(1);
    bytes := ReadPastFault(decoder);
    FullIsRun(decoder.body, decoder.src.stream);
  }

  /**
    If decoding all of a non-empty rest of a stream comes to a fault in the state it began in, a client
    that goes on reading gets the same bytes again, as often as it likes.
   */
  method ReadAgainAndAgain(source: ByteSource, consumeTrailer: bool, times: nat) returns (received: seq<seq<Byte>>)
    requires source.Valid() && GivesAll(source) && source.pos < |source.stream|
    requires Run(Initial(consumeTrailer), source.stream[source.pos..]).verdict == Invalid
    requires Run(Initial(consumeTrailer), source.stream[source.pos..]).decoder == Initial(consumeTrailer)
    modifies source
    ensures source.pos == old(source.pos) && |received| == times
    ensures forall i :: 0 <= i < times ==> received[i] == Run(Initial(consumeTrailer), source.stream[source.pos..]).output
  {
    var decoder := new HttpChunkDecoder(source, consumeTrailer);
    ghost var b := decoder.body;
    FullIsRun(b, source.stream);
    received := [];
    while |received| < times
      invariant |received| <= times && source.pos == old(source.pos) && decoder.src == source && fresh(decoder)
      invariant decoder.Ready() && !decoder.failed && decoder.body == b && decoder.State() == FreshProgress(Initial(consumeTrailer))
      invariant forall i :: 0 <= i < |received| ==> received[i] == b.full.output
    {
      var bytes := ReadOnceMore(decoder, Initial(consumeTrailer));
      received := received + [bytes];
    }
  }

  /** Such a stream: any chunks, and then a byte that cannot begin a chunk size. */
  lemma FaultAfterChunks(chunks: seq<seq<Byte>>, b: Byte, consumeTrailer: bool)
    requires Sized(chunks) && chunks != [] && DecodeHex(b).None?
    ensures Run(Initial(consumeTrailer), Chunks(true, chunks) + CRLF + [b])
            == Outcome(Initial(consumeTrailer), |Chunks(true, chunks)| + 2, Flatten(chunks), Invalid)
  {
    var head, d := Chunks(true, chunks), Initial(consumeTrailer);
    RunChunks(true, chunks, consumeTrailer);
    RunSplit(d, head, CRLF);
    RunLineEnd(consumeTrailer);
    RunSplit(d, head + CRLF, [b]);
    assert Flatten(chunks) + [] == Flatten(chunks);
  }

  // ---------------------------------------------------------------- when the size can wrap around

  /** Feeding more never gives less. */
  lemma MoreOutput(d: Decoder, a: seq<Byte>, b: seq<Byte>)
    requires a <= b
    ensures |Run(d, a).output| <= |Run(d, b).output|
  {
    assert b == a + b[|a|..];
    RunSplit(d, a, b[|a|..]);
  }

  /** Some honest answer to a request for `n` bytes decodes to less than was consumed exactly if `n` bytes are there and these do. */
  lemma DecodesToLess(checkpoint: Decoder, stream: seq<Byte>, pos: nat, n: nat, consumed: nat)
    requires pos <= |stream|
    ensures (exists a :: Honest(stream, pos, n, a) && a.Buffers? && |Run(checkpoint, Flatten(a.buffers)).output| < consumed)
            <==> pos + n <= |stream| && |Run(checkpoint, stream[pos..pos + n]).output| < consumed
  {
    if pos + n <= |stream| && |Run(checkpoint, stream[pos..pos + n]).output| < consumed {
      var a := Buffers([stream[pos..pos + n]]);
      FlattenOne(stream[pos..pos + n]);
      assert Honest(stream, pos, n, a);
    }
    forall a | Honest(stream, pos, n, a) && a.Buffers? && |Run(checkpoint, Flatten(a.buffers)).output| < consumed
      ensures pos + n <= |stream| && |Run(checkpoint, stream[pos..pos + n]).output| < consumed
    {
      assert stream[pos..pos + n] <= Flatten(a.buffers);
      MoreOutput(checkpoint, stream[pos..pos + n], Flatten(a.buffers));
    }
  }

  /**
    After a reported fault, a request for more than is on offer can wrap the size around, by some answer
    of the source, if and only if the first bytes it makes the decoder ask for decode, from the
    checkpoint, to less than was consumed.
   */
  lemma CanWrap(v: Snapshot, minCount: nat)
    requires InStep(v) && v.failed && v.Size() < minCount
    ensures (exists a :: Honest(v.stream, v.pos, Asked(v, minCount), a) && Wraps(v, minCount, a, DecodedAgain(v, a)))
            <==> var n := v.p.looked + minCount - v.Size();
                 v.pos + n <= |v.stream| && |Run(v.p.checkpoint, v.stream[v.pos..v.pos + n]).output| < v.p.outputConsumed
  {
    var n := Asked(v, minCount);
    DecodesToLess(v.p.checkpoint, v.stream, v.pos, n, v.p.outputConsumed);
    forall a ensures Wraps(v, minCount, a, DecodedAgain(v, a)) <==>
                     a.Buffers? && |Run(v.p.checkpoint, Flatten(a.buffers)).output| < v.p.outputConsumed
    {
    }
  }

  // ---------------------------------------------------------------- a client that makes the check fail

  /** First the chunk, then everything, then what is asked for. */
  function Script(head: nat, stream: seq<Byte>, k: nat, pos: nat, n: nat): Fetched {
    if pos + n > |stream| then NoMore
    else if k == 0 && pos + n <= head <= |stream| then Buffers([stream[pos..head]])
    else if k == 1 then Buffers([stream[pos..]])
    else Buffers([stream[pos..pos + n]])
  }

  lemma ScriptIsHonest(head: nat, stream: seq<Byte>)
    ensures Honestly(stream, (k: nat, pos: nat, n: nat) => Script(head, stream, k, pos, n))
  {
    forall k: nat, pos: nat, n: nat | pos <= |stream| ensures Honest(stream, pos, n, Script(head, stream, k, pos, n)) {
      var a := Script(head, stream, k, pos, n);
      if a.Buffers? { FlattenOne(a.buffers[0]); }
    }
  }

  lemma FirstByte(consumeTrailer: bool, b: Byte)
    ensures Run(Initial(consumeTrailer), [b]).output == []
  {
    assert [b][1..] == [];
  }

  /** A new decoder with nothing fetched, of which the source has given `calls` answers. */
  ghost predicate Stands(v: Snapshot, stream: seq<Byte>, d: Decoder, calls: nat, consumed: nat, looked: nat, size: int, failed: bool) {
    && InStep(v) && v.stream == stream && v.pos == 0 && v.calls == calls && v.failed == failed && !v.p.done && v.p.checkpoint == d
    && v.p.outputConsumed == consumed && v.p.looked == looked && v.Size() == size
  }

  /** The first fetch shows the whole chunk. */
  lemma ShowsChunk(v: Snapshot, w: Snapshot, d: Decoder, head: seq<Byte>, stream: seq<Byte>, o: Outcome, r: FetchResult)
    requires Stands(v, stream, d, 0, 0, 0, 0, false) && Promise(v, w, 1, Buffers([head]), o, r)
    requires o.verdict == More && o.consumed == |head| && o.output != []
    ensures Stands(w, stream, d, 1, 0, |head|, |o.output|, false)
  {
  }

  /** The second one comes to the fault. */
  lemma ShowsFault(v: Snapshot, w: Snapshot, d: Decoder, part: nat, looked: nat, size: nat, stream: seq<Byte>, o: Outcome, r: FetchResult)
    requires Stands(v, stream, d, 1, part, looked, size, false) && Promise(v, w, size + 1, Buffers([stream]), o, r)
    requires o.verdict == Invalid && |o.output| == part + size
    ensures r.InvalidArgument? && Stands(w, stream, d, 2, part, 0, size, true)
  {
  }

  /** The third one wraps around. */
  lemma WrapsAround(v: Snapshot, w: Snapshot, d: Decoder, part: nat, size: nat, stream: seq<Byte>, a: Fetched, o: Outcome, r: FetchResult)
    requires Stands(v, stream, d, 2, part, 0, size, true) && Promise(v, w, size + 1, a, o, r)
    requires a.Buffers? && |o.output| < part
    ensures r.CheckFailed?
  {
  }

  ghost predicate Follows(source: ByteSource, head: nat) {
    forall k: nat, pos: nat, n: nat :: source.answer(k, pos, n) == Script(head, source.stream, k, pos, n)
  }

  method FetchChunk(decoder: HttpChunkDecoder, ghost chunk: seq<Byte>, ghost head: seq<Byte>, ghost d: Decoder)
    requires decoder.Counted() && Follows(decoder.src, |head|) && head <= decoder.src.stream && head != []
    requires Stands(decoder.Snap(), decoder.src.stream, d, 0, 0, 0, 0, false)
    requires Run(d, head).verdict == More && Run(d, head).consumed == |head| && Run(d, head).output == chunk && chunk != []
    modifies decoder, decoder.src
    ensures decoder.Counted() && Stands(decoder.Snap(), decoder.src.stream, d, 1, 0, |head|, |chunk|, false)
  {
    ghost var v, stream := decoder.Snap(), decoder.src.stream;
    assert stream[0..|head|] == head;
    FlattenOne(head);
    assert decoder.Answer(1) == Buffers([head]);
    var r := decoder.FetchAtLeast(1);
    ShowsChunk(v, decoder.Snap(), d, head, stream, Run(d, head), r);
  }

  method FetchFault(decoder: HttpChunkDecoder, part: nat, size: nat, ghost head: nat, ghost d: Decoder) returns (r: FetchResult)
    requires decoder.Counted() && Follows(decoder.src, head) && head < |decoder.src.stream|
    requires Stands(decoder.Snap(), decoder.src.stream, d, 1, part, head, size, false)
    requires Run(d, decoder.src.stream).verdict == Invalid && |Run(d, decoder.src.stream).output| == part + size
    modifies decoder, decoder.src
    ensures r.InvalidArgument? && decoder.Counted() && Stands(decoder.Snap(), decoder.src.stream, d, 2, part, 0, size, true)
  {
    ghost var v, stream := decoder.Snap(), decoder.src.stream;
    assert stream[0..] == stream;
    FlattenOne(stream);
    assert decoder.Answer(size + 1) == Buffers([stream]);
    r := decoder.FetchAtLeast(size + 1);
    ShowsFault(v, decoder.Snap(), d, part, head, size, stream, Run(d, stream), r);
  }

  method FetchAgain(decoder: HttpChunkDecoder, part: nat, size: nat, ghost head: nat, ghost consumeTrailer: bool) returns (r: FetchResult)
    requires decoder.Counted() && Follows(decoder.src, head) && decoder.src.stream != [] && part > 0
    requires Stands(decoder.Snap(), decoder.src.stream, Initial(consumeTrailer), 2, part, 0, size, true)
    modifies decoder, decoder.src
    ensures r.CheckFailed?
  {
    ghost var v, stream, a := decoder.Snap(), decoder.src.stream, decoder.Answer(size + 1);
    assert stream[0..1] == [stream[0]];
    FlattenOne([stream[0]]);
    FirstByte(consumeTrailer, stream[0]);
    assert a == Buffers([[stream[0]]]);
    r := decoder.FetchAtLeast(size + 1);
    WrapsAround(v, decoder.Snap(), Initial(consumeTrailer), part, size, stream, a, Run(Initial(consumeTrailer), [stream[0]]), r);
  }

  method FirstTwoFetches(decoder: HttpChunkDecoder, chunk: seq<Byte>, part: nat, ghost head: seq<Byte>, ghost d: Decoder) returns (r: FetchResult)
    requires decoder.Counted() && Follows(decoder.src, |head|) && head < decoder.src.stream && head != [] && 0 < part < |chunk|
    requires Stands(decoder.Snap(), decoder.src.stream, d, 0, 0, 0, 0, false)
    requires Run(d, head).verdict == More && Run(d, head).consumed == |head| && Run(d, head).output == chunk
    requires Run(d, decoder.src.stream).verdict == Invalid && Run(d, decoder.src.stream).output == chunk
    modifies decoder, decoder.src
    ensures r.InvalidArgument? && decoder.Counted() && Stands(decoder.Snap(), decoder.src.stream, d, 2, part, 0, |chunk| - part, true)
  {
    FetchChunk(decoder, chunk, head, d);
    decoder.Consume(part);
    r := FetchFault(decoder, part, |chunk| - part, |head|, d);
  }

  /**
    For every chunk of at least two bytes: a client that has consumed part of it when the fault behind
    it is reported, and asks again for one byte more than there is, can make the check fail.
   */
  method AskAgainAfterFault(chunk: seq<Byte>, part: nat, b: Byte, consumeTrailer: bool) returns (first: FetchResult, second: FetchResult)
    requires 0 < part < |chunk| < U64_LIMIT && DecodeHex(b).None?
    ensures first.InvalidArgument? && second.CheckFailed?
  {
    var head := Chunks(true, [chunk]);
    var stream := head + CRLF + [b];
    RunChunks(true, [chunk], consumeTrailer);
    FaultAfterChunks([chunk], b, consumeTrailer);
    FlattenOne(chunk);
    ScriptIsHonest(|head|, stream);
    var source := new ByteSource(stream, (k: nat, pos: nat, n: nat) => Script(|head|, stream, k, pos, n));
    var decoder := new HttpChunkDecoder(source, consumeTrailer);
    first := FirstTwoFetches(decoder, chunk, part, head, Initial(consumeTrailer));
    second := FetchAgain(decoder, part, |chunk| - part, |head|, consumeTrailer);
  }
}
