/**
  `HttpChunkDecoder`: a buffered source of decoded bytes on top of a source of encoded bytes.

  It re-decodes from a checkpoint on every fetch, and drops source bytes only once everything they
  decoded to has been consumed.
 */
module HttpChunkDecoding {
  import opened ByteTypes
  import opened ChunkDecoder
  import opened HttpChunkProgress
  import opened Sequences
  import opened Wrappers

  // ---------------------------------------------------------------- consume_buffers

  lemma {:induction false} FlattenDrop(buffers: seq<seq<Byte>>)
    requires buffers != []
    ensures Flatten(buffers) == buffers[0] + Flatten(buffers[1..])
  {
  }

  lemma DropFirst(first: seq<Byte>, rest: seq<Byte>, count: nat)
    requires |first| <= count <= |first + rest|
    ensures (first + rest)[count..] == rest[count - |first|..]
  {
  }

  /** `consume_buffers_copy`: drops exactly `count` bytes; its check fails if there are not as many. */
  method ConsumeBuffers(buffers: seq<seq<Byte>>, count: nat) returns (rest: Option<seq<seq<Byte>>>)
    ensures rest.None? <==> count > |Flatten(buffers)|
    ensures rest.Some? ==> Flatten(rest.value) == Flatten(buffers)[count..]
  {
    var copy, left: nat := buffers, count;
    while left > 0
      invariant left <= |Flatten(copy)| <==> count <= |Flatten(buffers)|
      invariant left <= |Flatten(copy)| ==> Flatten(copy)[left..] == Flatten(buffers)[count..]
      decreases |copy|, left
    {
      if copy == [] { return None; }
      FlattenDrop(copy);
      if |copy[0]| > left {
        FlattenCons(copy[0][left..], copy[1..]);
        return Some([copy[0][left..]] + copy[1..]);
      }
      if left <= |Flatten(copy)| { DropFirst(copy[0], Flatten(copy[1..]), left); }
      left, copy := left - |copy[0]|, copy[1..];
    }
    return Some(copy);
  }

  // ---------------------------------------------------------------- the source of encoded bytes

  /** A source that answers its `k`-th fetch, of `n` bytes at `pos`, with `answer(k, pos, n)`, whatever that may be. */
  class ByteSource {
    const stream: seq<Byte>
    const answer: (nat, nat, nat) -> Fetched
    var pos: nat
    var calls: nat

    ghost predicate Valid() reads this { pos <= |stream| && Honestly(stream, answer) }

    constructor (bytes: seq<Byte>, answers: (nat, nat, nat) -> Fetched)
      requires Honestly(bytes, answers)
      ensures Valid() && stream == bytes && answer == answers && pos == calls == 0
    {
      stream, answer, pos, calls := bytes, answers, 0, 0;
    }

    method FetchAtLeast(n: nat) returns (r: Fetched)
      requires Valid()
      modifies this`calls
      ensures r == answer(old(calls), pos, n) && calls == old(calls) + 1 && Honest(stream, pos, n, r)
    {
      r := answer(calls, pos, n);
      calls := calls + 1;
    }

    method Consume(n: nat)
      requires Valid() && pos + n <= |stream|
      modifies this`pos
      ensures Valid() && pos == old(pos) + n
    {
      pos := pos + n;
    }
  }

  ghost predicate Honestly(stream: seq<Byte>, answer: (nat, nat, nat) -> Fetched) {
    forall k: nat, pos: nat, n: nat :: pos <= |stream| ==> Honest(stream, pos, n, answer(k, pos, n))
  }

  // ---------------------------------------------------------------- the decoder object

  /** How many bytes of the body the client has consumed, and the outcomes of decoding up to those and up to what was looked at. */
  datatype Mark = Mark(delivered: nat, before: Outcome, now: Outcome)

  class HttpChunkDecoder {
    const src: ByteSource
    var checkpoint: Decoder
    var latest: Decoder
    var done: bool
    var decodedSrcSize: nat
    var outputAvailable: nat
    var outputConsumed: nat
    var decodedChunks: seq<seq<Byte>>
    ghost var body: Body
    ghost var mark: Mark
    /** Set while the fault that a fetch has reported is still ahead. */
    ghost var failed: bool

    ghost function State(): Progress
      reads this
    {
      Progress(decodedSrcSize, checkpoint, latest, done, Flatten(decodedChunks), outputConsumed, mark.delivered, mark.before, mark.now)
    }

    ghost function Snap(): Snapshot
      reads this, src
    {
      Snapshot(src.stream, src.pos, src.calls, body, State(), failed)
    }

    ghost predicate Counted()
      reads this, src
    {
      src.Valid() && outputAvailable == |Flatten(decodedChunks)|
    }

    /** Everything exposed is what one-shot decoding would give next, also after a fault was reported. */
    ghost predicate Ready()
      reads this, src
    {
      Counted() && InStep(Snap())
    }

    constructor (source: ByteSource, consumeTrailer: bool)
      requires source.Valid()
      ensures src == source && Ready() && !failed && IsNew(body, source.pos, Initial(consumeTrailer))
      ensures State() == FreshProgress(Initial(consumeTrailer)) && Size() == 0
    {
      var d := Initial(consumeTrailer);
      ghost var b := NewBody(source.stream, source.pos, d);
      src, checkpoint, latest, done := source, d, d, false;
      decodedSrcSize, outputAvailable, outputConsumed, decodedChunks := 0, 0, 0, [];
      body, mark, failed := b, Mark(0, Begun(d), Begun(d)), false;
      new;
      NewInStep(Snap(), d);
    }

    function Size(): int
      reads this
    {
      outputAvailable - outputConsumed
    }

    /** The assignments of `release_decoded_chunks`. */
    method Drop()
      requires src.Valid() && src.pos + decodedSrcSize <= |src.stream|
      modifies this`outputAvailable, this`outputConsumed, this`decodedChunks, this`checkpoint, this`decodedSrcSize, src`pos
      ensures Counted() && src.pos == old(src.pos + decodedSrcSize)
      ensures State() == old(State()).(looked := 0, checkpoint := old(latest), bytes := [], outputConsumed := 0)
    {
      src.Consume(decodedSrcSize);
      outputAvailable, outputConsumed, decodedChunks, checkpoint, decodedSrcSize := 0, 0, [], latest, 0;
    }

    /** Drops what was decoded and consumed. */
    method ReleaseDecodedChunks()
      requires Ready() && Snap().Size() == 0
      modifies this, src`pos
      ensures Counted() && Released(old(Snap()), Snap())
    {
      ghost var v := Snap();
      Drop();
      if failed {
        body := NewBody(src.stream, src.pos, latest);
        mark, failed := Mark(0, Begun(latest), Begun(latest)), false;
        ReleasedAnew(v, Snap());
      } else {
        mark := mark.(before := mark.now);
        ReleasedClear(v, Snap());
      }
    }

    /** The client is done with the next `count` bytes. */
    method Consume(count: nat)
      requires Ready() && count <= Snap().Size()
      modifies this, src`pos
      ensures Counted() && if count < old(Snap().Size()) then Snap() == Took(old(Snap()), count) else Released(Took(old(Snap()), count), Snap())
      ensures Ready()
    {
      TookInStep(Snap(), count);
      outputConsumed := outputConsumed + count;
      mark := mark.(delivered := mark.delivered + count);
      if outputConsumed == outputAvailable {
        ReleaseDecodedChunks();
      }
    }

    /** If all that is pending is already consumed, the source bytes it came from can go. */
    method MoveUp(n: nat, toConsume: nat) returns (newToConsume: nat)
      modifies this`outputConsumed, this`decodedChunks, this`checkpoint, this`mark
      ensures State() == MovedUp(old(State()))
      ensures newToConsume == if MovesUp(old(State())) then toConsume + n else toConsume
    {
      newToConsume := toConsume;
      if outputConsumed != 0 {
        var decodedSize := |Flatten(decodedChunks)|;
        if outputConsumed >= decodedSize {
          outputConsumed, decodedChunks, checkpoint := outputConsumed - decodedSize, [], latest;
          mark := mark.(before := mark.now);
          newToConsume := toConsume + n;
        }
      }
    }

    /** Take in what one buffer decoded to. */
    method Absorb(d: Decoder, done': bool, n: nat, out: seq<seq<Byte>>, toConsume: nat, ghost r: Outcome) returns (newToConsume: nat)
      requires r == Outcome(d, n, Flatten(out), if done' then Done else More)
      modifies this`checkpoint, this`latest, this`done, this`decodedSrcSize, this`outputConsumed, this`decodedChunks, this`mark
      ensures State() == AfterBuffer(old(State()), r)
      ensures newToConsume == Droppable(old(State()), r, toConsume)
    {
      FlattenConcat(decodedChunks, out);
      latest, decodedChunks := d, decodedChunks + out;
      mark := mark.(now := Add(mark.now, r));
      decodedSrcSize, done := decodedSrcSize + n, done';
      newToConsume := MoveUp(n, toConsume);
    }

    /** Decode one fetched buffer. */
    method DecodeOne(buffer: seq<Byte>, toConsume: nat) returns (newToConsume: nat, ok: bool, ghost r: Outcome)
      requires Valid(latest)
      modifies this`checkpoint, this`latest, this`done, this`decodedSrcSize, this`outputConsumed, this`decodedChunks, this`mark
      ensures Decodes(old(latest), buffer, r) && (ok <==> r.verdict != Invalid)
      ensures ok ==> State() == AfterBuffer(old(State()), r) && newToConsume == Droppable(old(State()), r, toConsume)
      ensures !ok ==> State() == Spoilt(old(State()), r) && newToConsume == toConsume
    {
      RunDecodes(latest, buffer);
      var d, verdict, n, out := DecodeChunked(latest, buffer);
      r := Outcome(d, n, Flatten(out), verdict);
      ok := verdict != Invalid;
      if ok {
        newToConsume := Absorb(d, verdict == Done, n, out, toConsume, r);
      } else {
        FlattenConcat(decodedChunks, out);
        latest, decodedChunks, newToConsume := d, decodedChunks + out, toConsume;
      }
    }

    /** The loop over the fetched buffers. */
    method DecodeAll(buffers: seq<seq<Byte>>, ghost start: Decoder, ghost seen: seq<Byte>, ghost at: nat, ghost full: Outcome, ghost from: Progress)
      returns (toConsume: nat, ok: bool)
      requires UpTo(start, seen, at, from, buffers, 0, State(), 0)
      requires at <= |seen| && Flatten(buffers) <= seen[at..] && Decodes(start, seen, full)
      modifies this`checkpoint, this`latest, this`done, this`decodedSrcSize, this`outputConsumed, this`decodedChunks, this`mark
      ensures ok ==> Decoding(start, seen, at, State(), toConsume) && Stays(from, State(), toConsume, false)
      ensures ok && !done ==> decodedSrcSize == |Flatten(buffers)|
      ensures !ok ==> Faulty(start, seen, full, at, from, State(), toConsume, |buffers| == 1)
    {
      var i: nat := 0;
      toConsume, ok := 0, true;
      while i < |buffers| && !done
        invariant UpTo(start, seen, at, from, buffers, i, State(), toConsume)
        decreases |buffers| - i
      {
        ghost var p, dropped := State(), toConsume;
        ghost var r;
        toConsume, ok, r := DecodeOne(buffers[i], toConsume);
        NextUpTo(start, seen, full, at, from, buffers, i, p, dropped, r);
        if !ok { return; }
        i := i + 1;
      }
      AllDecoded(start, seen, at, from, buffers, i, State(), toConsume);
    }

    /** What happens when the decoding loop is left, in whatever way. */
    method Finish(toConsume: nat)
      requires src.Valid() && toConsume <= decodedSrcSize && src.pos + decodedSrcSize <= |src.stream|
      modifies this`decodedSrcSize, this`outputAvailable, src`pos
      ensures src.Valid() && src.pos == old(src.pos) + toConsume
      ensures State() == Finished(old(State()), toConsume) && outputAvailable == |Flatten(decodedChunks)|
    {
      if toConsume > 0 {
        src.Consume(toConsume);
        decodedSrcSize := decodedSrcSize - toConsume;
      }
      outputAvailable := |Flatten(decodedChunks)|;
    }

    method StartOver()
      requires !done
      modifies this`decodedSrcSize, this`decodedChunks, this`latest, this`mark
      ensures State() == Restarted(old(State()))
    {
      decodedSrcSize, decodedChunks, latest := 0, [], checkpoint;
      mark := mark.(now := mark.before);
    }

    /** Start over from the checkpoint with the fetched buffers, which go to the end of what is `seen`. */
    method Redecode(buffers: seq<seq<Byte>>, ghost start: Decoder, ghost seen: seq<Byte>, ghost at: nat, ghost full: Outcome)
      returns (ghost moved: nat, ok: bool)
      requires src.Valid() && at <= |seen| <= at + |src.stream| - src.pos && Flatten(buffers) == seen[at..]
      requires Restartable(start, seen, at, State()) && Decodes(start, seen, full)
      modifies this`checkpoint, this`latest, this`done, this`decodedSrcSize, this`outputConsumed, this`decodedChunks, this`mark
      modifies this`outputAvailable, this`failed, src`pos
      ensures Counted() && src.pos == old(src.pos) + moved && src.pos + decodedSrcSize <= |src.stream| && failed == !ok
      ensures CameTo(start, seen, old(State()), State(), at + moved, moved, |buffers| == 1, ok, full)
    {
      ghost var p := State();
      FirstUpTo(start, seen, at, p, buffers);
      StartOver();
      var toConsume;
      toConsume, ok := DecodeAll(buffers, start, seen, at, full, p);
      EitherWay(start, seen, full, at, p, State(), toConsume, |buffers| == 1, ok);
      Finish(toConsume);
      moved, failed := toConsume, !ok;
    }

    /** Decode the fetched buffers again from the checkpoint; or come to the fault in them. */
    method DecodeFetched(buffers: seq<seq<Byte>>, ghost o: Outcome) returns (ok: bool)
      requires Ready() && !done && Flatten(buffers) <= src.stream[src.pos..] && decodedSrcSize < |Flatten(buffers)|
      requires Decodes(checkpoint, Flatten(buffers), o)
      modifies this, src`pos
      ensures Counted() && Redecoded(old(Snap()), Snap(), o, |buffers| == 1, ok)
    {
      ghost var v, fetched := Snap(), Flatten(buffers);
      ghost var seen, full := BeforeFetch(v, fetched, o);
      ghost var moved;
      moved, ok := Redecode(buffers, v.body.start, seen, v.At(), full);
      AfterFetch(v, Snap(), fetched, seen, moved, |buffers| == 1, ok, full, o);
    }

    /** What the source is going to answer to a request for `minCount`, and what that decodes to from the checkpoint. */
    ghost function Answer(minCount: nat): Fetched
      reads this, src
    {
      AnswerTo(src.answer, Snap(), minCount)
    }

    ghost function Redecoding(minCount: nat): Outcome
      reads this, src
    {
      DecodedAgain(Snap(), Answer(minCount))
    }

    /**
      Fetch at least `minCount` decoded bytes.  Whatever the fragmentation and the history of calls,
      the data is what one-shot decoding of the body gives from the first unconsumed byte on.  After
      a fault, what was decoded before it is still handed out; a request for more decodes again, and
      the check in `consume_buffers` fails if and only if that gives less than was consumed before.
     */
    method FetchAtLeast(minCount: nat) returns (r: FetchResult)
      requires Ready()
      modifies this, src
      ensures Promise(old(Snap()), Snap(), minCount, old(Answer(minCount)), old(Redecoding(minCount)), r)
      ensures Counted() && (!r.CheckFailed? ==> Ready())
      ensures r.SourceError? ==> LastBroken(src.answer, old(Snap()), Snap(), minCount)
    {
      ghost var v, a, o, first := Snap(), Answer(minCount), Redecoding(minCount), true;
      while 0 <= Size() < minCount
        invariant Counted() && (Size() >= 0 ==> Ready())
        invariant Rounds(v, Snap(), minCount, a, o, first)
        decreases failed, |src.stream| - (src.pos + decodedSrcSize)
      {
        ghost var w, a', o' := Snap(), Answer(minCount), Redecoding(minCount);
        var stop;
        stop, r := Round(minCount);
        if stop {
          FetchStops(src.answer, v, w, Snap(), minCount, a, o, first, a', o', r);
          return;
        }
        RoundGoesOn(v, w, Snap(), minCount, a, o, first, a', o', r);
        first := false;
      }
      r := Offered();
      RoundsEnd(v, Snap(), minCount, a, o, first, r);
    }

    /** One round of the fetching loop. */
    method Round(minCount: nat) returns (stop: bool, r: FetchResult)
      requires Ready() && 0 <= Size() < minCount
      modifies this, src
      ensures RoundPromise(old(Snap()), Snap(), minCount, old(Answer(minCount)), old(Redecoding(minCount)), stop, r)
      ensures Counted() && (Size() >= 0 ==> Ready())
    {
      ghost var v, a, o := Snap(), Answer(minCount), Redecoding(minCount);
      if done {
        Release();
        EndReleased(v, Snap(), minCount);
        return true, EndOfStream;
      }
      if a.Buffers? { RunDecodes(checkpoint, Flatten(a.buffers)); }
      stop, r := Ask(minCount, a, o);
      Reacted(v, Snap(), minCount, a, o, stop, r);
    }

    /** Ask the source for more. */
    method Ask(minCount: nat, ghost a: Fetched, ghost o: Outcome) returns (stop: bool, r: FetchResult)
      requires Ready() && !done && 0 <= Size() < minCount && a == Answer(minCount)
      requires a.Buffers? ==> Decodes(checkpoint, Flatten(a.buffers), o)
      modifies this, src
      ensures Reaction(old(Snap()).(calls := old(src.calls) + 1), Snap(), minCount, a, o, stop, r)
      ensures Counted() && (Size() >= 0 ==> Ready())
    {
      var fetched := FetchFromSource(minCount);
      stop, r := React(fetched, minCount, o);
    }

    method FetchFromSource(minCount: nat) returns (fetched: Fetched)
      requires Ready() && 0 <= Size() < minCount
      modifies src`calls
      ensures fetched == old(Answer(minCount)) && Snap() == old(Snap()).(calls := old(src.calls) + 1) && Ready()
      ensures Honest(src.stream, src.pos, Asked(Snap(), minCount), fetched)
    {
      ghost var v := Snap();
      fetched := src.FetchAtLeast(decodedSrcSize + (minCount - Size()));
      AnotherCall(v, Snap());
    }

    /** What the answer of the source leads to. */
    method React(fetched: Fetched, minCount: nat, ghost o: Outcome) returns (stop: bool, r: FetchResult)
      requires Ready() && !done && 0 <= Size() < minCount && Honest(src.stream, src.pos, Asked(Snap(), minCount), fetched)
      requires fetched.Buffers? ==> Decodes(checkpoint, Flatten(fetched.buffers), o)
      modifies this, src`pos
      ensures Reaction(old(Snap()), Snap(), minCount, fetched, o, stop, r)
      ensures Counted() && (Size() >= 0 ==> Ready())
    {
      match fetched
      case NoMore =>
        ghost var v := Snap();
        Release();
        ClosedReleased(v, Snap(), minCount);
        return true, ClosedBeforeEndOfStream;
      case Broken =>
        return true, SourceError;
      case Buffers(buffers) =>
        var ok := DecodeFetched(buffers, o);
        return !ok, InvalidArgument;
    }

    method Release()
      requires Ready()
      modifies this, src`pos
      ensures Counted() && if old(Snap().Size() == 0) then Released(old(Snap()), Snap()) else Snap() == old(Snap())
    {
      if Size() == 0 { ReleaseDecodedChunks(); }
    }

    /** What a fetch comes to when the loop is left with enough on offer, or with a size that has wrapped around. */
    method Offered() returns (r: FetchResult)
      requires Counted()
      ensures if Snap().Size() < 0 then r.CheckFailed? else r.Data? && Flatten(r.buffers) == Snap().p.bytes[outputConsumed..]
    {
      var rest := ConsumeBuffers(decodedChunks, outputConsumed);
      match rest
      case None => return CheckFailed;
      case Some(buffers) => return Data(buffers);
    }
  }

  // ---------------------------------------------------------------- clients

  lemma ReadOn(bytes: seq<Byte>, available: seq<Byte>, full: seq<Byte>)
    requires bytes <= full && available <= full[|bytes|..]
    ensures bytes + available <= full
  {
  }

  /** What fetching one byte more comes to. */
  lemma FetchOne(v: Snapshot, w: Snapshot, a: Fetched, o: Outcome, r: FetchResult)
    requires Promise(v, w, 1, a, o, r) && !v.failed
    ensures !r.CheckFailed? && w.body == v.body && w.p.delivered == v.p.delivered <= |w.body.full.output| && (w.failed <==> r.InvalidArgument?)
    ensures r.Data? ==> 1 <= w.Size() && Flatten(r.buffers) <= w.body.full.output[w.p.delivered..] && |Flatten(r.buffers)| == w.Size()
    ensures r.InvalidArgument? ==> w.body.full.verdict == Invalid
    ensures r.EndOfStream? ==> w.body.full.verdict == Done && w.p.delivered == |w.body.full.output| && w.pos <= w.body.origin + w.body.full.consumed
    ensures r.ClosedBeforeEndOfStream? ==> w.body.full.verdict == More && w.p.delivered == |w.body.full.output|
  {
    if r.ClosedBeforeEndOfStream? { ShortOfOne(w); }
  }

  /** A source that never breaks. */
  ghost predicate NeverBreaks(source: ByteSource) {
    forall k: nat, pos: nat, n: nat :: !source.answer(k, pos, n).Broken?
  }

  /** Fetches something, and shows all of it. */
  method FetchSome(decoder: HttpChunkDecoder) returns (available: seq<Byte>, last: FetchResult)
    requires decoder.Ready() && !decoder.failed
    modifies decoder, decoder.src
    ensures decoder.Ready() && decoder.body == old(decoder.body) && (decoder.failed <==> last.InvalidArgument?)
    ensures decoder.mark.delivered == old(decoder.mark.delivered) <= |decoder.body.full.output|
    ensures last.Data? <==> available != []
    ensures last.Data? ==> |available| == decoder.Snap().Size() && available <= decoder.body.full.output[decoder.mark.delivered..]
    ensures last.InvalidArgument? ==> decoder.body.full.verdict == Invalid
    ensures last.EndOfStream? ==> decoder.body.full.verdict == Done && decoder.mark.delivered == |decoder.body.full.output|
    ensures last.EndOfStream? ==> decoder.src.pos <= decoder.body.origin + decoder.body.full.consumed
    ensures last.ClosedBeforeEndOfStream? ==> decoder.body.full.verdict == More && decoder.mark.delivered == |decoder.body.full.output|
    ensures !last.CheckFailed? && (NeverBreaks(decoder.src) ==> !last.SourceError?)
  {
    ghost var v, a, o := decoder.Snap(), decoder.Answer(1), decoder.Redecoding(1);
    last := decoder.FetchAtLeast(1);
    FetchOne(v, decoder.Snap(), a, o, last);
    available := if last.Data? then Flatten(last.buffers) else [];
  }

  /** Fetches something and takes some of it. */
  method ReadSome(decoder: HttpChunkDecoder) returns (bytes: seq<Byte>, last: FetchResult)
    requires decoder.Ready() && !decoder.failed
    modifies decoder, decoder.src
    ensures decoder.Ready() && decoder.body == old(decoder.body) && (decoder.failed <==> last.InvalidArgument?)
    ensures decoder.mark.delivered == old(decoder.mark.delivered) + |bytes| <= |decoder.body.full.output|
    ensures (last.Data? <==> bytes != []) && bytes == decoder.body.full.output[old(decoder.mark.delivered)..decoder.mark.delivered]
    ensures last.InvalidArgument? ==> decoder.body.full.verdict == Invalid
    ensures last.EndOfStream? ==> decoder.body.full.verdict == Done && decoder.mark.delivered == |decoder.body.full.output|
    ensures last.EndOfStream? ==> decoder.src.pos <= decoder.body.origin + decoder.body.full.consumed
    ensures last.ClosedBeforeEndOfStream? ==> decoder.body.full.verdict == More && decoder.mark.delivered == |decoder.body.full.output|
    ensures !last.CheckFailed? && (NeverBreaks(decoder.src) ==> !last.SourceError?)
  {
    var available;
    available, last := FetchSome(decoder);
    bytes := [];
    if last.Data? {
      var count: int := *;
      if count <= 0 || count > |available| { count := |available|; }
      bytes := available[..count];
      decoder.Consume(count);
    }
  }

  /**
    A client that reads to the end, taking some of what is on offer each time, gets the whole body; of a
    truncated body everything that can be decoded; and before a fault only what belongs to the body.
   */
  method ReadAll(decoder: HttpChunkDecoder) returns (bytes: seq<Byte>, last: FetchResult)
    requires decoder.Ready() && !decoder.failed && decoder.mark.delivered == 0
    modifies decoder, decoder.src
    ensures decoder.body == old(decoder.body) && decoder.mark.delivered == |bytes| && !last.Data?
    ensures decoder.body.full == Run(decoder.body.start, decoder.body.bytes) && bytes <= decoder.body.full.output
    ensures last.EndOfStream? ==> decoder.body.full.verdict == Done && bytes == decoder.body.full.output
    ensures last.EndOfStream? ==> decoder.src.pos <= decoder.body.origin + decoder.body.full.consumed
    ensures last.ClosedBeforeEndOfStream? ==> decoder.body.full.verdict == More && bytes == decoder.body.full.output
    ensures last.InvalidArgument? ==> decoder.failed && decoder.body.full.verdict == Invalid
    ensures NeverBreaks(decoder.src) && decoder.body.full.verdict == Done ==> last.EndOfStream?
    ensures NeverBreaks(decoder.src) && decoder.body.full.verdict == More ==> last.ClosedBeforeEndOfStream?
    ensures NeverBreaks(decoder.src) && decoder.body.full.verdict == Invalid ==> last.InvalidArgument?
  {
    FullIsRun(decoder.body, decoder.src.stream);
    ghost var full := decoder.body.full.output;
    bytes := [];
    while true
      invariant decoder.Ready() && !decoder.failed && decoder.body == old(decoder.body)
      invariant decoder.mark.delivered == |bytes| && bytes <= full
      decreases |full| - |bytes|
    {
      var more;
      more, last := ReadSome(decoder);
      ReadOn(bytes, more, full);
      bytes := bytes + more;
      if !last.Data? { return; }
    }
  }

  /**
    After a fault, a client that goes on reading gets the rest of the valid bytes.  Then the object
    starts over: at the beginning of the buffer with the fault, although it has been decoded, and in
    the state at the fault.
   */
  method ReadPastFault(decoder: HttpChunkDecoder) returns (bytes: seq<Byte>)
    requires decoder.Ready() && decoder.failed
    modifies decoder, decoder.src
    ensures old(decoder.mark.delivered) <= |old(decoder.body).full.output| && bytes == old(decoder.body).full.output[old(decoder.mark.delivered)..]
    ensures decoder.Ready() && !decoder.failed && decoder.State() == FreshProgress(decoder.body.start)
    ensures decoder.src.pos == old(decoder.src.pos + decoder.decodedSrcSize) <= old(decoder.body.origin + decoder.body.full.consumed)
    ensures IsNew(decoder.body, decoder.src.pos, old(decoder.body.full.decoder))
  {
    ghost var v := decoder.Snap();
    Exposes(v);
    var size := decoder.Size();
    var r := decoder.FetchAtLeast(size);
    bytes := Flatten(r.buffers);
    assert bytes == v.body.full.output[v.p.delivered..];
    decoder.Consume(size);
  }

  /**
    Why `ClosedBeforeEndOfStream` is not the same as a truncated body: a new decoder that is asked for
    more bytes than its source has reports it, however complete the body in the source may be.
   */
  method AskForTooMuch(decoder: HttpChunkDecoder, minCount: nat) returns (r: FetchResult)
    requires decoder.Ready() && !decoder.failed && decoder.State() == FreshProgress(decoder.body.start)
    requires minCount > |decoder.src.stream| - decoder.src.pos
    modifies decoder, decoder.src
    ensures r.ClosedBeforeEndOfStream? || r.SourceError?
    ensures decoder.body == old(decoder.body) && decoder.body.full == Run(decoder.body.start, decoder.src.stream[decoder.body.origin..])
  {
    FullIsRun(decoder.body, decoder.src.stream);
    r := decoder.FetchAtLeast(minCount);
  }
}
