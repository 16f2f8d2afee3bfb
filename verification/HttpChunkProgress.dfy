/**
  What the fields of `HttpChunkDecoder` mean: how they belong together with what decoding the body at
  once comes to, what one fetched buffer does to them, and what a fetch promises.
 */
module HttpChunkProgress {
  import opened ByteTypes
  import opened ChunkDecoder
  import opened Sequences

  // ---------------------------------------------------------------- what the fields mean

  /**
    The object's state apart from the source: `looked` source bytes past the consumed ones have been
    decoded into `bytes`; `before` and `now` are the outcomes of decoding without and with them.
   */
  datatype Progress = Progress(
    looked: nat, checkpoint: Decoder, latest: Decoder, done: bool, bytes: seq<Byte>, outputConsumed: nat, delivered: nat,
    before: Outcome, now: Outcome)

  /** The two streams have their first `n` bytes in common. */
  ghost predicate Begins(input: seq<Byte>, stream: seq<Byte>, n: nat) {
    n <= |input| && n <= |stream| && input[..n] == stream[..n]
  }

  /** Decoding the first `n` bytes has come to `o`: whatever follows them, it goes on from there. */
  ghost predicate Reaches(start: Decoder, stream: seq<Byte>, n: nat, o: Outcome) {
    n <= |stream|
    && forall input {:trigger Begins(input, stream, n)} :: Begins(input, stream, n) ==> Run(start, input) == Resume(o, input[n..])
  }

  function Begun(start: Decoder): Outcome { Outcome(start, 0, [], More) }

  lemma ReachesStart(start: Decoder, stream: seq<Byte>)
    ensures Reaches(start, stream, 0, Begun(start))
  {
    forall input | Begins(input, stream, 0) ensures Run(start, input) == Resume(Begun(start), input[0..]) {
      assert input[0..] == input && [] + Run(start, input).output == Run(start, input).output;
    }
  }

  /** The whole stream, seen from position `n`. */
  lemma FromHere(start: Decoder, stream: seq<Byte>, n: nat, o: Outcome)
    requires Reaches(start, stream, n, o)
    ensures Run(start, stream) == Resume(o, stream[n..])
    ensures o.verdict == More ==> o.consumed == n
  {
    assert Begins(stream, stream, n);
    assert Begins(stream[..n], stream, n) && stream[..n][n..] == [];
    RunConsumed(start, stream[..n]);
  }

  /** Decoding all of `input` comes to `o`. */
  ghost predicate Decodes(d: Decoder, input: seq<Byte>, o: Outcome) { Reaches(d, input, |input|, o) }

  lemma DecodesIsRun(d: Decoder, input: seq<Byte>, o: Outcome)
    requires Decodes(d, input, o)
    ensures o == Run(d, input)
  {
    FromHere(d, input, |input|, o);
    assert o.output + [] == o.output;
  }

  lemma RunDecodes(d: Decoder, input: seq<Byte>)
    ensures Decodes(d, input, Run(d, input))
  {
    forall longer | Begins(longer, input, |input|) ensures Run(d, longer) == Resume(Run(d, input), longer[|input|..]) {
      assert longer == input + longer[|input|..];
      RunSplit(d, input, longer[|input|..]);
    }
  }

  /** A later position, seen from an earlier one. */
  lemma FromEarlier(start: Decoder, stream: seq<Byte>, x: nat, ox: Outcome, y: nat, oy: Outcome)
    requires Reaches(start, stream, x, ox) && Reaches(start, stream, y, oy) && x <= y
    ensures oy == Resume(ox, stream[x..y])
  {
    var input := stream[..y];
    assert input[..x] == stream[..x] && input[x..] == stream[x..y] && input[y..] == [];
    assert Begins(input, stream, x) && Begins(input, stream, y);
    assert oy.output + [] == oy.output;
  }

  /** Only the bytes so far matter. */
  lemma SameReaches(start: Decoder, stream: seq<Byte>, other: seq<Byte>, n: nat, o: Outcome)
    requires Reaches(start, stream, n, o) && Begins(other, stream, n)
    ensures Reaches(start, other, n, o)
  {
    forall input | Begins(input, other, n) ensures Run(start, input) == Resume(o, input[n..]) { assert Begins(input, stream, n); }
  }

  /** The bytes a call consumed already tell its whole story. */
  lemma {:induction false} RunPrefix(d: Decoder, input: seq<Byte>)
    requires Run(d, input).verdict != Invalid
    ensures Run(d, input).consumed <= |input|
    ensures Run(d, input[..Run(d, input).consumed]) == Run(d, input)
    ensures Run(d, input).verdict == Done ==> Run(d, input).consumed > 0
    decreases |input|
  {
    RunConsumed(d, input);
    if input != [] && StepByte(d, input[0]).Next? {
      var d' := StepByte(d, input[0]).d;
      RunPrefix(d', input[1..]);
      var n := Run(d', input[1..]).consumed;
      assert input[..n + 1][1..] == input[1..n + 1] == input[1..][..n];
    }
  }

  /** The outcome after one more buffer. */
  function Add(o: Outcome, r: Outcome): Outcome { Prepend(o.consumed, o.output, r) }

  lemma AddResume(o: Outcome, r: Outcome, rest: seq<Byte>)
    requires o.verdict == More
    ensures Add(o, Resume(r, rest)) == Resume(Add(o, r), rest)
  {
    if r.verdict == More { PrependPrepend(o.consumed, o.output, r.consumed, r.output, Run(r.decoder, rest)); }
  }

  lemma GoesOn(o: Outcome, more: seq<Byte>, fed: seq<Byte>, rest: seq<Byte>, r: Outcome)
    requires o.verdict == More && r == Run(o.decoder, fed) && more == fed + rest
    ensures Resume(o, more) == Resume(Add(o, r), rest)
  {
    RunSplit(o.decoder, fed, rest);
    AddResume(o, r, rest);
  }

  lemma BeginsOn(input: seq<Byte>, stream: seq<Byte>, here: nat, fed: seq<Byte>, n: nat)
    requires here <= |stream| && fed <= stream[here..] && n == here + |fed| && Begins(input, stream, n)
    ensures Begins(input, stream, here) && input[here..] == fed + input[n..]
  {
    assert input[..here] == input[..n][..here] && stream[..here] == stream[..n][..here];
    assert input[here..n] == input[..n][here..] == stream[..n][here..] == fed;
  }

  lemma OneReachesOn(start: Decoder, stream: seq<Byte>, here: nat, o: Outcome, fed: seq<Byte>, r: Outcome, n: nat, input: seq<Byte>)
    requires Reaches(start, stream, here, o) && o.verdict == More && fed <= stream[here..] && r == Run(o.decoder, fed)
    requires n == here + |fed| && Begins(input, stream, n)
    ensures Run(start, input) == Resume(Add(o, r), input[n..])
  {
    BeginsOn(input, stream, here, fed, n);
    GoesOn(o, input[here..], fed, input[n..], r);
  }

  lemma OneFeeds(start: Decoder, stream: seq<Byte>, here: nat, o: Outcome, buffer: seq<Byte>, r: Outcome, n: nat, input: seq<Byte>)
    requires Reaches(start, stream, here, o) && o.verdict == More && buffer <= stream[here..]
    requires r == Run(o.decoder, buffer) && r.verdict != Invalid && n == here + r.consumed && Begins(input, stream, n)
    ensures Run(start, input) == Resume(Add(o, r), input[n..])
  {
    RunPrefix(o.decoder, buffer);
    var fed := buffer[..r.consumed];
    PrefixTrans(fed, buffer, stream[here..]);
    OneReachesOn(start, stream, here, o, fed, r, n, input);
  }

  lemma PrefixTrans(x: seq<Byte>, y: seq<Byte>, z: seq<Byte>)
    requires x <= y <= z
    ensures x <= z
  {
  }

  /** How a call that does not fail leaves the decoder. */
  lemma RunFacts(d: Decoder, buffer: seq<Byte>, r: Outcome)
    requires r == Run(d, buffer) && r.verdict != Invalid && Valid(d)
    ensures r.consumed <= |buffer| && Valid(r.decoder) && (r.verdict == Done ==> r.consumed > 0)
  {
    RunValid(d, buffer);
    RunPrefix(d, buffer);
  }

  lemma FeedReaches(start: Decoder, stream: seq<Byte>, here: nat, o: Outcome, buffer: seq<Byte>, r: Outcome, n: nat)
    requires Reaches(start, stream, here, o) && o.verdict == More && buffer <= stream[here..]
    requires r == Run(o.decoder, buffer) && r.verdict != Invalid && n == here + r.consumed <= |stream|
    ensures Reaches(start, stream, n, Add(o, r))
  {
    forall input | Begins(input, stream, n) ensures Run(start, input) == Resume(Add(o, r), input[n..]) {
      OneFeeds(start, stream, here, o, buffer, r, n, input);
    }
  }

  /** Position, fields and outcomes belong together. */
  ghost predicate Track(start: Decoder, stream: seq<Byte>, pos: nat, p: Progress) {
    && Valid(start) && Reaches(start, stream, pos, p.before) && Reaches(start, stream, pos + p.looked, p.now)
    && p.now.consumed == pos + p.looked && Between(p)
  }

  ghost predicate Between(p: Progress) {
    && Valid(p.checkpoint) && Valid(p.latest)
    && p.now.decoder == p.latest && p.now.verdict == (if p.done then Done else More)
    && p.delivered + |p.bytes| == |p.now.output| + p.outputConsumed
    && if p.done && p.looked == 0 then p.bytes == []
       else p.before.verdict == More && p.before.decoder == p.checkpoint && p.now.output == p.before.output + p.bytes
  }

  function Fed(p: Progress, r: Outcome): Progress {
    p.(looked := p.looked + r.consumed, latest := r.decoder, done := r.verdict == Done, bytes := p.bytes + r.output,
       now := Add(p.now, r))
  }

  lemma FedBetween(p: Progress, r: Outcome)
    requires Between(p) && !p.done && Valid(r.decoder) && r.verdict != Invalid && (r.verdict == Done ==> r.consumed > 0)
    ensures Between(Fed(p, r))
  {
  }

  lemma FedTrack(start: Decoder, stream: seq<Byte>, pos: nat, p: Progress, r: Outcome)
    requires Track(start, stream, pos, p) && !p.done && Reaches(start, stream, pos + p.looked + r.consumed, Add(p.now, r))
    requires r.verdict != Invalid && Valid(r.decoder) && (r.verdict == Done ==> r.consumed > 0)
    ensures Track(start, stream, pos, Fed(p, r))
  {
    FedBetween(p, r);
  }

  /** Decoding one more buffer that follows in the stream. */
  lemma Feed(start: Decoder, stream: seq<Byte>, pos: nat, p: Progress, buffer: seq<Byte>, r: Outcome)
    requires Track(start, stream, pos, p) && !p.done
    requires buffer <= stream[pos + p.looked..] && Decodes(p.latest, buffer, r) && r.verdict != Invalid
    ensures r.consumed <= |buffer| && (r.verdict == More ==> r.consumed == |buffer|)
    ensures Track(start, stream, pos, Fed(p, r))
  {
    DecodesIsRun(p.latest, buffer, r);
    RunConsumed(p.latest, buffer);
    RunFacts(p.latest, buffer, r);
    FeedReaches(start, stream, pos + p.looked, p.now, buffer, r, pos + p.looked + r.consumed);
    FedTrack(start, stream, pos, p, r);
  }

  /** Everything looked at has been consumed by the client: move the checkpoint up. */
  function Cleared(p: Progress): Progress
    requires p.outputConsumed >= |p.bytes|
  {
    Progress(0, p.latest, p.latest, p.done, [], p.outputConsumed - |p.bytes|, p.delivered, p.now, p.now)
  }

  function Taken(p: Progress, count: nat): Progress {
    p.(outputConsumed := p.outputConsumed + count, delivered := p.delivered + count)
  }

  lemma TrackTaken(start: Decoder, stream: seq<Byte>, pos: nat, p: Progress, count: nat)
    requires Track(start, stream, pos, p)
    ensures Track(start, stream, pos, Taken(p, count))
  {
  }

  function FreshProgress(d: Decoder): Progress { Progress(0, d, d, false, [], 0, 0, Begun(d), Begun(d)) }

  lemma FreshTrack(d: Decoder, stream: seq<Byte>)
    requires Valid(d)
    ensures Track(d, stream, 0, FreshProgress(d))
  {
    ReachesStart(d, stream);
  }

  lemma Clear(start: Decoder, stream: seq<Byte>, pos: nat, p: Progress)
    requires Track(start, stream, pos, p) && p.outputConsumed >= |p.bytes|
    ensures Track(start, stream, pos + p.looked, Cleared(p))
  {
  }

  /** What has been looked at is the beginning of what the whole stream decodes to. */
  lemma Whole(start: Decoder, stream: seq<Byte>, n: nat, o: Outcome, full: Outcome)
    requires Reaches(start, stream, n, o) && o.verdict != Invalid && Decodes(start, stream, full)
    ensures o.output <= full.output
    ensures o.verdict == Done ==> full == o
    ensures o.verdict == More ==> n <= full.consumed
  {
    FromHere(start, stream, n, o);
    DecodesIsRun(start, stream, full);
  }

  /** An invalid buffer ends the whole stream where it ends. */
  lemma WholeInvalid(start: Decoder, stream: seq<Byte>, n: nat, o: Outcome, buffer: seq<Byte>, r: Outcome, full: Outcome)
    requires Reaches(start, stream, n, o) && buffer <= stream[n..] && o.verdict == More && Decodes(start, stream, full)
    requires Decodes(o.decoder, buffer, r) && r.verdict == Invalid
    ensures full == Prepend(n, o.output, r)
  {
    DecodesIsRun(o.decoder, buffer, r);
    DecodesIsRun(start, stream, full);
    var rest := stream[n..];
    assert rest == buffer + rest[|buffer|..];
    RunSplit(o.decoder, buffer, rest[|buffer|..]);
    FromHere(start, stream, n, o);
  }

  /** Every byte of output takes a byte of input, and so does the end. */
  lemma {:induction false} OutputBound(d: Decoder, input: seq<Byte>)
    ensures |Run(d, input).output| + (if Run(d, input).verdict == Done then 1 else 0) <= |input|
    decreases |input|
  {
    if input != [] && StepByte(d, input[0]).Next? { OutputBound(StepByte(d, input[0]).d, input[1..]); }
  }

  /** What can still come is bounded by what has not been looked at. */
  lemma RestBound(start: Decoder, stream: seq<Byte>, n: nat, o: Outcome, full: Outcome)
    requires Reaches(start, stream, n, o) && o.verdict == More && Decodes(start, stream, full)
    ensures |full.output| + (if full.verdict == Done then 1 else 0) <= |o.output| + |stream| - n
  {
    FromHere(start, stream, n, o);
    DecodesIsRun(start, stream, full);
    OutputBound(o.decoder, stream[n..]);
  }

  /** The state in the middle of a fetch, with `toConsume` of the source bytes looked at ready to be dropped. */
  ghost predicate Decoding(start: Decoder, stream: seq<Byte>, pos: nat, p: Progress, toConsume: nat) {
    && toConsume <= p.looked
    && Track(start, stream, pos + toConsume, p.(looked := p.looked - toConsume))
    && (toConsume < p.looked ==> p.outputConsumed == 0 || p.outputConsumed < |p.bytes|)
  }

  predicate MovesUp(q: Progress) { q.outputConsumed != 0 && q.outputConsumed >= |q.bytes| }

  /** If all that is pending was consumed before, move the checkpoint. */
  function MovedUp(q: Progress): Progress {
    if MovesUp(q)
    then q.(bytes := [], checkpoint := q.latest, outputConsumed := q.outputConsumed - |q.bytes|, before := q.now)
    else q
  }

  function AfterBuffer(p: Progress, r: Outcome): Progress { MovedUp(Fed(p, r)) }

  function Droppable(p: Progress, r: Outcome, toConsume: nat): nat {
    if MovesUp(Fed(p, r)) then toConsume + r.consumed else toConsume
  }

  lemma BufferKept(start: Decoder, stream: seq<Byte>, pos: nat, p: Progress, toConsume: nat, r: Outcome)
    requires toConsume <= p.looked && Track(start, stream, pos + toConsume, Fed(p.(looked := p.looked - toConsume), r))
    requires p.outputConsumed == 0 || p.outputConsumed < |p.bytes + r.output|
    ensures Decoding(start, stream, pos, Fed(p, r), toConsume)
  {
    assert Fed(p, r).(looked := p.looked + r.consumed - toConsume) == Fed(p.(looked := p.looked - toConsume), r);
  }

  lemma BufferCleared(start: Decoder, stream: seq<Byte>, pos: nat, p: Progress, q: Progress, r: Outcome)
    requires q.outputConsumed >= |q.bytes| && Track(start, stream, pos + p.looked + r.consumed, Cleared(q))
    requires q == Fed(p, r).(looked := q.looked) && q.outputConsumed != 0
    ensures Decoding(start, stream, pos, AfterBuffer(p, r), p.looked + r.consumed)
  {
    assert AfterBuffer(p, r).(looked := 0) == Cleared(q);
  }

  lemma BufferFed(start: Decoder, stream: seq<Byte>, pos: nat, p: Progress, toConsume: nat, r: Outcome)
    requires toConsume <= p.looked && Track(start, stream, pos + toConsume, Fed(p.(looked := p.looked - toConsume), r))
    requires toConsume < p.looked ==> p.outputConsumed == 0 || p.outputConsumed < |p.bytes|
    ensures Decoding(start, stream, pos, AfterBuffer(p, r), Droppable(p, r, toConsume))
  {
    var q := Fed(p.(looked := p.looked - toConsume), r);
    if q.outputConsumed != 0 && q.outputConsumed >= |q.bytes| {
      Clear(start, stream, pos + toConsume, q);
      BufferCleared(start, stream, pos, p, q, r);
    } else {
      BufferKept(start, stream, pos, p, toConsume, r);
    }
  }

  lemma BufferDecoded(start: Decoder, stream: seq<Byte>, pos: nat, p: Progress, toConsume: nat, buffer: seq<Byte>, r: Outcome)
    requires Decoding(start, stream, pos, p, toConsume) && !p.done
    requires buffer <= stream[pos + p.looked..] && Decodes(p.latest, buffer, r) && r.verdict != Invalid
    ensures r.verdict == More ==> r.consumed == |buffer|
    ensures Decoding(start, stream, pos, AfterBuffer(p, r), Droppable(p, r, toConsume))
  {
    Feed(start, stream, pos + toConsume, p.(looked := p.looked - toConsume), buffer, r);
    BufferFed(start, stream, pos, p, toConsume, r);
  }

  /** All that starting over from the checkpoint takes. */
  ghost predicate Restartable(start: Decoder, stream: seq<Byte>, pos: nat, p: Progress) {
    && Valid(start) && Valid(p.checkpoint) && !p.done
    && Reaches(start, stream, pos, p.before) && p.before.verdict == More && p.before.decoder == p.checkpoint
    && p.delivered == |p.before.output| + p.outputConsumed
  }

  lemma TrackRestartable(start: Decoder, stream: seq<Byte>, pos: nat, p: Progress)
    requires Track(start, stream, pos, p) && !p.done
    ensures Restartable(start, stream, pos, p)
  {
  }

  /** Start over from the checkpoint. */
  function Restarted(p: Progress): Progress {
    Progress(0, p.checkpoint, p.checkpoint, false, [], p.outputConsumed, p.delivered, p.before, p.before)
  }

  lemma Restart(start: Decoder, stream: seq<Byte>, pos: nat, p: Progress)
    requires Restartable(start, stream, pos, p)
    ensures Track(start, stream, pos, Restarted(p))
  {
    FromHere(start, stream, pos, p.before);
  }

  /** What the fetched bytes decode to from the checkpoint, seen from the beginning. */
  lemma Again(start: Decoder, seen: seq<Byte>, pos: nat, p: Progress, fetched: seq<Byte>, full: Outcome, o: Outcome)
    requires Restartable(start, seen, pos, p) && fetched == seen[pos..] && Decodes(start, seen, full) && Decodes(p.checkpoint, fetched, o)
    ensures full == Add(p.before, o) && p.before.consumed == pos
  {
    FromHere(start, seen, pos, p.before);
    DecodesIsRun(start, seen, full);
    DecodesIsRun(p.checkpoint, fetched, o);
  }

  /** Having decoded all that was fetched, or come to the end. */
  lemma NowIsAll(start: Decoder, seen: seq<Byte>, n: nat, now: Outcome, full: Outcome)
    requires Reaches(start, seen, n, now) && (now.verdict == Done || n == |seen|) && Decodes(start, seen, full)
    ensures now == full
  {
    FromHere(start, seen, n, now);
    DecodesIsRun(start, seen, full);
    assert now.output + [] == now.output;
  }

  /** The fault met in what was fetched is that of the whole stream. */
  lemma FaultOfWhole(start: Decoder, stream: seq<Byte>, m: nat, fault: Outcome)
    requires m <= |stream| && Decodes(start, stream[..m], fault) && fault.verdict == Invalid
    ensures Decodes(start, stream, fault)
  {
    DecodesIsRun(start, stream[..m], fault);
    assert stream == stream[..m] + stream[m..];
    RunSplit(start, stream[..m], stream[m..]);
    RunDecodes(start, stream);
  }

  /** Decoding past where it had looked before covers everything the client has consumed, and goes further. */
  lemma Enough(start: Decoder, stream: seq<Byte>, pos: nat, p: Progress, fetched: seq<Byte>, o: Outcome)
    requires Track(start, stream, pos, p) && !p.done && p.outputConsumed <= |p.bytes|
    requires fetched <= stream[pos..] && p.looked < |fetched| && Decodes(p.checkpoint, fetched, o)
    ensures p.outputConsumed <= |o.output| && (o.verdict != Invalid ==> p.looked < o.consumed)
  {
    FromEarlier(start, stream, pos, p.before, pos + p.looked, p.now);
    FromHere(start, stream, pos, p.before);
    var seen, rest := stream[pos..pos + p.looked], fetched[p.looked..];
    assert fetched == seen + rest;
    GoesFurther(p.checkpoint, fetched, o, seen, rest, Run(p.checkpoint, seen));
  }

  lemma GoesFurther(d: Decoder, fetched: seq<Byte>, o: Outcome, seen: seq<Byte>, rest: seq<Byte>, first: Outcome)
    requires Decodes(d, fetched, o) && fetched == seen + rest && first == Run(d, seen) && first.verdict == More && rest != []
    ensures |first.output| <= |o.output| && (o.verdict != Invalid ==> |seen| < o.consumed)
  {
    DecodesIsRun(d, fetched, o);
    RunSplit(d, seen, rest);
    RunConsumed(d, seen);
    RunConsumed(first.decoder, rest);
    if o.verdict != Invalid { RunPrefix(first.decoder, rest); }
  }

  /** So does coming to the fault again. */
  lemma FaultAgain(start: Decoder, stream: seq<Byte>, pos: nat, p: Progress, fault: Outcome, fetched: seq<Byte>, o: Outcome)
    requires Restartable(start, stream, pos, p) && Decodes(start, stream, fault) && p.delivered <= |fault.output|
    requires fetched <= stream[pos..] && Decodes(p.checkpoint, fetched, o) && o.verdict == Invalid
    ensures p.outputConsumed <= |o.output|
  {
    WholeInvalid(start, stream, pos, p.before, fetched, o, fault);
  }

  lemma FlattenAt(buffers: seq<seq<Byte>>, i: nat, stream: seq<Byte>)
    requires i < |buffers| && Flatten(buffers) <= stream
    ensures |Flatten(buffers[..i])| <= |stream| && buffers[i] <= stream[|Flatten(buffers[..i])|..]
    ensures Flatten(buffers[..i + 1]) == Flatten(buffers[..i]) + buffers[i]
  {
    assert buffers == buffers[..i] + buffers[i..];
    FlattenConcat(buffers[..i], buffers[i..]);
    assert Flatten(buffers[i..]) == buffers[i] + Flatten(buffers[i..][1..]);
    assert buffers[..i + 1] == buffers[..i] + [buffers[i]];
    FlattenSnoc(buffers[..i], buffers[i]);
  }

  /** The checkpoint and what is consumed from there have stayed. */
  predicate Unmoved(p: Progress, q: Progress) {
    q.checkpoint == p.checkpoint && q.outputConsumed == p.outputConsumed && q.before == p.before
  }

  /** What is left when a buffer turns out to be invalid: all of the valid output is there, and the decoder is at the fault. */
  ghost predicate AtFault(full: Outcome, pos: nat, p: Progress) {
    && full.verdict == Invalid && Valid(p.latest) && p.latest == full.decoder && pos + p.looked <= full.consumed && !p.done
    && p.delivered + |p.bytes| == |full.output| + p.outputConsumed
    && (p.delivered <= |full.output| ==> p.bytes[p.outputConsumed..] == full.output[p.delivered..])
  }

  lemma FaultTaken(full: Outcome, pos: nat, p: Progress, count: nat)
    requires AtFault(full, pos, p) && p.delivered + count <= |full.output|
    ensures AtFault(full, pos, Taken(p, count))
  {
    assert p.bytes[p.outputConsumed + count..] == p.bytes[p.outputConsumed..][count..];
    assert full.output[p.delivered + count..] == full.output[p.delivered..][count..];
  }

  /** An invalid buffer has been decoded as far as it goes. */
  function Spoilt(p: Progress, r: Outcome): Progress { p.(latest := r.decoder, bytes := p.bytes + r.output) }

  lemma BufferInvalid(start: Decoder, stream: seq<Byte>, full: Outcome, pos: nat, p: Progress, toConsume: nat, buffer: seq<Byte>, r: Outcome)
    requires Decoding(start, stream, pos, p, toConsume) && !p.done && Decodes(start, stream, full)
    requires buffer <= stream[pos + p.looked..] && Decodes(p.latest, buffer, r) && r.verdict == Invalid
    ensures AtFault(full, pos, Spoilt(p, r))
  {
    assert pos + toConsume + (p.looked - toConsume) == pos + p.looked;
    WholeInvalid(start, stream, pos + p.looked, p.now, buffer, r, full);
    DecodesIsRun(p.latest, buffer, r);
    RunValid(p.latest, buffer);
    FaultBytes(p.before.output, p.bytes, r.output, p.outputConsumed, p.delivered);
  }

  lemma FaultBytes(base: seq<Byte>, bytes: seq<Byte>, more: seq<Byte>, outputConsumed: nat, delivered: nat)
    requires delivered == |base| + outputConsumed
    ensures delivered <= |base + bytes + more| ==> (bytes + more)[outputConsumed..] == (base + bytes + more)[delivered..]
  {
  }

  /** The next fetched buffer follows what has been looked at; decoding it goes on or comes to the fault. */
  lemma NextBuffer(start: Decoder, stream: seq<Byte>, full: Outcome, pos: nat, p: Progress, toConsume: nat, buffers: seq<seq<Byte>>, i: nat, r: Outcome)
    requires Decoding(start, stream, pos, p, toConsume) && !p.done && i < |buffers| && Decodes(start, stream, full)
    requires pos <= |stream| && Flatten(buffers) <= stream[pos..] && p.looked == |Flatten(buffers[..i])| && Decodes(p.latest, buffers[i], r)
    ensures Valid(p.latest) && pos + toConsume <= |stream|
    ensures if r.verdict == Invalid then AtFault(full, pos, Spoilt(p, r)) && Restartable(start, stream, pos + toConsume, Spoilt(p, r))
            else && Decoding(start, stream, pos, AfterBuffer(p, r), Droppable(p, r, toConsume))
                 && (r.verdict == More ==> r.consumed == |buffers[i]|)
    ensures |Flatten(buffers[..i + 1])| == |Flatten(buffers[..i])| + |buffers[i]|
  {
    FlattenAt(buffers, i, stream[pos..]);
    assert stream[pos..][p.looked..] == stream[pos + p.looked..];
    if r.verdict == Invalid {
      BufferInvalid(start, stream, full, pos, p, toConsume, buffers[i], r);
      TrackRestartable(start, stream, pos + toConsume, p.(looked := p.looked - toConsume));
    } else {
      BufferDecoded(start, stream, pos, p, toConsume, buffers[i], r);
    }
  }

  /** The first `i` of the fetched buffers have been decoded, `toConsume` of their bytes ready to be dropped. */
  ghost predicate UpTo(start: Decoder, stream: seq<Byte>, pos: nat, from: Progress, buffers: seq<seq<Byte>>, i: nat, p: Progress, toConsume: nat) {
    && i <= |buffers| && Decoding(start, stream, pos, p, toConsume)
    && (!p.done ==> p.looked == |Flatten(buffers[..i])|)
    && Stays(from, p, toConsume, i == 0)
  }

  /** Unless something was consumed already, the checkpoint stays. */
  ghost predicate Stays(from: Progress, p: Progress, toConsume: nat, none: bool) {
    p.delivered == from.delivered && (from.outputConsumed == 0 || none ==> toConsume == 0 && Unmoved(from, p))
  }

  /** In the buffer after those is the fault. */
  ghost predicate Faulty(start: Decoder, stream: seq<Byte>, full: Outcome, pos: nat, from: Progress, p: Progress, toConsume: nat, only: bool) {
    && toConsume <= p.looked && pos + p.looked <= |stream| && AtFault(full, pos, p) && Restartable(start, stream, pos + toConsume, p)
    && Stays(from, p, toConsume, only) && (only ==> p.looked == 0)
  }

  lemma NextStays(from: Progress, p: Progress, r: Outcome, toConsume: nat, none: bool)
    requires Stays(from, p, toConsume, none)
    ensures Stays(from, AfterBuffer(p, r), Droppable(p, r, toConsume), false) && Stays(from, Spoilt(p, r), toConsume, none)
  {
  }

  lemma NextUpTo(start: Decoder, stream: seq<Byte>, full: Outcome, pos: nat, from: Progress, buffers: seq<seq<Byte>>, i: nat, p: Progress, toConsume: nat, r: Outcome)
    requires UpTo(start, stream, pos, from, buffers, i, p, toConsume) && !p.done && i < |buffers| && Decodes(p.latest, buffers[i], r)
    requires pos <= |stream| && Flatten(buffers) <= stream[pos..] && Decodes(start, stream, full)
    ensures if r.verdict == Invalid then Faulty(start, stream, full, pos, from, Spoilt(p, r), toConsume, |buffers| == 1)
            else UpTo(start, stream, pos, from, buffers, i + 1, AfterBuffer(p, r), Droppable(p, r, toConsume))
  {
    NextBuffer(start, stream, full, pos, p, toConsume, buffers, i, r);
    NextStays(from, p, r, toConsume, i == 0);
  }

  lemma FirstUpTo(start: Decoder, stream: seq<Byte>, pos: nat, from: Progress, buffers: seq<seq<Byte>>)
    requires Restartable(start, stream, pos, from)
    ensures UpTo(start, stream, pos, from, buffers, 0, Restarted(from), 0)
  {
    Restart(start, stream, pos, from);
    assert Restarted(from).(looked := 0) == Restarted(from);
  }

  /** The fetch has come to its end: the bytes that can go are gone. */
  function Finished(p: Progress, toConsume: nat): Progress
    requires toConsume <= p.looked
  {
    p.(looked := p.looked - toConsume)
  }

  lemma FinishedOk(start: Decoder, stream: seq<Byte>, pos: nat, from: Progress, p: Progress, toConsume: nat)
    requires Decoding(start, stream, pos, p, toConsume) && Stays(from, p, toConsume, false)
    ensures Track(start, stream, pos + toConsume, Finished(p, toConsume)) && Stays(from, Finished(p, toConsume), toConsume, false)
  {
  }

  lemma FinishedFault(start: Decoder, stream: seq<Byte>, full: Outcome, pos: nat, from: Progress, p: Progress, toConsume: nat, only: bool)
    requires Faulty(start, stream, full, pos, from, p, toConsume, only)
    ensures var q := Finished(p, toConsume);
            && AtFault(full, pos + toConsume, q) && Restartable(start, stream, pos + toConsume, q)
            && Stays(from, q, toConsume, only) && (only ==> q.looked == 0)
  {
  }

  /** All buffers, or those up to the end of the body, have been decoded. */
  lemma AllDecoded(start: Decoder, stream: seq<Byte>, pos: nat, from: Progress, buffers: seq<seq<Byte>>, i: nat, p: Progress, toConsume: nat)
    requires UpTo(start, stream, pos, from, buffers, i, p, toConsume) && (p.done || i == |buffers|)
    ensures Decoding(start, stream, pos, p, toConsume) && Stays(from, p, toConsume, false) && pos + p.looked <= |stream|
    ensures !p.done ==> p.looked == |Flatten(buffers)|
  {
    assert i == |buffers| ==> buffers[..i] == buffers;
  }

  /** After a fault was reported: the valid output before it is exposed to its end, and the decoder stands at the fault. */
  ghost predicate StuckAt(start: Decoder, stream: seq<Byte>, pos: nat, p: Progress, fault: Outcome) {
    && Decodes(start, stream, fault) && p.delivered <= |fault.output| && AtFault(fault, pos, p)
    && Restartable(start, stream, pos, p)
  }

  /** What decoding an answer of the source has come to: `o` is its outcome from the checkpoint of `p`. */
  ghost predicate Answered(p: Progress, q: Progress, o: Outcome, moved: int, one: bool, ok: bool) {
    && |q.bytes| - q.outputConsumed == |o.output| - p.outputConsumed && (ok <==> o.verdict != Invalid)
    && (ok ==> moved + q.looked == o.consumed && (q.done <==> o.verdict == Done))
    && (p.outputConsumed == 0 || (!ok && one) ==> moved == 0 && Unmoved(p, q))
    && (!ok && one ==> q.looked == 0)
  }

  /** `seen` is the stream up to the end of what was fetched at `pos`. */
  ghost predicate Seen(stream: seq<Byte>, pos: nat, fetched: seq<Byte>, seen: seq<Byte>) {
    pos + |fetched| <= |stream| && seen == stream[..pos + |fetched|] && fetched == seen[pos..]
  }

  lemma SeenBegins(stream: seq<Byte>, pos: nat, fetched: seq<Byte>, seen: seq<Byte>, n: nat)
    requires Seen(stream, pos, fetched, seen) && n <= |seen|
    ensures Begins(stream, seen, n) && Begins(seen, stream, n)
  {
    assert seen[..n] == stream[..n];
  }

  lemma RestartSeen(start: Decoder, stream: seq<Byte>, pos: nat, p: Progress, fetched: seq<Byte>, seen: seq<Byte>)
    requires Restartable(start, stream, pos, p) && Seen(stream, pos, fetched, seen)
    ensures Restartable(start, seen, pos, p)
  {
    SeenBegins(stream, pos, fetched, seen, pos);
    SameReaches(start, stream, seen, pos, p.before);
  }

  lemma TrackSeen(start: Decoder, stream: seq<Byte>, pos: nat, fetched: seq<Byte>, seen: seq<Byte>, n: nat, q: Progress)
    requires Seen(stream, pos, fetched, seen) && Track(start, seen, n, q)
    ensures Track(start, stream, n, q)
  {
    SeenBegins(stream, pos, fetched, seen, n);
    SeenBegins(stream, pos, fetched, seen, n + q.looked);
    SameReaches(start, seen, stream, n, q.before);
    SameReaches(start, seen, stream, n + q.looked, q.now);
  }

  /** The counts, once all that was fetched is decoded. */
  lemma CountsOk(p: Progress, q: Progress, o: Outcome, pos: nat, moved: nat, one: bool)
    requires p.delivered == |p.before.output| + p.outputConsumed && p.before.consumed == pos
    requires Between(q) && q.now == Add(p.before, o) && q.now.consumed == pos + moved + q.looked && Stays(p, q, moved, false)
    ensures Answered(p, q, o, moved, one, true)
  {
  }

  lemma FetchedOk(start: Decoder, seen: seq<Byte>, pos: nat, p: Progress, fetched: seq<Byte>, q: Progress, moved: nat, one: bool, full: Outcome, o: Outcome)
    requires Restartable(start, seen, pos, p) && fetched == seen[pos..] && Decodes(start, seen, full) && Decodes(p.checkpoint, fetched, o)
    requires Track(start, seen, pos + moved, q) && (q.done || pos + moved + q.looked == |seen|) && Stays(p, q, moved, false)
    ensures Answered(p, q, o, moved, one, true)
  {
    Again(start, seen, pos, p, fetched, full, o);
    NowIsAll(start, seen, pos + moved + q.looked, q.now, full);
    CountsOk(p, q, o, pos, moved, one);
  }

  lemma CountsAtFault(p: Progress, q: Progress, o: Outcome, full: Outcome, at: nat, moved: nat, one: bool)
    requires p.delivered == |p.before.output| + p.outputConsumed && full == Add(p.before, o) && AtFault(full, at, q)
    requires Stays(p, q, moved, one) && (one ==> q.looked == 0)
    ensures Answered(p, q, o, moved, one, false)
  {
  }

  lemma FetchedFault(start: Decoder, seen: seq<Byte>, pos: nat, p: Progress, fetched: seq<Byte>, q: Progress, moved: nat, one: bool, full: Outcome, o: Outcome)
    requires Restartable(start, seen, pos, p) && fetched == seen[pos..] && Decodes(start, seen, full) && Decodes(p.checkpoint, fetched, o)
    requires AtFault(full, pos + moved, q) && Stays(p, q, moved, one) && (one ==> q.looked == 0)
    ensures Answered(p, q, o, moved, one, false)
  {
    Again(start, seen, pos, p, fetched, full, o);
    CountsAtFault(p, q, o, full, pos + moved, moved, one);
  }

  lemma StuckSeen(start: Decoder, stream: seq<Byte>, pos: nat, fetched: seq<Byte>, seen: seq<Byte>, n: nat, q: Progress, full: Outcome)
    requires Seen(stream, pos, fetched, seen) && Decodes(start, seen, full) && n <= |seen|
    requires AtFault(full, n, q) && Restartable(start, seen, n, q) && q.outputConsumed <= |q.bytes|
    ensures StuckAt(start, stream, n, q, full)
  {
    SeenBegins(stream, pos, fetched, seen, n);
    SameReaches(start, seen, stream, n, q.before);
    FaultOfWhole(start, stream, |seen|, full);
  }

  /** Where starting over with what was fetched has come to, in what is seen of the stream. */
  ghost predicate CameTo(start: Decoder, seen: seq<Byte>, p: Progress, q: Progress, n: nat, moved: nat, one: bool, ok: bool, full: Outcome) {
    || (ok && Track(start, seen, n, q) && (q.done || n + q.looked == |seen|) && Stays(p, q, moved, false))
    || (!ok && AtFault(full, n, q) && Restartable(start, seen, n, q) && n <= |seen| && Stays(p, q, moved, one) && (one ==> q.looked == 0))
  }

  lemma Conclude(start: Decoder, stream: seq<Byte>, pos: nat, p: Progress, fetched: seq<Byte>, seen: seq<Byte>,
                 q: Progress, moved: nat, one: bool, ok: bool, full: Outcome, o: Outcome)
    requires Seen(stream, pos, fetched, seen) && Restartable(start, seen, pos, p) && Decodes(start, seen, full) && Decodes(p.checkpoint, fetched, o)
    requires CameTo(start, seen, p, q, pos + moved, moved, one, ok, full)
    ensures Answered(p, q, o, moved, one, ok)
    ensures ok ==> Track(start, stream, pos + moved, q)
    ensures !ok && q.outputConsumed <= |q.bytes| ==> StuckAt(start, stream, pos + moved, q, full)
  {
    if ok {
      TrackSeen(start, stream, pos, fetched, seen, pos + moved, q);
      FetchedOk(start, seen, pos, p, fetched, q, moved, one, full, o);
    } else {
      FetchedFault(start, seen, pos, p, fetched, q, moved, one, full, o);
      if q.outputConsumed <= |q.bytes| { StuckSeen(start, stream, pos, fetched, seen, pos + moved, q, full); }
    }
  }

  /** What a tracked state says about the whole: position, bytes on offer, and what may still come. */
  lemma Offer(start: Decoder, stream: seq<Byte>, pos: nat, p: Progress, full: Outcome)
    requires Track(start, stream, pos, p) && p.outputConsumed <= |p.bytes| && Decodes(start, stream, full)
    ensures full.verdict == Done ==> pos + p.looked <= full.consumed
    ensures var size := |p.bytes| - p.outputConsumed;
            && p.delivered + size <= |full.output|
            && p.bytes[p.outputConsumed..] == full.output[p.delivered..p.delivered + size]
            && (p.done ==> full.verdict == Done && p.delivered + size == |full.output|)
            && (!p.done ==> |full.output| + (if full.verdict == Done then 1 else 0) <= p.delivered + size + |stream| - (pos + p.looked))
  {
    Whole(start, stream, pos + p.looked, p.now, full);
    if !p.done { RestBound(start, stream, pos + p.looked, p.now, full); }
    OfferedBytes(p, full.output);
  }

  lemma OfferedBytes(p: Progress, output: seq<Byte>)
    requires Between(p) && p.outputConsumed <= |p.bytes| && p.now.output <= output
    ensures var size := |p.bytes| - p.outputConsumed;
            && p.delivered + size == |p.now.output| && p.bytes[p.outputConsumed..] == output[p.delivered..p.delivered + size]
  {
    var size := |p.bytes| - p.outputConsumed;
    if size > 0 {
      assert p.now.output[p.delivered..] == p.bytes[p.outputConsumed..];
      assert output[p.delivered..p.delivered + size] == output[..|p.now.output|][p.delivered..];
    }
  }

  lemma OutcomeOf(start: Decoder, seen: seq<Byte>) returns (full: Outcome)
    ensures Decodes(start, seen, full)
  {
    full := Run(start, seen);
    RunDecodes(start, seen);
  }

  lemma EitherWay(start: Decoder, seen: seq<Byte>, full: Outcome, at: nat, from: Progress, p: Progress, toConsume: nat, only: bool, ok: bool)
    requires ok ==> Decoding(start, seen, at, p, toConsume) && Stays(from, p, toConsume, false) && (p.done || at + p.looked == |seen|)
    requires !ok ==> Faulty(start, seen, full, at, from, p, toConsume, only)
    ensures toConsume <= p.looked && at + p.looked <= |seen|
    ensures CameTo(start, seen, from, Finished(p, toConsume), at + toConsume, toConsume, only, ok, full)
  {
    if ok {
      FinishedOk(start, seen, at, from, p, toConsume);
    } else {
      FinishedFault(start, seen, full, at, from, p, toConsume, only);
    }
  }

  lemma Prepare(start: Decoder, stream: seq<Byte>, at: nat, p: Progress, fetched: seq<Byte>, seen: seq<Byte>, full: Outcome)
    requires Restartable(start, stream, at, p) && at <= |stream| && fetched <= stream[at..] && seen == stream[..at + |fetched|] && Decodes(start, seen, full)
    ensures Seen(stream, at, fetched, seen) && Restartable(start, seen, at, p)
  {
    assert fetched == seen[at..];
    RestartSeen(start, stream, at, p, fetched, seen);
  }

  // ---------------------------------------------------------------- bodies and snapshots

  /** A body: where in the source it begins, in which state its decoding began, and what decoding all of it at once comes to. */
  datatype Body = Body(origin: nat, start: Decoder, bytes: seq<Byte>, full: Outcome)

  ghost predicate BodyOf(b: Body, stream: seq<Byte>) {
    b.origin <= |stream| && b.bytes == stream[b.origin..] && Decodes(b.start, b.bytes, b.full)
  }

  /** What decoding all of a body at once comes to. */
  lemma FullIsRun(b: Body, stream: seq<Byte>)
    requires BodyOf(b, stream)
    ensures b.full == Run(b.start, stream[b.origin..])
  {
    DecodesIsRun(b.start, b.bytes, b.full);
  }

  predicate IsNew(b: Body, pos: nat, d: Decoder) { b.origin == pos && b.start == d }

  lemma NewBody(stream: seq<Byte>, pos: nat, d: Decoder) returns (b: Body)
    requires pos <= |stream|
    ensures BodyOf(b, stream) && IsNew(b, pos, d)
  {
    b := Body(pos, d, stream[pos..], Run(d, stream[pos..]));
    RunDecodes(d, stream[pos..]);
  }

  /** The object and its source at a time: `failed` while the fault that a fetch has reported is still ahead. */
  datatype Snapshot = Snapshot(stream: seq<Byte>, pos: nat, calls: nat, body: Body, p: Progress, failed: bool) {
    /** As an integer: when it is negative, `size` wraps around to more than any request. */
    function Size(): int { |p.bytes| - p.outputConsumed }

    function At(): int { pos - body.origin }
  }

  /** Source position, fields and outcomes belong together; a fault may have been reported. */
  ghost predicate InStep(v: Snapshot) {
    || (v.failed && Placed(v) && StuckAt(v.body.start, v.body.bytes, v.At(), v.p, v.body.full))
    || (!v.failed && Placed(v) && Track(v.body.start, v.body.bytes, v.At(), v.p))
  }

  ghost predicate Placed(v: Snapshot) {
    BodyOf(v.body, v.stream) && v.body.origin <= v.pos && v.pos + v.p.looked <= |v.stream| && v.p.outputConsumed <= |v.p.bytes|
  }

  lemma NewInStep(v: Snapshot, d: Decoder)
    requires BodyOf(v.body, v.stream) && IsNew(v.body, v.pos, d) && v.p == FreshProgress(d) && !v.failed && Valid(d)
    ensures InStep(v)
  {
    FreshTrack(d, v.body.bytes);
  }

  /** Everything decoded was consumed and is dropped.  After a fault a new body begins, with the faulty buffer, in the state at the fault. */
  ghost predicate Released(v: Snapshot, w: Snapshot) {
    && InStep(w) && w.pos == v.pos + v.p.looked && w.calls == v.calls && w.p.done == v.p.done && w.p.looked == 0 && w.p.bytes == []
    && w.p.outputConsumed == 0 && !w.failed && w.stream == v.stream
    && (!v.failed ==> w.body == v.body && w.p.delivered == v.p.delivered)
    && (v.failed ==> IsNew(w.body, w.pos, v.body.full.decoder) && w.p == FreshProgress(w.body.start))
  }

  lemma ReleasedClear(v: Snapshot, w: Snapshot)
    requires InStep(v) && !v.failed && v.Size() == 0 && w == v.(pos := v.pos + v.p.looked, p := Cleared(v.p))
    ensures Released(v, w)
  {
    Clear(v.body.start, v.body.bytes, v.At(), v.p);
  }

  lemma ReleasedAnew(v: Snapshot, w: Snapshot)
    requires InStep(v) && v.failed && BodyOf(w.body, v.stream) && IsNew(w.body, v.pos + v.p.looked, v.p.latest)
    requires w == v.(pos := v.pos + v.p.looked, body := w.body, p := FreshProgress(v.p.latest), failed := false)
    ensures Released(v, w)
  {
    NewInStep(w, v.p.latest);
  }

  function Took(v: Snapshot, count: nat): Snapshot { v.(p := Taken(v.p, count)) }

  lemma TookInStep(v: Snapshot, count: nat)
    requires InStep(v) && count <= v.Size()
    ensures InStep(Took(v, count))
  {
    if v.failed { FaultTaken(v.body.full, v.At(), v.p, count); } else { TrackTaken(v.body.start, v.body.bytes, v.At(), v.p, count); }
  }

  /** Decoding an answer of the source that goes further than before. */
  lemma FetchInStep(v: Snapshot, fetched: seq<Byte>, o: Outcome)
    requires InStep(v) && !v.p.done && fetched <= v.stream[v.pos..] && v.p.looked < |fetched| && Decodes(v.p.checkpoint, fetched, o)
    ensures Restartable(v.body.start, v.body.bytes, v.At(), v.p) && fetched <= v.body.bytes[v.At()..] && Worthwhile(v, o)
  {
    var b, at := v.body, v.At();
    assert b.bytes[at..] == v.stream[v.pos..];
    if v.failed {
      if o.verdict == Invalid { FaultAgain(b.start, b.bytes, at, v.p, b.full, fetched, o); }
    } else {
      TrackRestartable(b.start, b.bytes, at, v.p);
      Enough(b.start, b.bytes, at, v.p, fetched, o);
    }
  }

  /** The fault of a body is always the same. */
  lemma OneFault(b: Body, stream: seq<Byte>, n: nat, p: Progress, full: Outcome)
    requires BodyOf(b, stream) && StuckAt(b.start, b.bytes, n, p, full)
    ensures full == b.full
  {
    DecodesIsRun(b.start, b.bytes, b.full);
    DecodesIsRun(b.start, b.bytes, full);
  }

  /** Decoding an answer of the source has taken the object from `v` to `w`. */
  ghost predicate Redecoded(v: Snapshot, w: Snapshot, o: Outcome, one: bool, ok: bool) {
    && Answered(v.p, w.p, o, w.pos - v.pos, one, ok)
    && w.stream == v.stream && w.calls == v.calls && w.body == v.body && w.p.delivered == v.p.delivered && w.failed == !ok
    && (w.Size() >= 0 ==> InStep(w)) && (w.Size() < 0 ==> ok && v.failed)
    && (ok && !v.failed ==> v.pos + v.p.looked < w.pos + w.p.looked)
  }

  /** Decoding what was fetched will give at least what was consumed, unless a fault was reported and is not met again; and goes further. */
  ghost predicate Worthwhile(v: Snapshot, o: Outcome) {
    && (!v.failed || o.verdict == Invalid ==> v.p.outputConsumed <= |o.output|)
    && (!v.failed && o.verdict != Invalid ==> v.p.looked < o.consumed)
  }

  lemma BeforeFetch(v: Snapshot, fetched: seq<Byte>, o: Outcome) returns (seen: seq<Byte>, full: Outcome)
    requires InStep(v) && !v.p.done && fetched <= v.stream[v.pos..] && v.p.looked < |fetched| && Decodes(v.p.checkpoint, fetched, o)
    ensures Worthwhile(v, o) && BodyOf(v.body, v.stream) && v.body.origin <= v.pos <= |v.stream|
    ensures Seen(v.body.bytes, v.At(), fetched, seen) && Restartable(v.body.start, seen, v.At(), v.p) && Decodes(v.body.start, seen, full)
  {
    FetchInStep(v, fetched, o);
    seen := v.body.bytes[..v.At() + |fetched|];
    full := OutcomeOf(v.body.start, seen);
    Prepare(v.body.start, v.body.bytes, v.At(), v.p, fetched, seen, full);
  }

  lemma AfterFetch(v: Snapshot, w: Snapshot, fetched: seq<Byte>, seen: seq<Byte>, moved: nat, one: bool, ok: bool, full: Outcome, o: Outcome)
    requires Worthwhile(v, o) && BodyOf(v.body, v.stream) && v.body.origin <= v.pos && Decodes(v.p.checkpoint, fetched, o)
    requires w == v.(pos := v.pos + moved, p := w.p, failed := !ok) && w.pos + w.p.looked <= |v.stream|
    requires Seen(v.body.bytes, v.At(), fetched, seen) && Restartable(v.body.start, seen, v.At(), v.p) && Decodes(v.body.start, seen, full)
    requires CameTo(v.body.start, seen, v.p, w.p, v.At() + moved, moved, one, ok, full)
    ensures Redecoded(v, w, o, one, ok)
  {
    Conclude(v.body.start, v.body.bytes, v.At(), v.p, fetched, seen, w.p, moved, one, ok, full, o);
    if !ok && w.Size() >= 0 { OneFault(v.body, v.stream, v.At() + moved, w.p, full); }
  }

  lemma AnotherCall(v: Snapshot, w: Snapshot)
    requires InStep(v) && w == v.(calls := v.calls + 1)
    ensures InStep(w)
  {
  }

  // ---------------------------------------------------------------- what is on offer

  /** The bytes on offer are the next ones of decoding the body at once, and no byte past its end was looked at. */
  ghost predicate OnOffer(v: Snapshot) {
    var full, from, to := v.body.full, v.p.delivered, v.p.delivered + v.Size();
    && 0 <= v.Size() && to <= |full.output| && v.p.bytes[v.p.outputConsumed..] == full.output[from..to]
    && (v.p.done ==> full.verdict == Done) && (v.p.done || v.failed ==> to == |full.output|) && (v.failed ==> full.verdict == Invalid)
    && (full.verdict == Done ==> v.pos + v.p.looked <= v.body.origin + full.consumed)
  }

  /** What the body still has to give, its end counted as one. */
  function Remaining(v: Snapshot): int {
    |v.body.full.output| - v.p.delivered + (if v.body.full.verdict == Done then 1 else 0)
  }

  lemma Exposes(v: Snapshot)
    requires InStep(v)
    ensures OnOffer(v)
    ensures !v.p.done ==> Remaining(v) <= v.Size() + |v.stream| - (v.pos + v.p.looked)
  {
    if v.failed {
      assert v.body.full.output[v.p.delivered..] == v.body.full.output[v.p.delivered..|v.body.full.output|];
    } else {
      Offer(v.body.start, v.body.bytes, v.At(), v.p, v.body.full);
    }
  }

  // ---------------------------------------------------------------- what a fetch promises

  datatype Fetched = Buffers(buffers: seq<seq<Byte>>) | NoMore | Broken

  /** What a source may answer to a request for `n` bytes: at least as many, cut up in any way, or that it cannot. */
  ghost predicate Honest(stream: seq<Byte>, pos: nat, n: nat, a: Fetched) {
    && pos <= |stream|
    && (a.Buffers? ==> Flatten(a.buffers) <= stream[pos..] && n <= |Flatten(a.buffers)|)
    && (a.NoMore? ==> |stream| - pos < n)
  }

  datatype FetchResult =
    | Data(buffers: seq<seq<Byte>>)
    | EndOfStream
    | ClosedBeforeEndOfStream
    | SourceError
    | InvalidArgument
    /** Not a result: a check fails and ends the program. */
    | CheckFailed

  /** How many bytes a request for `minCount` makes the decoder ask for. */
  function Asked(v: Snapshot, minCount: nat): nat {
    if v.Size() < minCount then v.p.looked + (minCount - v.Size()) else 0
  }

  /** What a source is going to answer to that, and what the answer decodes to from the checkpoint. */
  function AnswerTo(answer: (nat, nat, nat) -> Fetched, v: Snapshot, minCount: nat): Fetched {
    answer(v.calls, v.pos, Asked(v, minCount))
  }

  function DecodedAgain(v: Snapshot, a: Fetched): Outcome {
    if a.Buffers? then Run(v.p.checkpoint, Flatten(a.buffers)) else Begun(v.p.checkpoint)
  }

  /** The source has fewer. */
  predicate Short(v: Snapshot, minCount: nat) { |v.stream| - v.pos < v.p.looked + (minCount - v.Size()) }

  /** Then the body, whether complete or not, has fewer than `minCount` bytes left, and if complete one fewer still. */
  lemma ShortMeans(v: Snapshot, minCount: nat)
    requires InStep(v) && !v.p.done && Short(v, minCount)
    ensures Remaining(v) < minCount
  {
    Exposes(v);
  }

  /** A source that is short of a single byte has been decoded to its end: the body is truncated. */
  lemma ShortOfOne(v: Snapshot)
    requires InStep(v) && !v.failed && !v.p.done && Short(v, 1)
    ensures v.body.full.verdict == More
  {
    NowIsAll(v.body.start, v.body.bytes, v.At() + v.p.looked, v.p.now, v.body.full);
  }

  /** The source is asked, and answers with bytes. */
  predicate Fetches(v: Snapshot, minCount: nat, a: Fetched) { 0 <= v.Size() < minCount && !v.p.done && a.Buffers? }

  /** They decode, from the checkpoint, to less than was consumed before, so that `size` wraps around. */
  predicate Wraps(v: Snapshot, minCount: nat, a: Fetched, o: Outcome) { Fetches(v, minCount, a) && |o.output| < v.p.outputConsumed }

  /** What they decode to settles what the request comes to. */
  predicate Settles(v: Snapshot, minCount: nat, a: Fetched, o: Outcome) {
    && Fetches(v, minCount, a)
    && (o.verdict == Invalid || |o.output| < v.p.outputConsumed || v.p.outputConsumed + minCount <= |o.output|)
  }

  /** After a fault with nothing on offer, a source at its end makes the object start over. */
  predicate Renews(v: Snapshot, minCount: nat, a: Fetched) { v.failed && v.Size() == 0 && 0 < minCount && a.NoMore? }

  /** The same body goes on; or it begins anew. */
  ghost predicate Continues(v: Snapshot, w: Snapshot, anew: bool) {
    if anew then !w.failed && IsNew(w.body, v.pos + v.p.looked, v.body.full.decoder) && w.p.delivered == 0
    else w.body == v.body && w.p.delivered == v.p.delivered
  }

  /**
    What a request for `minCount` bytes in `v` comes to, with `a` the first answer of the source and `o`
    what that decodes to from the checkpoint.
   */
  ghost predicate Promise(v: Snapshot, w: Snapshot, minCount: nat, a: Fetched, o: Outcome, r: FetchResult) {
    // A check fails exactly if decoding again gives less than was consumed; only after a fault.
    && (r.CheckFailed? <==> Wraps(v, minCount, a, o)) && (r.CheckFailed? ==> v.failed)
    // Otherwise position, fields and outcomes still belong together.
    && (!r.CheckFailed? ==> InStep(w) && OnOffer(w)) && Continues(v, w, Renews(v, minCount, a))
    // Data is the next stretch of the body.
    && (r.Data? ==> minCount <= w.Size() && w.p.delivered + w.Size() <= |w.body.full.output|
                    && Flatten(r.buffers) == w.body.full.output[w.p.delivered..w.p.delivered + w.Size()])
    && (minCount <= v.Size() ==> r.Data? && w == v)
    // The end means that fewer bytes are left.
    && (r.EndOfStream? ==> w.body.full.verdict == Done && |w.body.full.output| - w.p.delivered < minCount)
    // A fault is reported only if the body has one.
    && (r.InvalidArgument? ==> w.failed && w.body.full.verdict == Invalid)
    && (w.failed && !r.InvalidArgument? ==> v.failed && w.p == v.p && w.pos == v.pos)
    // Closed means, and is reported exactly if, the source is short; then fewer bytes are left.
    && (r.ClosedBeforeEndOfStream? <==> !(r.SourceError? || r.InvalidArgument? || r.CheckFailed?) && !w.p.done && Short(w, minCount))
    && (r.ClosedBeforeEndOfStream? ==> Remaining(w) < minCount)
    && (v.Size() < minCount && !v.p.done && Short(v, minCount) ==> r.ClosedBeforeEndOfStream? || r.SourceError?)
    // An answer that settles the request is the only one.
    && (Settles(v, minCount, a, o) ==>
          && Answered(v.p, w.p, o, w.pos - v.pos, |a.buffers| == 1, !r.InvalidArgument?)
          && (r.Data? || r.InvalidArgument? || r.CheckFailed?) && w.calls == v.calls + 1)
  }

  /** The same for one round of the fetching loop, which has to `stop` or goes on. */
  ghost predicate RoundPromise(v: Snapshot, w: Snapshot, minCount: nat, a: Fetched, o: Outcome, stop: bool, r: FetchResult) {
    || (!v.p.done && Reaction(v.(calls := v.calls + 1), w, minCount, a, o, stop, r))
    || (stop && v.p.done && r.EndOfStream? && AtTheEnd(v, w, minCount))
  }

  /** What the answer of the source leads to. */
  ghost predicate Reaction(v: Snapshot, w: Snapshot, minCount: nat, a: Fetched, o: Outcome, stop: bool, r: FetchResult) {
    || (a.Buffers? && Redecoded(v, w, o, |a.buffers| == 1, !stop) && r.InvalidArgument?)
    || (a.NoMore? && stop && r.ClosedBeforeEndOfStream? && OutOfBytes(v, w, minCount))
    || (a.Broken? && stop && r.SourceError? && InStep(w) && w == v)
  }

  lemma Reacted(v: Snapshot, w: Snapshot, minCount: nat, a: Fetched, o: Outcome, stop: bool, r: FetchResult)
    requires !v.p.done && Reaction(v.(calls := v.calls + 1), w, minCount, a, o, stop, r)
    ensures RoundPromise(v, w, minCount, a, o, stop, r)
  {
  }

  ghost predicate AtTheEnd(v: Snapshot, w: Snapshot, minCount: nat) {
    && InStep(w) && !v.failed && !w.failed && w.p.done && w.Size() == v.Size() < minCount && Continues(v, w, false) && w.calls == v.calls
  }

  ghost predicate OutOfBytes(v: Snapshot, w: Snapshot, minCount: nat) {
    && InStep(w) && !w.p.done && Short(w, minCount) && Continues(v, w, v.failed && v.Size() == 0) && w.calls == v.calls
    && (w.failed ==> v.failed && w.p == v.p && w.pos == v.pos)
  }

  lemma EndReleased(v: Snapshot, w: Snapshot, minCount: nat)
    requires InStep(v) && v.p.done && v.Size() < minCount
    requires if v.Size() == 0 then Released(v, w) else w == v
    ensures AtTheEnd(v, w, minCount)
  {
  }

  lemma ClosedReleased(v: Snapshot, w: Snapshot, minCount: nat)
    requires InStep(v) && !v.p.done && Short(v, minCount)
    requires if v.Size() == 0 then Released(v, w) else w == v
    ensures OutOfBytes(v, w, minCount)
  {
  }

  /** What holds whenever the loop starts another round. */
  ghost predicate Rounds(v: Snapshot, w: Snapshot, minCount: nat, a: Fetched, o: Outcome, first: bool) {
    || (first && w == v)
    || (!first && Fetches(v, minCount, a) && RoundsOn(v, w, minCount, a, o))
  }

  ghost predicate RoundsOn(v: Snapshot, w: Snapshot, minCount: nat, a: Fetched, o: Outcome)
    requires a.Buffers?
  {
    && !w.failed && Continues(v, w, false) && (w.Size() >= 0 ==> InStep(w)) && v.calls < w.calls && w.stream == v.stream
    && (w.Size() < 0 <==> Wraps(v, minCount, a, o)) && (w.Size() < 0 ==> v.failed)
    && (Settles(v, minCount, a, o) ==>
          && (w.Size() < 0 || minCount <= w.Size()) && w.calls == v.calls + 1
          && Answered(v.p, w.p, o, w.pos - v.pos, |a.buffers| == 1, true))
  }

  lemma RoundGoesOn(v: Snapshot, w: Snapshot, x: Snapshot, minCount: nat, a: Fetched, o: Outcome, first: bool, a': Fetched, o': Outcome, r: FetchResult)
    requires InStep(v) && Rounds(v, w, minCount, a, o, first) && 0 <= w.Size() < minCount && (first ==> a' == a && o' == o)
    requires RoundPromise(w, x, minCount, a', o', false, r)
    ensures Rounds(v, x, minCount, a, o, false)
    ensures !x.failed && (w.failed || w.pos + w.p.looked < x.pos + x.p.looked)
  {
  }

  /** The last answer of the source was that it is broken. */
  predicate LastBroken(answer: (nat, nat, nat) -> Fetched, v: Snapshot, w: Snapshot, minCount: nat) {
    v.calls < w.calls && AnswerTo(answer, w.(calls := w.calls - 1), minCount).Broken?
  }

  /** A source error is what the source has answered, not anything the decoder comes to by itself. */
  lemma StopsOnlyIfBroken(answer: (nat, nat, nat) -> Fetched, v: Snapshot, w: Snapshot, x: Snapshot, minCount: nat, a: Fetched, o: Outcome,
                          first: bool, o': Outcome, r: FetchResult)
    requires Rounds(v, w, minCount, a, o, first) && RoundPromise(w, x, minCount, AnswerTo(answer, w, minCount), o', true, r) && r.SourceError?
    ensures LastBroken(answer, v, x, minCount)
  {
    assert x.(calls := x.calls - 1) == w;
  }

  /**
    If the source does not break and the body has no fault, a request is met whenever that many bytes
    are left.
   */
  lemma DataWhenLeft(v: Snapshot, w: Snapshot, minCount: nat, a: Fetched, o: Outcome, r: FetchResult)
    requires Promise(v, w, minCount, a, o, r) && !v.failed && v.body.full.verdict != Invalid && !r.SourceError?
    ensures r.Data? <==> minCount <= |v.body.full.output| - v.p.delivered
  {
  }

  lemma StopsAtEnd(v: Snapshot, w: Snapshot, x: Snapshot, minCount: nat, a: Fetched, o: Outcome, first: bool)
    requires Rounds(v, w, minCount, a, o, first) && 0 <= w.Size() < minCount && AtTheEnd(w, x, minCount) && w.p.done
    requires Honest(v.stream, v.pos, Asked(v, minCount), a)
    ensures Promise(v, x, minCount, a, o, EndOfStream)
  {
    Exposes(x);
  }

  lemma StopsShort(v: Snapshot, w: Snapshot, x: Snapshot, minCount: nat, a: Fetched, o: Outcome, first: bool, a': Fetched)
    requires Rounds(v, w, minCount, a, o, first) && 0 <= w.Size() < minCount && !w.p.done && a'.NoMore? && (first ==> a' == a)
    requires OutOfBytes(w.(calls := w.calls + 1), x, minCount) && Honest(v.stream, v.pos, Asked(v, minCount), a)
    ensures Promise(v, x, minCount, a, o, ClosedBeforeEndOfStream)
  {
    Exposes(x);
    ShortMeans(x, minCount);
  }

  lemma StopsBroken(v: Snapshot, w: Snapshot, x: Snapshot, minCount: nat, a: Fetched, o: Outcome, first: bool, a': Fetched)
    requires Rounds(v, w, minCount, a, o, first) && 0 <= w.Size() < minCount && a'.Broken? && (first ==> a' == a)
    requires InStep(x) && x == w.(calls := w.calls + 1) && Honest(v.stream, v.pos, Asked(v, minCount), a)
    ensures Promise(v, x, minCount, a, o, SourceError)
  {
    Exposes(x);
  }

  lemma StopsAtFault(v: Snapshot, w: Snapshot, x: Snapshot, minCount: nat, a: Fetched, o: Outcome, first: bool, a': Fetched, o': Outcome)
    requires Rounds(v, w, minCount, a, o, first) && 0 <= w.Size() < minCount && !w.p.done && a'.Buffers? && (first ==> a' == a && o' == o)
    requires Redecoded(w.(calls := w.calls + 1), x, o', |a'.buffers| == 1, false) && Honest(v.stream, v.pos, Asked(v, minCount), a)
    ensures Promise(v, x, minCount, a, o, InvalidArgument)
  {
    Exposes(x);
  }

  lemma RoundStops(v: Snapshot, w: Snapshot, x: Snapshot, minCount: nat, a: Fetched, o: Outcome, first: bool, a': Fetched, o': Outcome, r: FetchResult)
    requires Rounds(v, w, minCount, a, o, first) && 0 <= w.Size() < minCount && (first ==> a' == a && o' == o)
    requires RoundPromise(w, x, minCount, a', o', true, r) && Honest(v.stream, v.pos, Asked(v, minCount), a)
    ensures Promise(v, x, minCount, a, o, r)
  {
    if w.p.done {
      StopsAtEnd(v, w, x, minCount, a, o, first);
    } else {
      match a'
      case Buffers(_) => StopsAtFault(v, w, x, minCount, a, o, first, a', o');
      case NoMore => StopsShort(v, w, x, minCount, a, o, first, a');
      case Broken => StopsBroken(v, w, x, minCount, a, o, first, a');
    }
  }

  /** What a stopping round means for the whole fetch. */
  lemma FetchStops(answer: (nat, nat, nat) -> Fetched, v: Snapshot, w: Snapshot, x: Snapshot, minCount: nat, a: Fetched, o: Outcome,
                   first: bool, a': Fetched, o': Outcome, r: FetchResult)
    requires Rounds(v, w, minCount, a, o, first) && 0 <= w.Size() < minCount && a' == AnswerTo(answer, w, minCount)
    requires first ==> a' == a && o' == o
    requires RoundPromise(w, x, minCount, a', o', true, r) && Honest(v.stream, v.pos, Asked(v, minCount), a)
    ensures Promise(v, x, minCount, a, o, r) && (r.SourceError? ==> LastBroken(answer, v, x, minCount))
  {
    RoundStops(v, w, x, minCount, a, o, first, a', o', r);
    if r.SourceError? { StopsOnlyIfBroken(answer, v, w, x, minCount, a, o, first, o', r); }
  }

  lemma RoundsEnd(v: Snapshot, w: Snapshot, minCount: nat, a: Fetched, o: Outcome, first: bool, r: FetchResult)
    requires InStep(v) && Rounds(v, w, minCount, a, o, first) && !(0 <= w.Size() < minCount) && Honest(v.stream, v.pos, Asked(v, minCount), a)
    requires if w.Size() < 0 then r.CheckFailed? else r.Data? && Flatten(r.buffers) == w.p.bytes[w.p.outputConsumed..]
    ensures Promise(v, w, minCount, a, o, r)
  {
    if w.Size() >= 0 { Exposes(w); }
  }
}
