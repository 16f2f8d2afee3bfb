/**
  `decode_chunked`: the resumable decoder of the chunked transfer coding (section 4.1 of RFC 7230).

  `Run` says what feeding bytes one at a time does; the method follows the source's loops.
 */
module ChunkDecoder {
  import opened Arithmetic
  import opened ByteTypes
  import opened Sequences
  import opened Wrappers

  const MAX_HEX_DIGITS: nat := 16

  datatype Mode = ChunkSize | ChunkExt | ChunkData | ChunkCrlf | TrailersLineHead | TrailersLineMiddle

  datatype Decoder = Decoder(mode: Mode, bytesLeft: nat, hexCount: nat, consumeTrailer: bool)

  function Initial(consumeTrailer: bool): Decoder { Decoder(ChunkSize, 0, 0, consumeTrailer) }

  function Pow16(n: nat): nat { if n == 0 then 1 else 16 * Pow16(n - 1) }

  /** `decode_hex`; `None` is its failure code. */
  function DecodeHex(ch: Byte): Option<nat> {
    if '0' as int <= ch <= '9' as int then Some(ch - '0' as int)
    else if 'A' as int <= ch <= 'F' as int then Some(ch - 'A' as int + 10)
    else if 'a' as int <= ch <= 'f' as int then Some(ch - 'a' as int + 10)
    else None
  }

  /** The states the decoder can be in between calls; sizes fit 64 bits. */
  ghost predicate Valid(d: Decoder) {
    match d.mode
    case ChunkSize => d.hexCount <= MAX_HEX_DIGITS && d.bytesLeft < Pow16(d.hexCount)
    case ChunkExt => d.hexCount == 0 && d.bytesLeft < U64_LIMIT
    case ChunkData => d.hexCount == 0 && 0 < d.bytesLeft < U64_LIMIT
    case _ => d.hexCount == 0 && d.bytesLeft == 0
  }

  // ---------------------------------------------------------------- byte at a time

  datatype Verdict = More | Done | Invalid

  datatype Outcome = Outcome(decoder: Decoder, consumed: nat, output: seq<Byte>, verdict: Verdict)

  datatype ByteStep = Next(d: Decoder, out: seq<Byte>) | Finish(d: Decoder) | Fail

  function StepByte(d: Decoder, b: Byte): ByteStep {
    match d.mode
    case ChunkSize =>
      (match DecodeHex(b)
       case Some(v) =>
         if d.hexCount == MAX_HEX_DIGITS then Fail
         else Next(d.(bytesLeft := d.bytesLeft * 16 + v, hexCount := d.hexCount + 1), [])
       case None =>
         if d.hexCount == 0 then Fail else StepExt(d.(hexCount := 0, mode := ChunkExt), b))
    case ChunkExt => StepExt(d, b)
    case ChunkData =>
      Next(d.(bytesLeft := if d.bytesLeft == 0 then 0 else d.bytesLeft - 1,
              mode := if d.bytesLeft <= 1 then ChunkCrlf else ChunkData), [b])
    case ChunkCrlf =>
      if b == CR then Next(d, []) else if b == LF then Next(d.(mode := ChunkSize), []) else Fail
    case TrailersLineHead =>
      if b == CR then Next(d, []) else if b == LF then Finish(d) else Next(d.(mode := TrailersLineMiddle), [])
    case TrailersLineMiddle => Next(if b == LF then d.(mode := TrailersLineHead) else d, [])
  }

  function StepExt(d: Decoder, b: Byte): ByteStep {
    if b != LF then Next(d, [])
    else if d.bytesLeft > 0 then Next(d.(mode := ChunkData), [])
    else if d.consumeTrailer then Next(d.(mode := TrailersLineHead), [])
    else Finish(d)
  }

  function Run(d: Decoder, input: seq<Byte>): Outcome
    decreases |input|
  {
    if input == [] then Outcome(d, 0, [], More)
    else match StepByte(d, input[0])
      case Next(d', out) => Prepend(1, out, Run(d', input[1..]))
      case Finish(d') => Outcome(d', 1, [], Done)
      case Fail => Outcome(d, 0, [], Invalid)
  }

  /** `r` after `n` bytes were consumed and `out` was produced. */
  function Prepend(n: nat, out: seq<Byte>, r: Outcome): Outcome {
    Outcome(r.decoder, n + r.consumed, out + r.output, r.verdict)
  }

  lemma StepValid(d: Decoder, b: Byte)
    requires Valid(d)
    ensures StepByte(d, b).Next? || StepByte(d, b).Finish? ==> Valid(StepByte(d, b).d)
  {
    Pow16Max(d.hexCount);
  }

  /** At most 16 hex digits fit 64 bits. */
  lemma {:induction false} Pow16Max(n: nat)
    ensures n <= MAX_HEX_DIGITS ==> Pow16(n) <= U64_LIMIT
  {
    Pow16Mono(n, MAX_HEX_DIGITS);
    Pow16Split();
  }

  lemma {:induction false} Pow16Mono(n: nat, m: nat)
    ensures n <= m ==> Pow16(n) <= Pow16(m)
    decreases m
  {
    if n < m { Pow16Mono(n, m - 1); }
  }

  lemma Pow16Split()
    ensures Pow16(16) == U64_LIMIT
  {
    assert Pow16(4) == 0x1_0000;
    assert Pow16(8) == 0x1_0000_0000;
    assert Pow16(12) == 0x1_0000_0000_0000;
  }

  /** No chunk size ever overflows 64 bits, whatever the input. */
  lemma {:induction false} RunValid(d: Decoder, input: seq<Byte>)
    requires Valid(d)
    ensures Valid(Run(d, input).decoder) && Run(d, input).decoder.bytesLeft < U64_LIMIT
    decreases |input|
  {
    Pow16Max(d.hexCount);
    if input != [] {
      StepValid(d, input[0]);
      match StepByte(d, input[0])
      case Next(d', _) => RunValid(d', input[1..]);
      case Finish(_) =>
      case Fail =>
    }
  }

  lemma {:induction false} RunConsumed(d: Decoder, input: seq<Byte>)
    ensures Run(d, input).consumed <= |input|
    ensures Run(d, input).verdict == More ==> Run(d, input).consumed == |input|
    decreases |input|
  {
    if input != [] && StepByte(d, input[0]).Next? { RunConsumed(StepByte(d, input[0]).d, input[1..]); }
  }

  // ---------------------------------------------------------------- any fragmentation

  /** Feeding `input` after an earlier call that asked for more. */
  function Resume(first: Outcome, input: seq<Byte>): Outcome {
    if first.verdict != More then first else Prepend(first.consumed, first.output, Run(first.decoder, input))
  }

  lemma PrependPrepend(n: nat, x: seq<Byte>, m: nat, y: seq<Byte>, r: Outcome)
    ensures Prepend(n, x, Prepend(m, y, r)) == Prepend(n + m, x + y, r)
  {
  }

  /** Feeding two pieces is feeding their concatenation. */
  lemma {:induction false} RunSplit(d: Decoder, a: seq<Byte>, b: seq<Byte>)
    ensures Run(d, a + b) == Resume(Run(d, a), b)
    decreases |a|
  {
    if a == [] {
      assert a + b == b;
      assert [] + Run(d, b).output == Run(d, b).output;
    } else {
      assert (a + b)[1..] == a[1..] + b;
      match StepByte(d, a[0])
      case Next(d', out) =>
        RunSplit(d', a[1..], b);
        var r := Run(d', a[1..]);
        if r.verdict == More {
          PrependPrepend(1, out, r.consumed, r.output, Run(r.decoder, b));
        }
      case Finish(_) =>
      case Fail =>
    }
  }

  /** Feed the pieces one call at a time, stopping at the first verdict. */
  function RunPieces(d: Decoder, pieces: seq<seq<Byte>>): Outcome
    decreases |pieces|
  {
    if pieces == [] then Outcome(d, 0, [], More)
    else
      var r := Run(d, pieces[0]);
      if r.verdict != More then r else Prepend(r.consumed, r.output, RunPieces(r.decoder, pieces[1..]))
  }

  /** However a stream is cut up, bytes, state and verdict are those of feeding it whole. */
  lemma {:induction false} SplitInvariant(d: Decoder, pieces: seq<seq<Byte>>)
    ensures RunPieces(d, pieces) == Run(d, Flatten(pieces))
    decreases |pieces|
  {
    if pieces != [] {
      var r := Run(d, pieces[0]);
      RunSplit(d, pieces[0], Flatten(pieces[1..]));
      if r.verdict == More { SplitInvariant(r.decoder, pieces[1..]); }
    }
  }

  // ---------------------------------------------------------------- the source's loops

  /** In the data part, as many bytes as there are left pass through at once. */
  lemma {:induction false} RunData(d: Decoder, input: seq<Byte>, n: nat)
    requires d.mode == ChunkData && n <= d.bytesLeft && n <= |input| && d.bytesLeft > 0
    ensures Run(d, input) == Prepend(n, input[..n], Run(AfterData(d, n), input[n..]))
    decreases n
  {
    if n == 0 {
      assert input[0..] == input;
      assert [] + Run(d, input).output == Run(d, input).output;
    } else {
      var d' := AfterData(d, 1);
      assert StepByte(d, input[0]) == Next(d', [input[0]]);
      if n == 1 {
        assert [input[0]] == input[..1];
      } else {
        RunData(d', input[1..], n - 1);
        var rest := Run(AfterData(d, n), input[n..]);
        assert input[1..][n - 1..] == input[n..];
        assert [input[0]] + input[1..][..n - 1] == input[..n];
        PrependPrepend(1, [input[0]], n - 1, input[1..][..n - 1], rest);
      }
    }
  }

  function AfterData(d: Decoder, n: nat): Decoder
    requires n <= d.bytesLeft
  {
    d.(bytesLeft := d.bytesLeft - n, mode := if n == d.bytesLeft then ChunkCrlf else d.mode)
  }

  /** What is left to do at `src` completes what has been done so far. */
  ghost predicate OnTrack(start: Decoder, input: seq<Byte>, src: nat, output: seq<seq<Byte>>, d: Decoder) {
    && src <= |input|
    && Run(start, input) == Prepend(src, Flatten(output), Run(d, input[src..]))
  }

  lemma OneByte(start: Decoder, input: seq<Byte>, src: nat, output: seq<seq<Byte>>, d: Decoder)
    requires OnTrack(start, input, src, output, d) && src < |input| && StepByte(d, input[src]).Next?
    requires StepByte(d, input[src]).out == []
    ensures OnTrack(start, input, src + 1, output, StepByte(d, input[src]).d)
  {
    var d' := StepByte(d, input[src]).d;
    assert input[src..][1..] == input[src + 1..];
    PrependPrepend(src, Flatten(output), 1, [], Run(d', input[src + 1..]));
    assert Flatten(output) + [] == Flatten(output);
  }

  lemma DataBytes(start: Decoder, input: seq<Byte>, src: nat, output: seq<seq<Byte>>, d: Decoder, n: nat)
    requires OnTrack(start, input, src, output, d) && d.mode == ChunkData && 0 < d.bytesLeft
    requires n <= d.bytesLeft && src + n <= |input|
    ensures OnTrack(start, input, src + n, output + [input[src..src + n]], AfterData(d, n))
    ensures n == 0 ==> OnTrack(start, input, src, output, d)
  {
    RunData(d, input[src..], n);
    assert input[src..][n..] == input[src + n..];
    assert input[src..][..n] == input[src..src + n];
    FlattenSnoc(output, input[src..src + n]);
    PrependPrepend(src, Flatten(output), n, input[src..src + n], Run(AfterData(d, n), input[src + n..]));
  }

  /** Bytes the scanning loops pass over without leaving their state. */
  predicate Skips(mode: Mode, b: Byte) {
    match mode
    case ChunkExt => b != LF
    case ChunkCrlf => b == CR
    case TrailersLineHead => b == CR
    case TrailersLineMiddle => b != LF
    case _ => false
  }

  lemma SkipByte(start: Decoder, input: seq<Byte>, src: nat, output: seq<seq<Byte>>, d: Decoder)
    requires OnTrack(start, input, src, output, d) && src < |input| && Skips(d.mode, input[src])
    ensures OnTrack(start, input, src + 1, output, d)
  {
    OneByte(start, input, src, output, d);
  }

  method SkipBytes(ghost start: Decoder, input: seq<Byte>, from: nat, ghost output: seq<seq<Byte>>, d: Decoder)
    returns (src: nat)
    requires OnTrack(start, input, from, output, d)
    ensures OnTrack(start, input, src, output, d) && from <= src
    ensures src < |input| ==> !Skips(d.mode, input[src])
  {
    src := from;
    while src < |input| && Skips(d.mode, input[src])
      invariant OnTrack(start, input, src, output, d) && from <= src
    {
      SkipByte(start, input, src, output, d);
      src := src + 1;
    }
  }

  /** One more digit fits. */
  lemma DigitFits(bytesLeft: nat, hexCount: nat, v: nat)
    requires hexCount < MAX_HEX_DIGITS && bytesLeft < Pow16(hexCount) && v < 16
    ensures bytesLeft * 16 + v < Pow16(hexCount + 1) <= U64_LIMIT
  {
    Pow16Max(hexCount + 1);
  }

  function AddDigit(d: Decoder, v: nat): Decoder { d.(bytesLeft := d.bytesLeft * 16 + v, hexCount := d.hexCount + 1) }

  lemma DigitStep(d: Decoder, b: Byte)
    requires Valid(d) && d.mode == ChunkSize && DecodeHex(b).Some? && d.hexCount < MAX_HEX_DIGITS
    ensures StepByte(d, b) == Next(AddDigit(d, DecodeHex(b).value), [])
    ensures Valid(AddDigit(d, DecodeHex(b).value)) && d.bytesLeft * 16 + DecodeHex(b).value < U64_LIMIT
  {
    DigitFits(d.bytesLeft, d.hexCount, DecodeHex(b).value);
  }

  /** One more digit: no overflow, and the decoder a byte further. */
  lemma OneDigit(start: Decoder, input: seq<Byte>, src: nat, output: seq<seq<Byte>>, d: Decoder, v: nat)
    requires OnTrack(start, input, src, output, d) && Valid(d) && d.mode == ChunkSize && src < |input|
    requires DecodeHex(input[src]) == Some(v) && d.hexCount < MAX_HEX_DIGITS
    ensures d.bytesLeft * 16 + v < U64_LIMIT && Valid(AddDigit(d, v)) && OnTrack(start, input, src + 1, output, AddDigit(d, v))
  {
    DigitStep(d, input[src]);
    OneByte(start, input, src, output, d);
  }

  method ReadSize(ghost start: Decoder, input: seq<Byte>, from: nat, ghost output: seq<seq<Byte>>, initial: Decoder)
    returns (src: nat, d: Decoder)
    requires OnTrack(start, input, from, output, initial) && Valid(initial) && initial.mode == ChunkSize
    ensures OnTrack(start, input, src, output, d) && Valid(d) && d.mode == ChunkSize && from <= src
    ensures src < |input| ==> DecodeHex(input[src]).None? || d.hexCount == MAX_HEX_DIGITS
  {
    src, d := from, initial;
    while src < |input| && DecodeHex(input[src]).Some? && d.hexCount < MAX_HEX_DIGITS
      invariant OnTrack(start, input, src, output, d) && Valid(d) && d.mode == ChunkSize && from <= src
    {
      var v := DecodeHex(input[src]).value;
      OneDigit(start, input, src, output, d, v);
      d := AddDigit(d, v);
      src := src + 1;
    }
  }

  /** One round of the outer loop; `stop` when the call returns. */
  method Round(ghost start: Decoder, input: seq<Byte>, from: nat, soFar: seq<seq<Byte>>, initial: Decoder)
    returns (d: Decoder, src: nat, output: seq<seq<Byte>>, stop: bool, verdict: Verdict)
    requires Valid(initial) && OnTrack(start, input, from, soFar, initial) && from < |input|
    ensures Valid(d) && src <= |input|
    ensures stop || verdict == More
    ensures if stop then Outcome(d, src, Flatten(output), verdict) == Run(start, input)
            else OnTrack(start, input, src, output, d) && (from < src || (from == src && initial.mode == ChunkSize && d.mode == ChunkExt))
  {
    d, src, output, stop, verdict := initial, from, soFar, false, More;
    if d.mode == ChunkSize {
      d, src, stop, verdict := SizeRound(start, input, src, output, d);
    } else if d.mode == ChunkData {
      d, src, output, stop := DataRound(start, input, src, output, d);
    } else {
      src := SkipBytes(start, input, src, output, d);
      if src == |input| {
        stop := true;
      } else {
        d, src, stop, verdict := AfterSkip(start, input, src, output, d);
      }
    }
  }

  method SizeRound(ghost start: Decoder, input: seq<Byte>, from: nat, ghost output: seq<seq<Byte>>, initial: Decoder)
    returns (d: Decoder, src: nat, stop: bool, verdict: Verdict)
    requires Valid(initial) && OnTrack(start, input, from, output, initial) && from < |input| && initial.mode == ChunkSize
    ensures Valid(d) && src <= |input|
    ensures stop || verdict == More
    ensures if stop then Outcome(d, src, Flatten(output), verdict) == Run(start, input)
            else OnTrack(start, input, src, output, d) && from <= src && d.mode == ChunkExt
  {
    src, d := ReadSize(start, input, from, output, initial);
    stop, verdict := false, More;
    if src < |input| && DecodeHex(input[src]).None? && d.hexCount > 0 {
      Pow16Max(d.hexCount);
      d := d.(hexCount := 0, mode := ChunkExt);
    } else {
      stop, verdict := true, if src == |input| then More else Invalid;
    }
  }

  method DataRound(ghost start: Decoder, input: seq<Byte>, from: nat, soFar: seq<seq<Byte>>, initial: Decoder)
    returns (d: Decoder, src: nat, output: seq<seq<Byte>>, stop: bool)
    requires Valid(initial) && OnTrack(start, input, from, soFar, initial) && from < |input| && initial.mode == ChunkData
    ensures Valid(d) && src <= |input|
    ensures if stop then Outcome(d, src, Flatten(output), More) == Run(start, input)
            else OnTrack(start, input, src, output, d) && from < src
  {
    var n := if |input| - from < initial.bytesLeft then |input| - from else initial.bytesLeft;
    DataBytes(start, input, from, soFar, initial, n);
    output, src, stop := soFar + [input[from..from + n]], from + n, n < initial.bytesLeft;
    d := AfterData(initial, n);
  }

  /** The byte that ends one of the scanning loops. */
  method AfterSkip(ghost start: Decoder, input: seq<Byte>, from: nat, ghost output: seq<seq<Byte>>, initial: Decoder)
    returns (d: Decoder, src: nat, stop: bool, verdict: Verdict)
    requires Valid(initial) && initial.mode != ChunkSize && initial.mode != ChunkData
    requires OnTrack(start, input, from, output, initial) && from < |input| && !Skips(initial.mode, input[from])
    ensures Valid(d) && from <= src <= |input|
    ensures stop || verdict == More
    ensures if stop then Outcome(d, src, Flatten(output), verdict) == Run(start, input)
            else OnTrack(start, input, src, output, d) && from < src
  {
    d, src, stop, verdict := initial, from, false, More;
    match d.mode
    case ChunkExt =>
      if d.bytesLeft == 0 && !d.consumeTrailer {
        src, stop, verdict := src + 1, true, Done;
      } else {
        OneByte(start, input, src, output, d);
        src, d := src + 1, d.(mode := if d.bytesLeft == 0 then TrailersLineHead else ChunkData);
      }
    case ChunkCrlf =>
      if input[src] != LF {
        stop, verdict := true, Invalid;
      } else {
        OneByte(start, input, src, output, d);
        src, d := src + 1, d.(mode := ChunkSize);
      }
    case TrailersLineHead =>
      if input[src] == LF {
        src, stop, verdict := src + 1, true, Done;
      } else {
        OneByte(start, input, src, output, d);
        src, d := src + 1, d.(mode := TrailersLineMiddle);
      }
    case TrailersLineMiddle =>
      OneByte(start, input, src, output, d);
      src, d := src + 1, d.(mode := TrailersLineHead);
  }

  /** `decode_chunked` produces exactly the byte-at-a-time outcome. */
  method DecodeChunked(start: Decoder, input: seq<Byte>)
    returns (d: Decoder, verdict: Verdict, consumed: nat, output: seq<seq<Byte>>)
    requires Valid(start)
    ensures Outcome(d, consumed, Flatten(output), verdict) == Run(start, input)
    ensures Valid(d) && consumed <= |input|
  {
    d, verdict, consumed, output := start, More, 0, [];
    assert input[0..] == input;
    while consumed < |input|
      invariant Valid(d) && verdict == More
      invariant OnTrack(start, input, consumed, output, d)
      decreases |input| - consumed, if d.mode == ChunkSize then 1 else 0
    {
      var stop;
      d, consumed, output, stop, verdict := Round(start, input, consumed, output, d);
      if stop { return; }
    }
    assert input[consumed..] == [];
  }
}
