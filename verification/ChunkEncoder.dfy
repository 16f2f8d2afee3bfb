/**
  `http_encode_chunked`: writes a stream in the chunked transfer coding, and the round trip with the
  decoder.
 */
module ChunkEncoder {
  import opened Arithmetic
  import opened ByteTypes
  import opened ChunkDecoder
  import opened Sequences
  import opened Wrappers

  const HEADER_SIZE: nat := 20

  function HexChar(v: nat): (b: Byte)
    requires v < 16
    ensures DecodeHex(b) == Some(v)
  {
    if v < 10 then '0' as int + v else 'A' as int + (v - 10)
  }

  /** The shortest upper-case hexadecimal numeral. */
  function Hex(n: nat): seq<Byte> {
    if n < 16 then [HexChar(n)] else Hex(n / 16) + [HexChar(n % 16)]
  }

  lemma {:induction false} HexLength(n: nat, k: nat)
    requires n < Pow16(k) && k > 0
    ensures 0 < |Hex(n)| <= k
  {
    if n >= 16 {
      assert k > 1;
      HexLength(n / 16, k - 1);
    }
  }

  // ---------------------------------------------------------------- encode_hex

  /** `n >> 4k`. */
  function Shr(n: nat, k: nat): nat { if k == 0 then n else Shr(n, k - 1) / 16 }

  /** The hexadecimal digit at position `k`: `(n >> 4k) & 0b1111`. */
  function Digit(n: nat, k: nat): nat { Shr(n, k) % 16 }

  lemma {:induction false} ShrBound(n: nat, k: nat, j: nat)
    requires n < Pow16(k + j)
    ensures Shr(n, k) < Pow16(j)
    decreases k
  {
    if k > 0 {
      ShrBound(n, k - 1, j + 1);
    }
  }

  /** The position of the most significant digit that is not zero. */
  method TopDigit(n: nat) returns (k: nat)
    requires 0 < n < U64_LIMIT
    ensures k <= 15 && Shr(n, k) == Digit(n, k) > 0
  {
    k := 15;
    Pow16Split();
    ShrBound(n, 16, 0);
    while Digit(n, k) == 0
      invariant 0 <= k <= 15 && Shr(n, k + 1) == 0
      decreases k
    {
      assert Shr(n, k) == 0;
      assert k != 0;
      k := k - 1;
    }
    assert Shr(n, k) == Digit(n, k);
  }

  lemma HexNext(n: nat, k: nat)
    requires Shr(n, k + 1) > 0
    ensures Shr(n, k) > 0 && Hex(Shr(n, k)) == Hex(Shr(n, k + 1)) + [HexChar(Digit(n, k))]
  {
  }

  method PutDigit(dst: array<Byte>, at: nat, end: nat, c: Byte)
    requires at <= end < dst.Length
    modifies dst
    ensures dst[at..end + 1] == old(dst[at..end]) + [c] && dst[..at] == old(dst[..at])
  {
    dst[end] := c;
  }

  /** Writes the numeral of `n` at `at`, most significant digit first, without leading zeros. */
  method EncodeHex(n: nat, dst: array<Byte>, at: nat) returns (end: nat)
    requires n < U64_LIMIT && at + MAX_HEX_DIGITS <= dst.Length
    modifies dst
    ensures at <= end <= at + MAX_HEX_DIGITS
    ensures dst[at..end] == Hex(n)
    ensures dst[..at] == old(dst[..at])
  {
    if n == 0 {
      dst[at] := ZERO;
      end := at + 1;
      return;
    }
    var k := TopDigit(n);
    dst[at] := HexChar(Digit(n, k));
    end := at + 1;
    ghost var top := k;
    while k > 0
      invariant 0 <= k <= top <= 15 && end == at + 1 + (top - k)
      invariant Shr(n, k) > 0
      invariant dst[at..end] == Hex(Shr(n, k))
      invariant dst[..at] == old(dst[..at])
    {
      k := k - 1;
      HexNext(n, k);
      PutDigit(dst, at, end, HexChar(Digit(n, k)));
      end := end + 1;
    }
  }

  // ---------------------------------------------------------------- the encoding

  function ChunkHeader(first: bool, size: nat): seq<Byte> {
    (if first then [] else CRLF) + Hex(size) + CRLF
  }

  function LastChunk(includeTrailer: bool): seq<Byte> {
    CRLF + [ZERO] + CRLF + (if includeTrailer then CRLF else [])
  }

  function Chunks(first: bool, chunks: seq<seq<Byte>>): seq<Byte> {
    if chunks == [] then [] else ChunkHeader(first, |chunks[0]|) + chunks[0] + Chunks(false, chunks[1..])
  }

  function Encode(chunks: seq<seq<Byte>>, includeTrailer: bool): seq<Byte> {
    Chunks(true, chunks) + LastChunk(includeTrailer)
  }

  ghost predicate Sized(chunks: seq<seq<Byte>>) {
    forall i :: 0 <= i < |chunks| ==> 0 < |chunks[i]| < U64_LIMIT
  }

  // ---------------------------------------------------------------- decoding what was encoded

  lemma RunNone(d: Decoder)
    ensures Run(d, []) == Outcome(d, 0, [], More)
  {
  }

  lemma RunOne(d: Decoder, b: Byte)
    requires StepByte(d, b).Next?
    ensures Run(d, [b]) == Outcome(StepByte(d, b).d, 1, StepByte(d, b).out, More)
  {
    assert [b][1..] == [];
    assert StepByte(d, b).out + [] == StepByte(d, b).out;
  }

  lemma {:induction false} RunHex(n: nat, trailer: bool)
    requires n < U64_LIMIT
    ensures |Hex(n)| <= MAX_HEX_DIGITS
    ensures Run(Initial(trailer), Hex(n)) == Outcome(Decoder(ChunkSize, n, |Hex(n)|, trailer), |Hex(n)|, [], More)
  {
    Pow16Split();
    HexLength(n, 16);
    if n < 16 {
      RunOne(Initial(trailer), HexChar(n));
    } else {
      RunHex(n / 16, trailer);
      var d := Decoder(ChunkSize, n / 16, |Hex(n / 16)|, trailer);
      RunSplit(Initial(trailer), Hex(n / 16), [HexChar(n % 16)]);
      RunOne(d, HexChar(n % 16));
    }
  }

  /** The decoder between two chunks of an encoding. */
  function Between(trailer: bool): Decoder { Decoder(ChunkCrlf, 0, 0, trailer) }

  /** After the numeral and the line end the decoder expects exactly that much data. */
  lemma RunSizeLine(n: nat, trailer: bool)
    requires 0 < n < U64_LIMIT
    ensures Run(Initial(trailer), Hex(n) + CRLF)
            == Outcome(Decoder(ChunkData, n, 0, trailer), |Hex(n)| + 2, [], More)
  {
    var d := Decoder(ChunkSize, n, |Hex(n)|, trailer);
    RunHex(n, trailer);
    Pow16Split();
    HexLength(n, 16);
    RunSplit(Initial(trailer), Hex(n), CRLF);
    assert CRLF == [CR] + [LF];
    RunSplit(d, [CR], [LF]);
    RunOne(d, CR);
    RunOne(Decoder(ChunkExt, n, 0, trailer), LF);
  }

  lemma RunChunk(chunk: seq<Byte>, trailer: bool)
    requires 0 < |chunk| < U64_LIMIT
    ensures Run(Initial(trailer), Hex(|chunk|) + CRLF + chunk)
            == Outcome(Between(trailer), |Hex(|chunk|)| + 2 + |chunk|, chunk, More)
  {
    var d := Decoder(ChunkData, |chunk|, 0, trailer);
    RunSizeLine(|chunk|, trailer);
    RunSplit(Initial(trailer), Hex(|chunk|) + CRLF, chunk);
    RunData(d, chunk, |chunk|);
    assert chunk[..|chunk|] == chunk && chunk[|chunk|..] == [];
  }

  lemma RunLineEnd(trailer: bool)
    ensures Run(Between(trailer), CRLF) == Outcome(Initial(trailer), 2, [], More)
  {
    assert CRLF == [CR] + [LF];
    RunSplit(Between(trailer), [CR], [LF]);
    RunOne(Between(trailer), CR);
    RunOne(Between(trailer), LF);
  }

  function StartOf(first: bool, trailer: bool): Decoder { if first then Initial(trailer) else Between(trailer) }

  lemma Regroup(a: seq<Byte>, b: seq<Byte>, c: seq<Byte>, d: seq<Byte>)
    ensures a + b + c + d == a + (b + c + d)
  {
  }

  lemma Framed(first: bool, chunk: seq<Byte>)
    ensures ChunkHeader(first, |chunk|) + chunk == (if first then [] else CRLF) + (Hex(|chunk|) + CRLF + chunk)
  {
    Regroup(if first then [] else CRLF, Hex(|chunk|), CRLF, chunk);
  }

  lemma RunAfterLineEnd(body: seq<Byte>, r: Outcome, trailer: bool)
    requires r == Run(Initial(trailer), body)
    ensures Run(Between(trailer), CRLF + body) == Prepend(2, [], r)
  {
    RunSplit(Between(trailer), CRLF, body);
    RunLineEnd(trailer);
  }

  lemma RunFramedChunk(first: bool, chunk: seq<Byte>, trailer: bool)
    requires 0 < |chunk| < U64_LIMIT
    ensures Run(StartOf(first, trailer), ChunkHeader(first, |chunk|) + chunk)
            == Outcome(Between(trailer), |ChunkHeader(first, |chunk|) + chunk|, chunk, More)
  {
    var body := Hex(|chunk|) + CRLF + chunk;
    RunChunk(chunk, trailer);
    Framed(first, chunk);
    if first {
      assert [] + body == body;
    } else {
      RunAfterLineEnd(body, Run(Initial(trailer), body), trailer);
    }
  }

  lemma {:induction false} RunChunks(first: bool, chunks: seq<seq<Byte>>, trailer: bool)
    requires Sized(chunks) && chunks != []
    ensures Run(StartOf(first, trailer), Chunks(first, chunks))
            == Outcome(Between(trailer), |Chunks(first, chunks)|, Flatten(chunks), More)
    decreases |chunks|
  {
    var head := ChunkHeader(first, |chunks[0]|) + chunks[0];
    RunFramedChunk(first, chunks[0], trailer);
    RunSplit(StartOf(first, trailer), head, Chunks(false, chunks[1..]));
    if |chunks| == 1 {
      assert Chunks(false, chunks[1..]) == [];
      assert chunks[0] + [] == chunks[0];
    } else {
      RunChunks(false, chunks[1..], trailer);
    }
  }

  /** The final marker, as a decoder with or without `consume_trailer` sees it. */
  function LastOutcome(includeTrailer: bool, consumeTrailer: bool): Outcome {
    if !consumeTrailer then Outcome(Decoder(ChunkExt, 0, 0, false), 5, [], Done)
    else if includeTrailer then Outcome(Decoder(TrailersLineHead, 0, 0, true), 7, [], Done)
    else Outcome(Decoder(TrailersLineHead, 0, 0, true), 5, [], More)
  }

  lemma RunEnd(d: Decoder, b: Byte)
    requires StepByte(d, b).Finish?
    ensures Run(d, [b]) == Outcome(StepByte(d, b).d, 1, [], Done)
  {
  }

  /** A line end, wherever the carriage return leaves the decoder at `mid`. */
  lemma RunCrlf(d: Decoder, mid: Decoder)
    requires StepByte(d, CR) == Next(mid, [])
    ensures Run(d, CRLF) == Prepend(1, [], Run(mid, [LF]))
  {
    assert CRLF == [CR] + [LF];
    RunSplit(d, [CR], [LF]);
    RunOne(d, CR);
  }

  lemma RunZeroEnd(consumeTrailer: bool)
    ensures Run(Decoder(ChunkSize, 0, 1, consumeTrailer), CRLF)
            == Outcome(LastOutcome(false, consumeTrailer).decoder, 2, [], LastOutcome(false, consumeTrailer).verdict)
  {
    var d2 := Decoder(ChunkExt, 0, 0, consumeTrailer);
    RunCrlf(Decoder(ChunkSize, 0, 1, consumeTrailer), d2);
    if consumeTrailer { RunOne(d2, LF); } else { RunEnd(d2, LF); }
  }

  lemma RunZeroLine(consumeTrailer: bool)
    ensures Run(Initial(consumeTrailer), [ZERO] + CRLF)
            == Outcome(LastOutcome(false, consumeTrailer).decoder, 3, [], LastOutcome(false, consumeTrailer).verdict)
  {
    assert Hex(0) == [ZERO];
    RunSplit(Initial(consumeTrailer), Hex(0), CRLF);
    RunHex(0, consumeTrailer);
    RunZeroEnd(consumeTrailer);
  }

  lemma RunTrailer()
    ensures var head := Decoder(TrailersLineHead, 0, 0, true);
            Run(head, CRLF) == Outcome(head, 2, [], Done)
  {
    var head := Decoder(TrailersLineHead, 0, 0, true);
    RunCrlf(head, head);
    RunEnd(head, LF);
  }

  lemma RunLast(includeTrailer: bool, consumeTrailer: bool)
    ensures Run(Between(consumeTrailer), LastChunk(includeTrailer)) == LastOutcome(includeTrailer, consumeTrailer)
  {
    var tail := if includeTrailer then CRLF else [];
    var line := [ZERO] + CRLF;
    assert LastChunk(includeTrailer) == CRLF + (line + tail);
    RunSplit(Between(consumeTrailer), CRLF, line + tail);
    RunLineEnd(consumeTrailer);
    RunSplit(Initial(consumeTrailer), line, tail);
    RunZeroLine(consumeTrailer);
    RunTrailer();
    RunNone(LastOutcome(false, consumeTrailer).decoder);
  }

  /** What decoding an encoding gives, for every list of chunks and both trailer flags. */
  lemma DecodeEncode(chunks: seq<seq<Byte>>, includeTrailer: bool, consumeTrailer: bool)
    requires Sized(chunks)
    ensures var r := Run(Initial(consumeTrailer), Encode(chunks, includeTrailer));
            if chunks == [] then r.verdict == Invalid
            else && r.output == Flatten(chunks)
                 && r.verdict == LastOutcome(includeTrailer, consumeTrailer).verdict
                 && r.consumed == |Chunks(true, chunks)| + LastOutcome(includeTrailer, consumeTrailer).consumed
  {
    if chunks == [] {
      assert Encode(chunks, includeTrailer)[0] == CR;
    } else {
      RunChunks(true, chunks, consumeTrailer);
      RunSplit(Initial(consumeTrailer), Chunks(true, chunks), LastChunk(includeTrailer));
      RunLast(includeTrailer, consumeTrailer);
    }
  }

  /**
    The round trip: decoding returns the chunks, reports the end and consumes every byte exactly when
    there is at least one chunk and both sides agree on the trailer.
   */
  lemma RoundTrip(chunks: seq<seq<Byte>>, includeTrailer: bool, consumeTrailer: bool)
    requires Sized(chunks)
    ensures var bytes := Encode(chunks, includeTrailer);
            var r := Run(Initial(consumeTrailer), bytes);
            (r.verdict == Done && r.consumed == |bytes| && r.output == Flatten(chunks))
            <==> (chunks != [] && includeTrailer == consumeTrailer)
  {
    DecodeEncode(chunks, includeTrailer, consumeTrailer);
  }

  /** An empty stream's encoding starts with the line end of a chunk that was never sent. */
  lemma EmptyStreamIsRejected(includeTrailer: bool, consumeTrailer: bool)
    ensures Run(Initial(consumeTrailer), Encode([], includeTrailer)).verdict == Invalid
  {
    DecodeEncode([], includeTrailer, consumeTrailer);
  }

  // ---------------------------------------------------------------- the encoder's loops

  lemma {:induction false} ChunksSnoc(first: bool, chunks: seq<seq<Byte>>, chunk: seq<Byte>)
    ensures Chunks(first, chunks + [chunk])
            == Chunks(first, chunks) + (ChunkHeader(first && chunks == [], |chunk|) + chunk)
    decreases |chunks|
  {
    if chunks == [] {
      assert ([] + [chunk])[1..] == [];
      assert Chunks(false, []) == [];
    } else {
      assert (chunks + [chunk])[1..] == chunks[1..] + [chunk];
      ChunksSnoc(false, chunks[1..], chunk);
    }
  }

  /** Fills the header buffer for one chunk; it always fits. */
  method WriteHeader(first: bool, size: nat, header: array<Byte>) returns (end: nat)
    requires size < U64_LIMIT && header.Length == HEADER_SIZE
    modifies header
    ensures end <= HEADER_SIZE && header[..end] == ChunkHeader(first, size)
  {
    end := 0;
    if !first {
      header[0], header[1] := CR, LF;
      end := 2;
    }
    ghost var start := header[..end];
    var digitsEnd := EncodeHex(size, header, end);
    assert header[..digitsEnd] == start + Hex(size);
    header[digitsEnd] := CR;
    header[digitsEnd + 1] := LF;
    assert header[..digitsEnd] == start + Hex(size);
    end := digitsEnd + 2;
    assert header[..end] == header[..digitsEnd] + CRLF;
  }

  /** The successive results of `fetch_at_least(1)`, each a list of buffers. */
  method HttpEncodeChunked(fetches: seq<seq<seq<Byte>>>, includeTrailer: bool) returns (written: seq<Byte>, consumed: nat)
    requires forall i :: 0 <= i < |fetches| ==> Sized(fetches[i])
    ensures written == Encode(AllChunks(fetches), includeTrailer)
    ensures consumed == |Flatten(AllChunks(fetches))|
  {
    var header := new Byte[HEADER_SIZE];
    var firstChunk := true;
    ghost var sent: seq<seq<Byte>> := [];
    written, consumed := [], 0;
    for i := 0 to |fetches|
      invariant sent == AllChunks(fetches[..i]) && firstChunk == (sent == [])
      invariant written == Chunks(true, sent) && consumed == |Flatten(sent)|
    {
      var nConsumed := 0;
      ghost var before := sent;
      for k := 0 to |fetches[i]|
        invariant sent == before + fetches[i][..k] && firstChunk == (sent == [])
        invariant written == Chunks(true, sent) && consumed + nConsumed == |Flatten(sent)|
      {
        var chunk := fetches[i][k];
        var end := WriteHeader(firstChunk, |chunk|, header);
        ChunksSnoc(true, sent, chunk);
        FlattenSnoc(sent, chunk);
        written := written + (header[..end] + chunk);
        nConsumed := nConsumed + |chunk|;
        firstChunk := false;
        assert before + fetches[i][..k + 1] == sent + [chunk];
        sent := sent + [chunk];
      }
      consumed := consumed + nConsumed;
      AllChunksSnoc(fetches, i);
      assert fetches[i][..|fetches[i]|] == fetches[i];
    }
    assert fetches[..|fetches|] == fetches;
    written := written + LastChunk(includeTrailer);
  }

  function AllChunks(fetches: seq<seq<seq<Byte>>>): seq<seq<Byte>> {
    if fetches == [] then [] else AllChunks(fetches[..|fetches| - 1]) + fetches[|fetches| - 1]
  }

  lemma AllChunksSnoc(fetches: seq<seq<seq<Byte>>>, i: nat)
    requires i < |fetches|
    ensures AllChunks(fetches[..i + 1]) == AllChunks(fetches[..i]) + fetches[i]
  {
    assert fetches[..i + 1][..i] == fetches[..i];
  }
}
