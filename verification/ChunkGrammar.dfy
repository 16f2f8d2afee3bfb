/**
  The grammar of the chunked transfer coding (section 4.1 of RFC 7230), as lenient as the decoder is,
  and the proof that the decoder accepts exactly the bodies of this grammar and delivers their data.
 */
module ChunkGrammar {
  import opened ByteTypes
  import opened ChunkDecoder
  import Encoder = ChunkEncoder
  import opened Sequences
  import opened Wrappers
  import opened Arithmetic

  // ---------------------------------------------------------------- reading a piece of the input

  function After(d: Decoder, piece: seq<Byte>, rest: seq<Byte>): Outcome { Run(d, piece + rest) }

  /** Whatever follows the piece, reading it gives `out` and takes the decoder from `d` to `to`. */
  ghost predicate Reads(d: Decoder, piece: seq<Byte>, out: seq<Byte>, to: Decoder) {
    forall rest :: After(d, piece, rest) == Prepend(|piece|, out, Run(to, rest))
  }

  /** Whatever follows the piece, the body ends with it. */
  ghost predicate Ends(d: Decoder, piece: seq<Byte>, out: seq<Byte>) {
    forall rest :: EndsWith(After(d, piece, rest), |piece|, out)
  }

  predicate EndsWith(o: Outcome, consumed: nat, out: seq<Byte>) { o.verdict == Done && o.consumed == consumed && o.output == out }

  lemma ReadsNothing(d: Decoder)
    ensures Reads(d, [], [], d)
  {
    forall rest ensures After(d, [], rest) == Prepend(0, [], Run(d, rest)) {
      assert [] + rest == rest && [] + Run(d, rest).output == Run(d, rest).output;
    }
  }

  lemma ReadsByte(d: Decoder, b: Byte)
    ensures StepByte(d, b).Next? ==> Reads(d, [b], StepByte(d, b).out, StepByte(d, b).d)
    ensures StepByte(d, b).Finish? ==> Ends(d, [b], [])
  {
    forall rest
      ensures StepByte(d, b).Next? ==> After(d, [b], rest) == Prepend(1, StepByte(d, b).out, Run(StepByte(d, b).d, rest))
      ensures StepByte(d, b).Finish? ==> EndsWith(After(d, [b], rest), 1, [])
    {
      assert ([b] + rest)[1..] == rest;
    }
  }

  lemma Regroup(x: seq<Byte>, y: seq<Byte>, z: seq<Byte>)
    ensures x + y + z == x + (y + z)
  {
  }

  lemma ReadsThen(d: Decoder, p: seq<Byte>, x: seq<Byte>, d': Decoder, q: seq<Byte>, y: seq<Byte>, to: Decoder)
    requires Reads(d, p, x, d') && Reads(d', q, y, to)
    ensures Reads(d, p + q, x + y, to)
  {
    forall rest ensures After(d, p + q, rest) == Prepend(|p + q|, x + y, Run(to, rest)) {
      Regroup(p, q, rest);
      assert After(d, p, q + rest) == Prepend(|p|, x, Run(d', q + rest));
      assert After(d', q, rest) == Prepend(|q|, y, Run(to, rest));
      PrependPrepend(|p|, x, |q|, y, Run(to, rest));
    }
  }

  lemma ReadsThenEnds(d: Decoder, p: seq<Byte>, x: seq<Byte>, d': Decoder, q: seq<Byte>, y: seq<Byte>)
    requires Reads(d, p, x, d') && Ends(d', q, y)
    ensures Ends(d, p + q, x + y)
  {
    forall rest ensures EndsWith(After(d, p + q, rest), |p + q|, x + y) {
      Regroup(p, q, rest);
      assert After(d, p, q + rest) == Prepend(|p|, x, Run(d', q + rest));
      assert EndsWith(After(d', q, rest), |q|, y);
    }
  }

  /** The same for pieces without output. */
  lemma SkipsThen(d: Decoder, p: seq<Byte>, d': Decoder, q: seq<Byte>, to: Decoder)
    requires Reads(d, p, [], d') && Reads(d', q, [], to)
    ensures Reads(d, p + q, [], to)
  {
    ReadsThen(d, p, [], d', q, [], to);
  }

  lemma SkipsThenEnds(d: Decoder, p: seq<Byte>, d': Decoder, q: seq<Byte>)
    requires Reads(d, p, [], d') && Ends(d', q, [])
    ensures Ends(d, p + q, [])
  {
    ReadsThenEnds(d, p, [], d', q, []);
  }

  /** Bytes that leave the decoder where it is, without output. */
  lemma {:induction false} SkipsAll(d: Decoder, s: seq<Byte>)
    requires forall i :: 0 <= i < |s| ==> StepByte(d, s[i]) == Next(d, [])
    ensures Reads(d, s, [], d)
    decreases |s|
  {
    if s == [] {
      ReadsNothing(d);
    } else {
      ReadsByte(d, s[0]);
      SkipsAll(d, s[1..]);
      SkipsThen(d, [s[0]], d, s[1..], d);
      assert [s[0]] + s[1..] == s;
    }
  }

  // ---------------------------------------------------------------- sizes

  const LOWER: string := "0123456789abcdef"
  const UPPER: string := "0123456789ABCDEF"

  /** A hexadecimal digit, written with a letter of either case. */
  datatype Digit = Digit(value: nat, upper: bool)

  predicate ValidDigit(d: Digit) { d.value < 16 }

  function DigitByte(d: Digit): Byte
    requires ValidDigit(d)
  {
    if d.upper then UPPER[d.value] as int else LOWER[d.value] as int
  }

  /** The byte stands for no digit. */
  ghost predicate NoDigit(b: Byte) { forall d :: ValidDigit(d) ==> DigitByte(d) != b }

  /** The decoder's table is the position among the digits. */
  lemma DigitIsPosition(d: Digit)
    requires ValidDigit(d)
    ensures DecodeHex(DigitByte(d)) == Some(d.value)
  {
  }

  lemma PositionIsDigit(b: Byte)
    ensures DecodeHex(b).Some? ==> DecodeHex(b).value < 16 && exists d :: ValidDigit(d) && d.value == DecodeHex(b).value && DigitByte(d) == b
    ensures NoDigit(b) <==> DecodeHex(b).None?
  {
    match DecodeHex(b)
    case Some(v) =>
      var d := Digit(v, b < 'a' as int);
      assert ValidDigit(d) && DigitByte(d) == b;
    case None =>
      forall d | ValidDigit(d) ensures DigitByte(d) != b { DigitIsPosition(d); }
  }

  predicate ValidDigits(ds: seq<Digit>) { forall i :: 0 <= i < |ds| ==> ValidDigit(ds[i]) }

  function DigitBytes(ds: seq<Digit>): (r: seq<Byte>)
    requires ValidDigits(ds)
    ensures |r| == |ds|
  {
    if ds == [] then [] else [DigitByte(ds[0])] + DigitBytes(ds[1..])
  }

  /** The number that the digits denote, each by its place. */
  function Number(ds: seq<Digit>): nat {
    if ds == [] then 0 else ds[0].value * Pow16(|ds| - 1) + Number(ds[1..])
  }

  /** What the decoder makes of the digits, having read `n` before. */
  function Accumulated(n: nat, ds: seq<Digit>): nat
    decreases |ds|
  {
    if ds == [] then n else Accumulated(n * 16 + ds[0].value, ds[1..])
  }

  lemma PlaceValue(n: nat, v: nat, p: nat)
    ensures (n * 16 + v) * p == n * (16 * p) + v * p
  {
  }

  lemma {:induction false} AccumulatedIs(n: nat, ds: seq<Digit>)
    ensures Accumulated(n, ds) == n * Pow16(|ds|) + Number(ds)
    decreases |ds|
  {
    if ds != [] {
      AccumulatedIs(n * 16 + ds[0].value, ds[1..]);
      PlaceValue(n, ds[0].value, Pow16(|ds| - 1));
    }
  }

  /** The decoder reading a size. */
  function Sizing(n: nat, count: nat, trailer: bool): Decoder { Decoder(ChunkSize, n, count, trailer) }

  lemma ReadsDigit(n: nat, count: nat, trailer: bool, d: Digit)
    requires ValidDigit(d) && count < MAX_HEX_DIGITS
    ensures Reads(Sizing(n, count, trailer), [DigitByte(d)], [], Sizing(n * 16 + d.value, count + 1, trailer))
  {
    DigitIsPosition(d);
    ReadsByte(Sizing(n, count, trailer), DigitByte(d));
  }

  lemma ReadsDigitThen(n: nat, count: nat, trailer: bool, d: Digit, piece: seq<Byte>, to: Decoder)
    requires ValidDigit(d) && count < MAX_HEX_DIGITS && Reads(Sizing(n * 16 + d.value, count + 1, trailer), piece, [], to)
    ensures Reads(Sizing(n, count, trailer), [DigitByte(d)] + piece, [], to)
  {
    ReadsDigit(n, count, trailer, d);
    SkipsThen(Sizing(n, count, trailer), [DigitByte(d)], Sizing(n * 16 + d.value, count + 1, trailer), piece, to);
  }

  /** Where the digits take it. */
  function Sized(n: nat, count: nat, trailer: bool, ds: seq<Digit>): Decoder { Sizing(Accumulated(n, ds), count + |ds|, trailer) }

  lemma SizedCons(n: nat, count: nat, trailer: bool, ds: seq<Digit>)
    requires ds != []
    ensures Sized(n, count, trailer, ds) == Sized(n * 16 + ds[0].value, count + 1, trailer, ds[1..])
  {
  }

  lemma {:induction false} ReadsAllDigits(n: nat, count: nat, trailer: bool, ds: seq<Digit>, to: Decoder)
    requires ValidDigits(ds) && count + |ds| <= MAX_HEX_DIGITS && to == Sized(n, count, trailer, ds)
    ensures Reads(Sizing(n, count, trailer), DigitBytes(ds), [], to)
    decreases |ds|
  {
    if ds == [] {
      ReadsNothing(to);
    } else {
      var d, rest := ds[0], ds[1..];
      SizedCons(n, count, trailer, ds);
      ReadsAllDigits(n * 16 + d.value, count + 1, trailer, rest, to);
      ReadsDigitThen(n, count, trailer, d, DigitBytes(rest), to);
      assert DigitBytes(ds) == [DigitByte(d)] + DigitBytes(rest);
    }
  }

  lemma ReadsDigits(trailer: bool, ds: seq<Digit>)
    requires ValidDigits(ds) && |ds| <= MAX_HEX_DIGITS
    ensures Reads(Initial(trailer), DigitBytes(ds), [], Sizing(Number(ds), |ds|, trailer))
  {
    ReadsAllDigits(0, 0, trailer, ds, Sized(0, 0, trailer, ds));
    AccumulatedIs(0, ds);
  }

  // ---------------------------------------------------------------- size lines

  predicate NoLineFeed(s: seq<Byte>) { forall i :: 0 <= i < |s| ==> s[i] != LF }

  /** Digits, leading zeros among them, then anything that is not a digit up to the line feed. */
  datatype SizeLine = SizeLine(digits: seq<Digit>, ext: seq<Byte>)

  ghost predicate ValidLine(l: SizeLine) {
    1 <= |l.digits| <= MAX_HEX_DIGITS && ValidDigits(l.digits) && ValidExt(l.ext)
  }

  ghost predicate ValidExt(ext: seq<Byte>) { NoLineFeed(ext) && (ext != [] ==> NoDigit(ext[0])) }

  function LineBytes(l: SizeLine): seq<Byte>
    requires ValidDigits(l.digits)
  {
    DigitBytes(l.digits) + (l.ext + [LF])
  }

  /** Where the decoder goes on after a size line; without trailers, a size of zero is the end. */
  function AfterLine(n: nat, trailer: bool): Decoder {
    if n > 0 then Decoder(ChunkData, n, 0, trailer) else Decoder(TrailersLineHead, 0, 0, trailer)
  }

  ghost predicate ReadsLine(d: Decoder, piece: seq<Byte>, n: nat, trailer: bool) {
    if n > 0 || trailer then Reads(d, piece, [], AfterLine(n, trailer)) else Ends(d, piece, [])
  }

  lemma LineThen(d: Decoder, p: seq<Byte>, d': Decoder, q: seq<Byte>, n: nat, trailer: bool)
    requires Reads(d, p, [], d') && ReadsLine(d', q, n, trailer)
    ensures ReadsLine(d, p + q, n, trailer)
  {
    if n > 0 || trailer { SkipsThen(d, p, d', q, AfterLine(n, trailer)); } else { SkipsThenEnds(d, p, d', q); }
  }

  lemma ReadsExt(n: nat, trailer: bool, ext: seq<Byte>)
    requires NoLineFeed(ext)
    ensures ReadsLine(Decoder(ChunkExt, n, 0, trailer), ext + [LF], n, trailer)
  {
    var d := Decoder(ChunkExt, n, 0, trailer);
    SkipsAll(d, ext);
    ReadsByte(d, LF);
    LineThen(d, ext, d, [LF], n, trailer);
  }

  /** A byte that is not a digit ends the size, if there is one. */
  lemma EndsSize(n: nat, count: nat, trailer: bool, b: Byte)
    requires count > 0 && NoDigit(b)
    ensures StepByte(Sizing(n, count, trailer), b) == StepByte(Decoder(ChunkExt, n, 0, trailer), b)
  {
    PositionIsDigit(b);
  }

  lemma LineFeedIsNoDigit()
    ensures NoDigit(LF)
  {
    PositionIsDigit(LF);
  }

  lemma ReadsSizeEnd(n: nat, count: nat, trailer: bool, ext: seq<Byte>)
    requires count > 0 && ValidExt(ext)
    ensures ReadsLine(Sizing(n, count, trailer), ext + [LF], n, trailer)
  {
    var d, e := Sizing(n, count, trailer), Decoder(ChunkExt, n, 0, trailer);
    if ext == [] {
      LineFeedIsNoDigit();
      EndsSize(n, count, trailer, LF);
      ReadsByte(d, LF);
      assert ext + [LF] == [LF];
    } else {
      EndsSize(n, count, trailer, ext[0]);
      ReadsByte(d, ext[0]);
      ReadsExt(n, trailer, ext[1..]);
      LineThen(d, [ext[0]], e, ext[1..] + [LF], n, trailer);
      assert [ext[0]] + (ext[1..] + [LF]) == ext + [LF];
    }
  }

  lemma ReadsSizeLine(l: SizeLine, trailer: bool)
    requires ValidLine(l)
    ensures ReadsLine(Initial(trailer), LineBytes(l), Number(l.digits), trailer)
  {
    var n, k := Number(l.digits), |l.digits|;
    ReadsDigits(trailer, l.digits);
    ReadsSizeEnd(n, k, trailer, l.ext);
    LineThen(Initial(trailer), DigitBytes(l.digits), Sizing(n, k, trailer), l.ext + [LF], n, trailer);
  }

  // ---------------------------------------------------------------- chunks

  function Repeat(b: Byte, n: nat): (r: seq<Byte>)
    ensures |r| == n && forall i :: 0 <= i < n ==> r[i] == b
  {
    if n == 0 then [] else [b] + Repeat(b, n - 1)
  }

  /** Any number of carriage returns, and a line feed. */
  function EndBytes(n: nat): seq<Byte> { Repeat(CR, n) + [LF] }

  /** Data of the size its line says, then the end of a line. */
  datatype Chunk = Chunk(line: SizeLine, data: seq<Byte>, ends: nat)

  ghost predicate ValidChunk(c: Chunk) { ValidLine(c.line) && Number(c.line.digits) == |c.data| > 0 }

  function ChunkBytes(c: Chunk): seq<Byte>
    requires ValidDigits(c.line.digits)
  {
    LineBytes(c.line) + (c.data + EndBytes(c.ends))
  }

  function Crlf(trailer: bool): Decoder { Decoder(ChunkCrlf, 0, 0, trailer) }

  lemma ReadsEnd(n: nat, trailer: bool)
    ensures Reads(Crlf(trailer), EndBytes(n), [], Initial(trailer))
  {
    SkipsAll(Crlf(trailer), Repeat(CR, n));
    ReadsByte(Crlf(trailer), LF);
    SkipsThen(Crlf(trailer), Repeat(CR, n), Crlf(trailer), [LF], Initial(trailer));
  }

  lemma ReadsData(data: seq<Byte>, trailer: bool)
    requires data != []
    ensures Reads(Decoder(ChunkData, |data|, 0, trailer), data, data, Crlf(trailer))
  {
    var d := Decoder(ChunkData, |data|, 0, trailer);
    forall rest ensures After(d, data, rest) == Prepend(|data|, data, Run(Crlf(trailer), rest)) {
      RunData(d, data + rest, |data|);
      assert (data + rest)[..|data|] == data && (data + rest)[|data|..] == rest;
    }
  }

  lemma ReadsChunk(c: Chunk, trailer: bool)
    requires ValidChunk(c)
    ensures Reads(Initial(trailer), ChunkBytes(c), c.data, Initial(trailer))
  {
    var d := Decoder(ChunkData, |c.data|, 0, trailer);
    ReadsSizeLine(c.line, trailer);
    ReadsData(c.data, trailer);
    ReadsEnd(c.ends, trailer);
    ReadsThen(d, c.data, c.data, Crlf(trailer), EndBytes(c.ends), [], Initial(trailer));
    assert c.data + [] == c.data && [] + c.data == c.data;
    ReadsThen(Initial(trailer), LineBytes(c.line), [], d, c.data + EndBytes(c.ends), c.data, Initial(trailer));
  }

  ghost predicate ValidChunks(cs: seq<Chunk>) { forall i :: 0 <= i < |cs| ==> ValidChunk(cs[i]) }

  ghost function ChunksBytes(cs: seq<Chunk>): seq<Byte>
    requires ValidChunks(cs)
  {
    if cs == [] then [] else ChunkBytes(cs[0]) + ChunksBytes(cs[1..])
  }

  function AllData(cs: seq<Chunk>): seq<Byte> {
    if cs == [] then [] else cs[0].data + AllData(cs[1..])
  }

  lemma {:induction false} ReadsChunks(cs: seq<Chunk>, trailer: bool)
    requires ValidChunks(cs)
    ensures Reads(Initial(trailer), ChunksBytes(cs), AllData(cs), Initial(trailer))
    decreases |cs|
  {
    var d := Initial(trailer);
    if cs == [] {
      ReadsNothing(d);
    } else {
      ReadsChunk(cs[0], trailer);
      ReadsChunks(cs[1..], trailer);
      ReadsThen(d, ChunkBytes(cs[0]), cs[0].data, d, ChunksBytes(cs[1..]), AllData(cs[1..]), d);
    }
  }

  // ---------------------------------------------------------------- trailers

  /** A line that is not empty: carriage returns, another byte, and anything up to the line feed. */
  datatype TrailerLine = TrailerLine(ends: nat, first: Byte, more: seq<Byte>)

  predicate ValidTrailerLine(l: TrailerLine) { l.first != CR && l.first != LF && NoLineFeed(l.more) }

  function TrailerLineBytes(l: TrailerLine): seq<Byte> { Repeat(CR, l.ends) + ([l.first] + (l.more + [LF])) }

  function Head(): Decoder { Decoder(TrailersLineHead, 0, 0, true) }

  function Middle(): Decoder { Decoder(TrailersLineMiddle, 0, 0, true) }

  lemma ReadsTrailerLine(l: TrailerLine)
    requires ValidTrailerLine(l)
    ensures Reads(Head(), TrailerLineBytes(l), [], Head())
  {
    SkipsAll(Head(), Repeat(CR, l.ends));
    ReadsByte(Head(), l.first);
    SkipsAll(Middle(), l.more);
    ReadsByte(Middle(), LF);
    SkipsThen(Middle(), l.more, Middle(), [LF], Head());
    SkipsThen(Head(), [l.first], Middle(), l.more + [LF], Head());
    SkipsThen(Head(), Repeat(CR, l.ends), Head(), [l.first] + (l.more + [LF]), Head());
  }

  predicate ValidTrailers(ls: seq<TrailerLine>) { forall i :: 0 <= i < |ls| ==> ValidTrailerLine(ls[i]) }

  function TrailersBytes(ls: seq<TrailerLine>): seq<Byte> {
    if ls == [] then [] else TrailerLineBytes(ls[0]) + TrailersBytes(ls[1..])
  }

  lemma {:induction false} ReadsTrailers(ls: seq<TrailerLine>)
    requires ValidTrailers(ls)
    ensures Reads(Head(), TrailersBytes(ls), [], Head())
    decreases |ls|
  {
    if ls == [] {
      ReadsNothing(Head());
    } else {
      ReadsTrailerLine(ls[0]);
      ReadsTrailers(ls[1..]);
      SkipsThen(Head(), TrailerLineBytes(ls[0]), Head(), TrailersBytes(ls[1..]), Head());
    }
  }

  /** The trailer lines and the empty line after them. */
  lemma TrailersEnd(ls: seq<TrailerLine>, n: nat)
    requires ValidTrailers(ls)
    ensures Ends(Head(), TrailersBytes(ls) + EndBytes(n), [])
  {
    ReadsTrailers(ls);
    SkipsAll(Head(), Repeat(CR, n));
    ReadsByte(Head(), LF);
    SkipsThenEnds(Head(), Repeat(CR, n), Head(), [LF]);
    SkipsThenEnds(Head(), TrailersBytes(ls), Head(), EndBytes(n));
  }

  // ---------------------------------------------------------------- bodies

  /** Chunks, a line with the size zero, and, if the decoder is to consume them, the trailer lines and an empty line. */
  datatype Body = Body(chunks: seq<Chunk>, last: SizeLine, trailers: seq<TrailerLine>, ends: nat)

  ghost predicate ValidBody(b: Body) {
    ValidChunks(b.chunks) && ValidLine(b.last) && Number(b.last.digits) == 0 && ValidTrailers(b.trailers)
  }

  function TrailerBytes(b: Body, trailer: bool): seq<Byte> { if trailer then TrailersBytes(b.trailers) + EndBytes(b.ends) else [] }

  ghost function BodyBytes(b: Body, trailer: bool): seq<Byte>
    requires ValidBody(b)
  {
    ChunksBytes(b.chunks) + (LineBytes(b.last) + TrailerBytes(b, trailer))
  }

  lemma LastLineEnds(b: Body, trailer: bool)
    requires ValidBody(b)
    ensures Ends(Initial(trailer), LineBytes(b.last) + TrailerBytes(b, trailer), [])
  {
    ReadsSizeLine(b.last, trailer);
    if trailer {
      TrailersEnd(b.trailers, b.ends);
      SkipsThenEnds(Initial(trailer), LineBytes(b.last), Head(), TrailerBytes(b, trailer));
    } else {
      assert LineBytes(b.last) + TrailerBytes(b, trailer) == LineBytes(b.last);
    }
  }

  /** Every body of the grammar is decoded to its data, and to its last byte, whatever follows. */
  lemma BodyIsDecoded(b: Body, trailer: bool, rest: seq<Byte>)
    requires ValidBody(b)
    ensures EndsWith(Run(Initial(trailer), BodyBytes(b, trailer) + rest), |BodyBytes(b, trailer)|, AllData(b.chunks))
  {
    ReadsChunks(b.chunks, trailer);
    LastLineEnds(b, trailer);
    ReadsThenEnds(Initial(trailer), ChunksBytes(b.chunks), AllData(b.chunks), Initial(trailer), LineBytes(b.last) + TrailerBytes(b, trailer), []);
    assert AllData(b.chunks) + [] == AllData(b.chunks);
    assert EndsWith(After(Initial(trailer), BodyBytes(b, trailer), rest), |BodyBytes(b, trailer)|, AllData(b.chunks));
  }

  // ---------------------------------------------------------------- nothing else is accepted

  ghost predicate Accepts(d: Decoder, input: seq<Byte>) { Run(d, input).verdict == Done }

  /** What is read before does not decide. */
  lemma AcceptsRest(d: Decoder, piece: seq<Byte>, out: seq<Byte>, to: Decoder, rest: seq<Byte>)
    requires Reads(d, piece, out, to)
    ensures Accepts(d, piece + rest) <==> Accepts(to, rest)
  {
    assert After(d, piece, rest) == Prepend(|piece|, out, Run(to, rest));
  }

  /** Only a digit can begin a size. */
  lemma FirstByteIsDigit(b: Byte, trailer: bool, rest: seq<Byte>)
    ensures NoDigit(b) ==> Run(Initial(trailer), [b] + rest) == Outcome(Initial(trailer), 0, [], Invalid)
  {
    PositionIsDigit(b);
  }

  /** And no more than sixteen digits can make one up. */
  lemma TooManyDigits(ds: seq<Digit>, trailer: bool, rest: seq<Byte>)
    requires ValidDigits(ds) && |ds| == MAX_HEX_DIGITS + 1
    ensures Run(Initial(trailer), DigitBytes(ds) + rest).verdict == Invalid
  {
    var most, last := ds[..MAX_HEX_DIGITS], ds[MAX_HEX_DIGITS];
    DigitBytesSnoc(most, last);
    assert ds == most + [last];
    ReadsDigits(trailer, most);
    Regroup(DigitBytes(most), [DigitByte(last)], rest);
    var d := Sizing(Number(most), MAX_HEX_DIGITS, trailer);
    assert After(Initial(trailer), DigitBytes(most), [DigitByte(last)] + rest) == Prepend(MAX_HEX_DIGITS, [], Run(d, [DigitByte(last)] + rest));
    DigitIsPosition(last);
  }

  lemma {:induction false} DigitBytesSnoc(ds: seq<Digit>, d: Digit)
    requires ValidDigits(ds) && ValidDigit(d)
    ensures ValidDigits(ds + [d]) && DigitBytes(ds + [d]) == DigitBytes(ds) + [DigitByte(d)]
  {
    if ds == [] {
      assert ds + [d] == [d];
    } else {
      DigitBytesSnoc(ds[1..], d);
      assert (ds + [d])[1..] == ds[1..] + [d];
    }
  }

  lemma DigitsCons(d: Digit, ds: seq<Digit>, rest: seq<Byte>)
    requires ValidDigit(d) && ValidDigits(ds)
    ensures ValidDigits([d] + ds) && DigitBytes([d] + ds) + rest == [DigitByte(d)] + (DigitBytes(ds) + rest)
  {
    assert ([d] + ds)[1..] == ds;
  }

  lemma FindDigit(n: nat, count: nat, trailer: bool, input: seq<Byte>) returns (d: Digit, rest: seq<Byte>)
    requires count <= MAX_HEX_DIGITS && Accepts(Sizing(n, count, trailer), input) && !NoDigit(input[0])
    ensures ValidDigit(d) && input == [DigitByte(d)] + rest
    ensures count < MAX_HEX_DIGITS && Accepts(Sizing(n * 16 + d.value, count + 1, trailer), rest)
  {
    PositionIsDigit(input[0]);
    rest := input[1..];
    d :| ValidDigit(d) && d.value == DecodeHex(input[0]).value && DigitByte(d) == input[0];
    ReadsDigit(n, count, trailer, d);
    AcceptsRest(Sizing(n, count, trailer), [DigitByte(d)], [], Sizing(n * 16 + d.value, count + 1, trailer), rest);
  }

  lemma {:induction false} FindDigits(n: nat, count: nat, trailer: bool, input: seq<Byte>) returns (ds: seq<Digit>, rest: seq<Byte>)
    requires count <= MAX_HEX_DIGITS && Accepts(Sizing(n, count, trailer), input)
    ensures ValidDigits(ds) && 0 < count + |ds| <= MAX_HEX_DIGITS && input == DigitBytes(ds) + rest
    ensures rest != [] && NoDigit(rest[0])
    decreases |input|
  {
    if NoDigit(input[0]) {
      PositionIsDigit(input[0]);
      ds, rest := [], input;
    } else {
      var d, tail := FindDigit(n, count, trailer, input);
      var more;
      more, rest := FindDigits(n * 16 + d.value, count + 1, trailer, tail);
      ds := [d] + more;
      DigitsCons(d, more, rest);
    }
  }

  /** A decoder that waits for a line feed without failing. */
  lemma {:induction false} FindLineFeed(d: Decoder, input: seq<Byte>) returns (s: seq<Byte>, rest: seq<Byte>)
    requires Accepts(d, input) && forall b: Byte :: b != LF ==> StepByte(d, b) == Next(d, [])
    ensures NoLineFeed(s) && input == s + [LF] + rest
    decreases |input|
  {
    if input[0] == LF {
      s, rest := [], input[1..];
    } else {
      s, rest := FindLineFeed(d, input[1..]);
      s := [input[0]] + s;
    }
  }

  /** The same for one that only carriage returns do not move. */
  lemma {:induction false} FindReturns(d: Decoder, input: seq<Byte>) returns (n: nat, rest: seq<Byte>)
    requires Accepts(d, input) && StepByte(d, CR) == Next(d, [])
    ensures input == Repeat(CR, n) + rest && rest != [] && rest[0] != CR && Accepts(d, rest)
    decreases |input|
  {
    if input[0] == CR {
      n, rest := FindReturns(d, input[1..]);
      n := n + 1;
    } else {
      n, rest := 0, input;
    }
  }

  lemma FindLine(trailer: bool, input: seq<Byte>) returns (l: SizeLine, rest: seq<Byte>)
    requires Accepts(Initial(trailer), input)
    ensures ValidLine(l) && input == LineBytes(l) + rest
    ensures Number(l.digits) > 0 || trailer ==> Accepts(AfterLine(Number(l.digits), trailer), rest)
  {
    var ds, tail := FindDigits(0, 0, trailer, input);
    var n := Number(ds);
    ReadsDigits(trailer, ds);
    AcceptsRest(Initial(trailer), DigitBytes(ds), [], Sizing(n, |ds|, trailer), tail);
    EndsSize(n, |ds|, trailer, tail[0]);
    var ext;
    ext, rest := FindLineFeed(Decoder(ChunkExt, n, 0, trailer), tail);
    l := SizeLine(ds, ext);
    assert tail[0] == if ext == [] then LF else ext[0];
    assert input == LineBytes(l) + rest;
    ReadsSizeLine(l, trailer);
    if n > 0 || trailer { AcceptsRest(Initial(trailer), LineBytes(l), [], AfterLine(n, trailer), rest); }
  }

  lemma TooLittleData(n: nat, trailer: bool, input: seq<Byte>)
    requires |input| < n
    ensures !Accepts(Decoder(ChunkData, n, 0, trailer), input)
  {
    RunData(Decoder(ChunkData, n, 0, trailer), input, |input|);
  }

  lemma FindData(n: nat, trailer: bool, input: seq<Byte>) returns (data: seq<Byte>, rest: seq<Byte>)
    requires n > 0 && Accepts(Decoder(ChunkData, n, 0, trailer), input)
    ensures |data| == n && input == data + rest && Accepts(Crlf(trailer), rest)
  {
    var d := Decoder(ChunkData, n, 0, trailer);
    if |input| < n { TooLittleData(n, trailer, input); }
    data, rest := input[..n], input[n..];
    ReadsData(data, trailer);
    AcceptsRest(d, data, data, Crlf(trailer), rest);
  }

  lemma FindEnd(trailer: bool, input: seq<Byte>) returns (n: nat, rest: seq<Byte>)
    requires Accepts(Crlf(trailer), input)
    ensures input == EndBytes(n) + rest && Accepts(Initial(trailer), rest)
  {
    var tail;
    n, tail := FindReturns(Crlf(trailer), input);
    rest := tail[1..];
    assert input == EndBytes(n) + rest;
    ReadsEnd(n, trailer);
    AcceptsRest(Crlf(trailer), EndBytes(n), [], Initial(trailer), rest);
  }

  lemma FindChunk(l: SizeLine, trailer: bool, input: seq<Byte>, tail: seq<Byte>) returns (c: Chunk, rest: seq<Byte>)
    requires ValidLine(l) && Number(l.digits) > 0 && input == LineBytes(l) + tail && Accepts(AfterLine(Number(l.digits), trailer), tail)
    ensures ValidChunk(c) && input == ChunkBytes(c) + rest && Accepts(Initial(trailer), rest)
  {
    var data, more := FindData(Number(l.digits), trailer, tail);
    var n;
    n, rest := FindEnd(trailer, more);
    c := Chunk(l, data, n);
  }

  lemma FindTrailerLine(n: nat, input: seq<Byte>) returns (l: TrailerLine, rest: seq<Byte>)
    requires Accepts(Head(), Repeat(CR, n) + input) && Accepts(Head(), input) && input[0] != CR && input[0] != LF
    ensures ValidTrailerLine(l) && Repeat(CR, n) + input == TrailerLineBytes(l) + rest && Accepts(Head(), rest)
  {
    var more;
    more, rest := FindLineFeed(Middle(), input[1..]);
    l := TrailerLine(n, input[0], more);
    assert input == [input[0]] + (more + [LF]) + rest;
    assert Repeat(CR, n) + input == TrailerLineBytes(l) + rest;
    ReadsTrailerLine(l);
    AcceptsRest(Head(), TrailerLineBytes(l), [], Head(), rest);
  }

  lemma {:induction false} FindTrailers(input: seq<Byte>) returns (ls: seq<TrailerLine>, n: nat, rest: seq<Byte>)
    requires Accepts(Head(), input)
    ensures ValidTrailers(ls) && input == TrailersBytes(ls) + EndBytes(n) + rest
    decreases |input|
  {
    var tail;
    n, tail := FindReturns(Head(), input);
    if tail[0] == LF {
      ls, rest := [], tail[1..];
      assert input == TrailersBytes(ls) + EndBytes(n) + rest;
    } else {
      var l, after := FindTrailerLine(n, tail);
      var more;
      more, n, rest := FindTrailers(after);
      ls := [l] + more;
      TrailersCons(l, more, n, rest);
    }
  }

  lemma TrailersCons(l: TrailerLine, ls: seq<TrailerLine>, n: nat, rest: seq<Byte>)
    ensures TrailersBytes([l] + ls) + EndBytes(n) + rest == TrailerLineBytes(l) + (TrailersBytes(ls) + EndBytes(n) + rest)
  {
    assert ([l] + ls)[1..] == ls;
  }

  lemma ChunksCons(c: Chunk, cs: seq<Chunk>, last: seq<Byte>, rest: seq<Byte>)
    requires ValidChunk(c) && ValidChunks(cs)
    ensures ValidChunks([c] + cs) && ChunksBytes([c] + cs) + last + rest == ChunkBytes(c) + (ChunksBytes(cs) + last + rest)
  {
    assert ([c] + cs)[1..] == cs;
  }

  /** What the decoder accepts begins with a body of the grammar. */
  lemma {:induction false} FindBody(trailer: bool, input: seq<Byte>) returns (b: Body, rest: seq<Byte>)
    requires Accepts(Initial(trailer), input)
    ensures ValidBody(b) && input == BodyBytes(b, trailer) + rest
    decreases |input|
  {
    var l, tail := FindLine(trailer, input);
    if Number(l.digits) > 0 {
      var c, more := FindChunk(l, trailer, input, tail);
      var b';
      b', rest := FindBody(trailer, more);
      b := b'.(chunks := [c] + b'.chunks);
      ChunksCons(c, b'.chunks, LineBytes(b.last) + TrailerBytes(b, trailer), rest);
    } else if trailer {
      var ls, n;
      ls, n, rest := FindTrailers(tail);
      b := Body([], l, ls, n);
      assert input == BodyBytes(b, trailer) + rest;
    } else {
      b, rest := Body([], l, [], 0), tail;
      assert input == BodyBytes(b, trailer) + rest;
    }
  }

  ghost predicate BeginsWith(input: seq<Byte>, b: Body, trailer: bool) { ValidBody(b) && BodyBytes(b, trailer) <= input }

  /** The decoder comes to the end of a body exactly on inputs that begin with one, and then delivers its data. */
  lemma AcceptsTheGrammar(trailer: bool, input: seq<Byte>)
    ensures Run(Initial(trailer), input).verdict == Done <==> exists b :: BeginsWith(input, b, trailer)
    ensures forall b :: BeginsWith(input, b, trailer) ==>
              EndsWith(Run(Initial(trailer), input), |BodyBytes(b, trailer)|, AllData(b.chunks))
  {
    if Run(Initial(trailer), input).verdict == Done {
      var b, rest := FindBody(trailer, input);
      assert BeginsWith(input, b, trailer);
    }
    forall b | BeginsWith(input, b, trailer)
      ensures EndsWith(Run(Initial(trailer), input), |BodyBytes(b, trailer)|, AllData(b.chunks))
    {
      var rest := input[|BodyBytes(b, trailer)|..];
      assert input == BodyBytes(b, trailer) + rest;
      BodyIsDecoded(b, trailer, rest);
    }
  }

  // ---------------------------------------------------------------- and it fails as early as it can

  /** A line with the size zero, and an empty line if trailers are to come. */
  lemma CompleteSize(trailer: bool) returns (t: seq<Byte>)
    ensures Ends(Initial(trailer), t, [])
  {
    var b := Body([], SizeLine([Digit(0, false)], []), [], 0);
    LastLineEnds(b, trailer);
    t := LineBytes(b.last) + TrailerBytes(b, trailer);
  }

  lemma CompleteData(n: nat, trailer: bool) returns (t: seq<Byte>, out: seq<Byte>)
    requires n > 0
    ensures Ends(Decoder(ChunkData, n, 0, trailer), t, out)
  {
    var last := CompleteSize(trailer);
    ReadsEnd(0, trailer);
    SkipsThenEnds(Crlf(trailer), EndBytes(0), Initial(trailer), last);
    out := Repeat(0, n);
    ReadsData(out, trailer);
    ReadsThenEnds(Decoder(ChunkData, n, 0, trailer), out, out, Crlf(trailer), EndBytes(0) + last, []);
    t := out + (EndBytes(0) + last);
    out := out + [];
  }

  lemma CompleteTrailers(d: Decoder) returns (t: seq<Byte>)
    requires d.mode == TrailersLineHead || d.mode == TrailersLineMiddle
    ensures Ends(d, t, [])
  {
    var head := d.(mode := TrailersLineHead);
    ReadsByte(head, LF);
    t := [LF];
    if d.mode == TrailersLineMiddle {
      ReadsByte(d, LF);
      SkipsThenEnds(d, [LF], head, [LF]);
      t := [LF] + [LF];
    }
  }

  lemma CompleteSizeLine(d: Decoder, n: nat, trailer: bool) returns (t: seq<Byte>, out: seq<Byte>)
    requires ReadsLine(d, [LF], n, trailer)
    ensures Ends(d, t, out)
  {
    if n == 0 && !trailer {
      t, out := [LF], [];
    } else {
      var more;
      if n > 0 {
        more, out := CompleteData(n, trailer);
      } else {
        more := CompleteTrailers(AfterLine(n, trailer));
        out := [];
      }
      ReadsThenEnds(d, [LF], [], AfterLine(n, trailer), more, out);
      t, out := [LF] + more, [] + out;
    }
  }

  lemma Complete(d: Decoder) returns (t: seq<Byte>, out: seq<Byte>)
    requires Valid(d)
    ensures Ends(d, t, out)
  {
    match d.mode
    case ChunkSize =>
      if d.hexCount == 0 {
        t := CompleteSize(d.consumeTrailer);
        out := [];
      } else {
        ReadsSizeEnd(d.bytesLeft, d.hexCount, d.consumeTrailer, []);
        assert [] + [LF] == [LF];
        t, out := CompleteSizeLine(d, d.bytesLeft, d.consumeTrailer);
      }
    case ChunkExt =>
      ReadsExt(d.bytesLeft, d.consumeTrailer, []);
      assert [] + [LF] == [LF];
      t, out := CompleteSizeLine(d, d.bytesLeft, d.consumeTrailer);
    case ChunkData => t, out := CompleteData(d.bytesLeft, d.consumeTrailer);
    case ChunkCrlf =>
      var last := CompleteSize(d.consumeTrailer);
      ReadsEnd(0, d.consumeTrailer);
      SkipsThenEnds(d, EndBytes(0), Initial(d.consumeTrailer), last);
      t, out := EndBytes(0) + last, [];
    case _ =>
      t := CompleteTrailers(d);
      out := [];
  }

  /** The bytes are the beginning, but not the whole, of a body of the grammar. */
  ghost predicate Unfinished(input: seq<Byte>, b: Body, trailer: bool) { ValidBody(b) && input < BodyBytes(b, trailer) }

  lemma MoreIsUnfinished(trailer: bool, input: seq<Byte>) returns (b: Body)
    requires Run(Initial(trailer), input).verdict == More
    ensures Unfinished(input, b, trailer)
  {
    var d := Run(Initial(trailer), input).decoder;
    RunValid(Initial(trailer), input);
    var t, out := Complete(d);
    assert EndsWith(After(d, t, []), |t|, out);
    assert t + [] == t;
    RunSplit(Initial(trailer), input, t);
    var rest;
    b, rest := FindBody(trailer, input + t);
    BodyIsLonger(trailer, input, t, b, rest);
  }

  lemma BodyIsLonger(trailer: bool, input: seq<Byte>, t: seq<Byte>, b: Body, rest: seq<Byte>)
    requires ValidBody(b) && input + t == BodyBytes(b, trailer) + rest && Run(Initial(trailer), input).verdict == More
    ensures Unfinished(input, b, trailer)
  {
    var whole := BodyBytes(b, trailer);
    assert whole == (input + t)[..|whole|];
    if |whole| <= |input| {
      assert input == whole + input[|whole|..];
      BodyIsDecoded(b, trailer, input[|whole|..]);
    }
  }

  lemma UnfinishedIsMore(trailer: bool, input: seq<Byte>, b: Body)
    requires Unfinished(input, b, trailer)
    ensures Run(Initial(trailer), input).verdict == More
  {
    var whole := BodyBytes(b, trailer);
    BodyIsDecoded(b, trailer, []);
    assert whole + [] == whole && whole == input + whole[|input|..];
    RunSplit(Initial(trailer), input, whole[|input|..]);
    RunConsumed(Initial(trailer), input);
  }

  /** The decoder asks for more exactly while what it has can become a body; so it fails as soon as it cannot. */
  lemma FailsAtOnce(trailer: bool, input: seq<Byte>)
    ensures Run(Initial(trailer), input).verdict == More <==> exists b :: Unfinished(input, b, trailer)
    ensures Run(Initial(trailer), input).verdict == Invalid <==> forall b :: !Unfinished(input, b, trailer) && !BeginsWith(input, b, trailer)
  {
    AcceptsTheGrammar(trailer, input);
    if Run(Initial(trailer), input).verdict == More {
      var b := MoreIsUnfinished(trailer, input);
    }
    forall b | Unfinished(input, b, trailer) ensures Run(Initial(trailer), input).verdict == More { UnfinishedIsMore(trailer, input, b); }
  }

  // ---------------------------------------------------------------- what the encoder writes

  /** The digits of a number, without leading zeros. */
  function HexDigits(n: nat): seq<Digit> {
    if n < 16 then [Digit(n, true)] else HexDigits(n / 16) + [Digit(n % 16, true)]
  }

  lemma {:induction false} AccumulatedSnoc(n: nat, ds: seq<Digit>, d: Digit)
    ensures Accumulated(n, ds + [d]) == Accumulated(n, ds) * 16 + d.value
    decreases |ds|
  {
    if ds == [] {
      assert ds + [d] == [d];
    } else {
      assert (ds + [d])[1..] == ds[1..] + [d];
      AccumulatedSnoc(n * 16 + ds[0].value, ds[1..], d);
    }
  }

  lemma NumberSnoc(ds: seq<Digit>, d: Digit)
    ensures Number(ds + [d]) == Number(ds) * 16 + d.value
  {
    AccumulatedIs(0, ds);
    AccumulatedIs(0, ds + [d]);
    AccumulatedSnoc(0, ds, d);
  }

  /** Upper-case digits without leading zeros. */
  predicate Canonical(ds: seq<Digit>) {
    && |ds| > 0 && (forall i :: 0 <= i < |ds| ==> ds[i].upper)
    && (|ds| > 1 ==> ds[0].value > 0)
  }

  lemma HexCharIs(v: nat)
    requires v < 16
    ensures Encoder.HexChar(v) == DigitByte(Digit(v, true))
  {
  }

  lemma {:induction false} HexIs(n: nat)
    ensures var ds := HexDigits(n);
            ValidDigits(ds) && DigitBytes(ds) == Encoder.Hex(n) && Number(ds) == n && Canonical(ds) && (n > 0 ==> ds[0].value > 0)
  {
    HexCharIs(n % 16);
    if n >= 16 {
      HexIs(n / 16);
      DigitBytesSnoc(HexDigits(n / 16), Digit(n % 16, true));
      NumberSnoc(HexDigits(n / 16), Digit(n % 16, true));
    } else {
      assert Number([Digit(n, true)]) == n;
    }
  }

  function LineOf(size: nat): SizeLine { SizeLine(HexDigits(size), [CR]) }

  lemma LineIs(size: nat)
    requires size < U64_LIMIT
    ensures ValidLine(LineOf(size)) && Number(LineOf(size).digits) == size && LineBytes(LineOf(size)) == Encoder.Hex(size) + CRLF
  {
    HexIs(size);
    Pow16Split();
    Encoder.HexLength(size, MAX_HEX_DIGITS);
    PositionIsDigit(CR);
  }

  function ChunkOf(data: seq<Byte>): Chunk { Chunk(LineOf(|data|), data, 1) }

  function ChunksOf(chunks: seq<seq<Byte>>): (cs: seq<Chunk>)
    ensures |cs| == |chunks| && forall i :: 0 <= i < |cs| ==> cs[i] == ChunkOf(chunks[i])
  {
    if chunks == [] then [] else [ChunkOf(chunks[0])] + ChunksOf(chunks[1..])
  }

  lemma EndIsCrlf()
    ensures EndBytes(1) == CRLF
  {
    assert Repeat(CR, 1) == [CR];
  }

  lemma ChunkIs(data: seq<Byte>)
    requires 0 < |data| < U64_LIMIT
    ensures ValidChunk(ChunkOf(data)) && ChunkBytes(ChunkOf(data)) == Encoder.Hex(|data|) + CRLF + (data + CRLF)
  {
    LineIs(|data|);
    EndIsCrlf();
  }

  lemma {:induction false} ChunksAre(chunks: seq<seq<Byte>>)
    requires Encoder.Sized(chunks)
    ensures ValidChunks(ChunksOf(chunks))
    ensures Encoder.Chunks(false, chunks) + CRLF == CRLF + ChunksBytes(ChunksOf(chunks))
    ensures chunks != [] ==> Encoder.Chunks(true, chunks) + CRLF == ChunksBytes(ChunksOf(chunks))
  {
    if chunks != [] {
      ChunkIs(chunks[0]);
      ChunksAre(chunks[1..]);
      var cs := ChunksOf(chunks);
      assert cs[1..] == ChunksOf(chunks[1..]);
      Rearranged(Encoder.Hex(|chunks[0]|), chunks[0], Encoder.Chunks(false, chunks[1..]), ChunksBytes(cs[1..]));
    }
  }

  lemma Rearranged(size: seq<Byte>, data: seq<Byte>, rest: seq<Byte>, bytes: seq<Byte>)
    requires rest + CRLF == CRLF + bytes
    ensures [] + size + CRLF + data + rest + CRLF == size + CRLF + (data + CRLF) + bytes
    ensures CRLF + size + CRLF + data + rest + CRLF == CRLF + (size + CRLF + (data + CRLF) + bytes)
  {
    assert size + CRLF + data + rest + CRLF == size + CRLF + data + (rest + CRLF);
    assert size + CRLF + data + (CRLF + bytes) == size + CRLF + (data + CRLF) + bytes;
  }

  /** Every line ends with CRLF, sizes are canonical, and there are no extensions and no trailer lines. */
  ghost predicate Strict(b: Body) {
    && (forall i :: 0 <= i < |b.chunks| ==> StrictLine(b.chunks[i].line) && b.chunks[i].ends == 1)
    && StrictLine(b.last) && b.trailers == [] && b.ends == 1
  }

  predicate StrictLine(l: SizeLine) { Canonical(l.digits) && l.ext == [CR] }

  function BodyOf(chunks: seq<seq<Byte>>): Body { Body(ChunksOf(chunks), LineOf(0), [], 1) }

  lemma BodyIsStrict(chunks: seq<seq<Byte>>)
    ensures Strict(BodyOf(chunks))
  {
    forall n: nat ensures Canonical(HexDigits(n)) { HexIs(n); }
  }

  lemma LastIs(trailer: bool, before: seq<Byte>)
    ensures before + Encoder.LastChunk(trailer) == before + CRLF + (LineBytes(LineOf(0)) + TrailerBytes(BodyOf([]), trailer))
  {
    LineIs(0);
    EndIsCrlf();
    HexCharIs(0);
  }

  /**
    What the encoder writes of one chunk or more is a body of the strict grammar of RFC 7230: for each chunk
    its size, its data, and CRLF after each; then the size zero.  It has the chunks' data.
   */
  lemma EncodesStrictly(chunks: seq<seq<Byte>>, trailer: bool)
    requires Encoder.Sized(chunks) && chunks != []
    ensures var b := BodyOf(chunks);
            && ValidBody(b) && Strict(b) && Encoder.Encode(chunks, trailer) == BodyBytes(b, trailer)
            && |b.chunks| == |chunks| && forall i :: 0 <= i < |chunks| ==> b.chunks[i].data == chunks[i]
  {
    ChunksAre(chunks);
    LineIs(0);
    BodyIsStrict(chunks);
    LastIs(trailer, Encoder.Chunks(true, chunks));
  }
}
