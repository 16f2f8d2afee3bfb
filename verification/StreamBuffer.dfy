/**
  `StreamBuffer`: a byte stream between one producer and one consumer, kept in a fixed array at
  positions that grow without bound and are taken modulo its length.

  Every method is one atomic step of one side; the two sides may call theirs in any order.  A wait
  is a call that may be given any value the other side's position has had.
 */
module StreamBuffers {
  import opened Arithmetic
  import opened ByteTypes

  /** Part of the array. */
  datatype Region = Region(start: nat, len: nat)

  /** A buffer handed to the consumer: part of the array, or bytes copied to the temporary buffer. */
  datatype Piece = InRing(region: Region) | Copied(bytes: seq<Byte>)

  datatype Outcome<+T> =
    | Ready(value: T)
    /** The caller goes on waiting. */
    | NotYet
    | InvalidArgument
    | EndOfStream
    | Closed

  // ---------------------------------------------------------------- positions and slots

  /** Where a stream position is in an array of length `n`: `pos % n`. */
  function Slot(pos: nat, n: nat): (r: nat)
    requires n > 0
    ensures r < n
  {
    if pos < n then pos else Slot(pos - n, n)
  }

  lemma {:induction false} SlotIsMod(pos: nat, n: nat)
    requires n > 0
    ensures Slot(pos, n) == pos % n
  {
    if pos >= n {
      SlotIsMod(pos - n, n);
      ModPlus(pos - n, n);
    }
  }

  /** The slot `k` after the one of `pos`, with at most one wrap. */
  lemma {:induction false} SlotAfter(pos: nat, k: nat, n: nat)
    requires n > 0 && k < n
    ensures Slot(pos + k, n) == if Slot(pos, n) + k < n then Slot(pos, n) + k else Slot(pos, n) + k - n
  {
    if pos >= n { SlotAfter(pos - n, k, n); }
  }

  /** Two positions less than one lap apart have different slots. */
  lemma SlotsDistinct(x: nat, y: nat, n: nat)
    requires n > 0 && x < y < x + n
    ensures Slot(x, n) != Slot(y, n)
  {
    SlotAfter(x, y - x, n);
  }

  // ---------------------------------------------------------------- get_buffers

  /** The bytes at stream positions `pos` to `pos + count`, wherever they are in the ring. */
  function Window(ring: seq<Byte>, pos: nat, count: nat): (r: seq<Byte>)
    requires 0 < |ring|
    ensures |r| == count
    decreases count
  {
    if count == 0 then [] else [ring[Slot(pos, |ring|)]] + Window(ring, pos + 1, count - 1)
  }

  lemma {:induction false} WindowSplit(ring: seq<Byte>, pos: nat, a: nat, b: nat)
    requires 0 < |ring|
    ensures Window(ring, pos, a + b) == Window(ring, pos, a) + Window(ring, pos + a, b)
    decreases a
  {
    if a > 0 { WindowSplit(ring, pos + 1, a - 1, b); }
  }

  lemma {:induction false} WindowAt(ring: seq<Byte>, pos: nat, count: nat, k: nat)
    requires 0 < |ring| && k < count
    ensures Window(ring, pos, count)[k] == ring[Slot(pos + k, |ring|)]
    decreases count
  {
    if k > 0 { WindowAt(ring, pos + 1, count - 1, k - 1); }
  }

  /** Writing at a position past the window, but less than one lap, leaves it alone. */
  lemma {:induction false} WindowKept(ring: seq<Byte>, pos: nat, count: nat, at: nat, b: Byte)
    requires 0 < |ring| && pos + count <= at < pos + |ring|
    ensures Window(ring[Slot(at, |ring|) := b], pos, count) == Window(ring, pos, count)
    decreases count
  {
    if count > 0 {
      SlotsDistinct(pos, at, |ring|);
      WindowKept(ring, pos + 1, count - 1, at, b);
    }
  }

  /** Writing inside the window, less than one lap long, changes that byte. */
  lemma WindowSet(ring: seq<Byte>, pos: nat, count: nat, k: nat, b: Byte)
    requires 0 < |ring| && k < count <= |ring|
    ensures Window(ring[Slot(pos + k, |ring|) := b], pos, count) == Window(ring, pos, count)[k := b]
  {
    var ring' := ring[Slot(pos + k, |ring|) := b];
    forall j | 0 <= j < count ensures Window(ring', pos, count)[j] == Window(ring, pos, count)[k := b][j] {
      WindowAt(ring, pos, count, j);
      WindowAt(ring', pos, count, j);
      if j < k { SlotsDistinct(pos + j, pos + k, |ring|); }
      if j > k { SlotsDistinct(pos + k, pos + j, |ring|); }
    }
  }

  /** Without a wrap the window is a stretch of the array. */
  lemma WindowFlat(ring: seq<Byte>, pos: nat, count: nat)
    requires 0 < |ring| && Slot(pos, |ring|) + count <= |ring|
    ensures Window(ring, pos, count) == ring[Slot(pos, |ring|)..Slot(pos, |ring|) + count]
  {
    var first, window := Slot(pos, |ring|), Window(ring, pos, count);
    forall k | 0 <= k < count ensures window[k] == ring[first + k] {
      WindowAt(ring, pos, count, k);
      SlotAfter(pos, k, |ring|);
    }
  }

  predicate Within(region: Region, n: nat) { region.start + region.len <= n }

  function RegionBytes(ring: seq<Byte>, region: Region): seq<Byte>
    requires Within(region, |ring|)
  {
    ring[region.start..region.start + region.len]
  }

  /** At most two pieces of the array. */
  function GetBuffers(n: nat, offset: nat, count: nat): (r: seq<Region>)
    requires n > 0 && count <= n
    ensures 1 <= |r| <= 2 && Within(r[0], n) && (|r| == 2 ==> Within(r[1], n) && r[1].start == 0 && r[1].len > 0 && r[0].start + r[0].len == n)
  {
    var first := Slot(offset, n);
    if count <= n - first then [Region(first, count)] else [Region(first, n - first), Region(0, count - (n - first))]
  }

  function RegionsBytes(ring: seq<Byte>, regions: seq<Region>): seq<Byte>
    requires forall i :: 0 <= i < |regions| ==> Within(regions[i], |ring|)
  {
    if regions == [] then [] else RegionBytes(ring, regions[0]) + RegionsBytes(ring, regions[1..])
  }

  lemma {:induction false} SlotWraps(pos: nat, n: nat)
    requires n > 0
    ensures Slot(pos + (n - Slot(pos, n)), n) == 0
  {
    if pos >= n { SlotWraps(pos - n, n); }
  }

  lemma WindowWrapped(ring: seq<Byte>, offset: nat, count: nat, first: nat)
    requires 0 < |ring| && first == Slot(offset, |ring|) && |ring| - first < count <= |ring|
    ensures Window(ring, offset, count) == ring[first..] + ring[..count - (|ring| - first)]
  {
    var cut := |ring| - first;
    SlotWraps(offset, |ring|);
    WindowFlat(ring, offset, cut);
    WindowFlat(ring, offset + cut, count - cut);
    WindowSplit(ring, offset, cut, count - cut);
    assert cut + (count - cut) == count && ring[first..first + cut] == ring[first..] && ring[0..count - cut] == ring[..count - cut];
  }

  /** The pieces hold exactly the requested stretch of the stream, in order. */
  lemma GetBuffersIs(ring: seq<Byte>, offset: nat, count: nat)
    requires |ring| > 0 && count <= |ring|
    ensures RegionsBytes(ring, GetBuffers(|ring|, offset, count)) == Window(ring, offset, count)
  {
    var first := Slot(offset, |ring|);
    OneOrTwoRegions(ring, GetBuffers(|ring|, offset, count));
    if count <= |ring| - first {
      WindowFlat(ring, offset, count);
    } else {
      WindowWrapped(ring, offset, count, first);
    }
  }

  // ---------------------------------------------------------------- the buffer

  class StreamBuffer {
    const ring: array<Byte>
    var consumePos: nat
    var commitPos: nat
    var closedForRead: bool
    var closedForWrite: bool
    /** History: everything committed. */
    ghost var written: seq<Byte>
    /** How much the producer may still write, and the consumer read, without asking again. */
    ghost var prepared: nat
    ghost var fetched: nat

    ghost predicate Valid()
      reads this, ring
    {
      && ring.Length > 0 && |written| == commitPos
      && consumePos + fetched <= commitPos && commitPos + prepared <= consumePos + ring.Length
      && Unread() == written[consumePos..]
    }

    /** The committed bytes the consumer has not consumed, as they stand in the array. */
    ghost function Unread(): seq<Byte>
      requires ring.Length > 0 && consumePos <= commitPos <= consumePos + ring.Length
      reads this, ring
    {
      Window(ring[..], consumePos, commitPos - consumePos)
    }

    constructor (capacity: nat)
      requires capacity > 0
      ensures Valid() && fresh(ring) && ring.Length == capacity && written == [] && consumePos == 0
      ensures !closedForRead && !closedForWrite && prepared == 0 && fetched == 0
    {
      ring := new Byte[capacity](_ => 0);
      consumePos, commitPos, closedForRead, closedForWrite := 0, 0, false, false;
      written, prepared, fetched := [], 0, 0;
    }

    function Size(): nat
      requires consumePos <= commitPos
      reads this
    {
      commitPos - consumePos
    }

    function Space(): nat
      requires consumePos <= commitPos <= consumePos + ring.Length
      reads this
    {
      ring.Length - Size()
    }

    // ------------------------------------------------------------ the producer's steps

    /** `observed` is a value that the consumer's position has had. */
    method PrepareExactly(count: nat, observed: nat) returns (r: Outcome<seq<Region>>)
      requires Valid() && observed <= consumePos
      modifies this`prepared
      ensures Valid()
      ensures r.InvalidArgument? <==> count > ring.Length
      ensures r.Ready? ==> prepared == count && r.value == GetBuffers(ring.Length, commitPos, count)
      ensures !r.Ready? ==> prepared == old(prepared)
      ensures count <= ring.Length ==> (r.Ready? <==> commitPos + count <= observed + ring.Length)
      ensures count <= ring.Length && !r.Ready? ==> if closedForRead then r.Closed? else r.NotYet?
      ensures count <= Space() && observed == consumePos ==> r.Ready?
    {
      if count > ring.Length { return InvalidArgument; }
      if observed < commitPos + count - ring.Length {
        return if closedForRead then Closed else NotYet;
      }
      prepared := count;
      r := Ready(GetBuffers(ring.Length, commitPos, count));
    }

    method PrepareAtLeast(minCount: nat, observed: nat) returns (r: Outcome<seq<Region>>)
      requires Valid() && observed <= consumePos
      modifies this`prepared
      ensures Valid()
      ensures r.InvalidArgument? <==> minCount > ring.Length
      ensures r.Ready? ==> minCount <= prepared == Space() && r.value == GetBuffers(ring.Length, commitPos, prepared)
      ensures !r.Ready? ==> prepared == old(prepared)
      ensures minCount <= ring.Length ==> (r.Ready? <==> commitPos + minCount <= observed + ring.Length)
      ensures minCount <= ring.Length && !r.Ready? ==> if closedForRead then r.Closed? else r.NotYet?
      ensures minCount <= Space() && observed == consumePos ==> r.Ready?
    {
      if minCount > ring.Length { return InvalidArgument; }
      if observed < commitPos + minCount - ring.Length {
        return if closedForRead then Closed else NotYet;
      }
      prepared := Space();
      r := Ready(GetBuffers(ring.Length, commitPos, Space()));
    }

    /** What stands in the prepared space. */
    ghost function Draft(): seq<Byte>
      requires ring.Length > 0
      reads this, ring
    {
      Window(ring[..], commitPos, prepared)
    }

    /** The producer writes into its prepared space; nothing unread is touched. */
    method WriteByte(k: nat, b: Byte)
      requires Valid() && k < prepared
      modifies ring
      ensures Valid() && Unread() == old(Unread()) && Draft() == old(Draft())[k := b]
    {
      ghost var bytes := ring[..];
      WindowKept(bytes, consumePos, Size(), commitPos + k, b);
      WindowSet(bytes, commitPos, prepared, k, b);
      ring[Slot(commitPos + k, ring.Length)] := b;
      assert ring[..] == bytes[Slot(commitPos + k, |bytes|) := b];
    }

    /** The first `count` bytes of the prepared space become part of the stream. */
    method Commit(count: nat)
      requires Valid() && count <= prepared
      modifies this`commitPos, this`prepared, this`written
      ensures Valid() && written == old(written) + old(Draft())[..count] && commitPos == old(commitPos) + count
      ensures prepared == old(prepared) - count && Draft() == old(Draft())[count..]
    {
      WindowSplit(ring[..], consumePos, Size(), count);
      WindowSplit(ring[..], commitPos, count, prepared - count);
      written := written + Draft()[..count];
      commitPos, prepared := commitPos + count, prepared - count;
    }

    /** The space being written and the bytes not yet consumed are in different slots. */
    lemma NoOverlap(i: nat, j: nat)
      requires Valid() && i < Size() && j < prepared
      ensures Slot(consumePos + i, ring.Length) != Slot(commitPos + j, ring.Length)
    {
      SlotsDistinct(consumePos + i, commitPos + j, ring.Length);
    }

    method CopyIn(data: seq<Byte>)
      requires Valid() && |data| <= prepared
      modifies ring
      ensures Valid() && Draft()[..|data|] == data && Unread() == old(Unread())
    {
      var k := 0;
      while k < |data|
        invariant k <= |data| && Valid() && Draft()[..k] == data[..k] && Unread() == old(Unread())
      {
        WriteByte(k, data[k]);
        k := k + 1;
      }
      assert data[..k] == data;
    }

    /** Whatever the consumer does in the meantime. */
    method ConsumerRuns()
      requires Valid()
      modifies this`consumePos, this`fetched, this`closedForRead
      ensures Valid() && consumePos >= old(consumePos)
    {
      var fetch: bool, count: int, close: bool := *, *, *;
      if fetch {
        var pieces := FetchAtLeast(0, commitPos);
        if 0 <= count <= Size() { Consume(count); }
      }
      if close { CloseForRead(); }
    }

    /** One round of `write_all`: as much of the data as there is space for; `latest` when it looks at the consumer's present position. */
    method WriteSome(data: seq<Byte>, latest: bool) returns (r: Outcome<()>, m: nat)
      requires Valid() && |data| > 0
      modifies this, ring
      ensures Valid() && m <= |data| && written == old(written) + data[..m]
      ensures r.Ready? ==> m == |data| || (m > 0 && Space() == 0)
      ensures !r.Ready? ==> m == 0 && (latest ==> Space() == 0) && if closedForRead then r.Closed? else r.NotYet?
    {
      ConsumerRuns();
      var stale: bool := *;
      var got := PrepareAtLeast(1, if stale && !latest then 0 else consumePos);
      if !got.Ready? { return if got.Closed? then Closed else NotYet, 0; }
      m := if |data| <= Space() then |data| else Space();
      CopyIn(data[..m]);
      Commit(m);
      r := Ready(());
    }

    /**
      Commits the data in order, in as many parts as the space allows.  Where the source's call waits,
      this one returns with `n` bytes committed and would be resumed with the rest.
     */
    method WriteAll(data: seq<Byte>, latest: bool) returns (r: Outcome<()>, n: nat)
      requires Valid()
      modifies this, ring
      ensures Valid() && n <= |data| && written == old(written) + data[..n]
      ensures r.Ready? <==> n == |data|
      ensures !r.Ready? ==> (latest ==> Space() == 0) && if closedForRead then r.Closed? else r.NotYet?
    {
      n := 0;
      while n < |data|
        invariant Valid() && n <= |data| && written == old(written) + data[..n]
      {
        var m;
        r, m := WriteSome(data[n..], latest);
        if !r.Ready? { return; }
        assert data[..n] + data[n..][..m] == data[..n + m];
        n := n + m;
      }
      assert data[..n] == data;
      r := Ready(());
    }

    method CloseForWrite()
      requires Valid()
      modifies this`closedForWrite
      ensures Valid() && closedForWrite
    {
      closedForWrite := true;
    }

    // ------------------------------------------------------------ the consumer's steps

    /**
      `observed` is a value that the producer's position has had.  What has been committed stays
      readable after the stream is closed for writing.
     */
    method FetchAtLeast(minCount: nat, observed: nat) returns (r: Outcome<seq<Piece>>)
      requires Valid() && observed <= commitPos
      modifies this`fetched
      ensures Valid()
      ensures r.InvalidArgument? <==> minCount > ring.Length
      ensures r.Ready? ==> minCount <= fetched == Size() && Holds(ring[..], r.value, written[consumePos..])
      ensures r.Ready? ==> 1 <= |r.value| <= 2 && minCount <= |PieceBytes(ring[..], r.value[0])|
      ensures !r.Ready? ==> fetched == old(fetched)
      ensures minCount <= ring.Length ==> (r.Ready? <==> minCount <= Size() && (closedForWrite || consumePos + minCount <= observed))
      ensures minCount <= ring.Length && !r.Ready? ==> if closedForWrite then r.EndOfStream? else r.NotYet?
      ensures minCount <= Size() && observed == commitPos ==> r.Ready?
    {
      if minCount > ring.Length { return InvalidArgument; }
      if observed < consumePos + minCount {
        if !closedForWrite { return NotYet; }
        if commitPos < consumePos + minCount { return EndOfStream; }
      }
      fetched := Size();
      var pieces := UnreadPieces(minCount);
      r := Ready(pieces);
    }

    method UnreadPieces(minCount: nat) returns (pieces: seq<Piece>)
      requires Valid() && minCount <= Size()
      ensures Holds(ring[..], pieces, written[consumePos..])
      ensures 1 <= |pieces| <= 2 && minCount <= |PieceBytes(ring[..], pieces[0])|
    {
      GetBuffersIs(ring[..], consumePos, Size());
      pieces := FirstHolds(ring[..], GetBuffers(ring.Length, consumePos, Size()), minCount);
    }

    /** A byte that was fetched is the byte that was committed, whatever the producer has done since. */
    method ReadByte(k: nat) returns (b: Byte)
      requires Valid() && k < fetched
      ensures b == written[consumePos + k]
    {
      WindowAt(ring[..], consumePos, Size(), k);
      b := ring[Slot(consumePos + k, ring.Length)];
      assert b == Unread()[k];
    }

    method Consume(count: nat)
      requires Valid() && count <= fetched
      modifies this`consumePos, this`fetched
      ensures Valid() && consumePos == old(consumePos) + count && fetched == old(fetched) - count
    {
      WindowSplit(ring[..], consumePos, count, Size() - count);
      assert Unread()[count..] == written[consumePos..][count..] == written[consumePos + count..];
      consumePos, fetched := consumePos + count, fetched - count;
    }

    method CloseForRead()
      requires Valid()
      modifies this`closedForRead
      ensures Valid() && closedForRead
    {
      closedForRead := true;
    }
  }

  // ---------------------------------------------------------------- the temporary buffer

  predicate PieceOk(ring: seq<Byte>, p: Piece) { p.InRing? ==> Within(p.region, |ring|) }

  function PieceBytes(ring: seq<Byte>, p: Piece): seq<Byte>
    requires PieceOk(ring, p)
  {
    if p.InRing? then RegionBytes(ring, p.region) else p.bytes
  }

  function PiecesBytes(ring: seq<Byte>, pieces: seq<Piece>): seq<Byte>
    requires forall i :: 0 <= i < |pieces| ==> PieceOk(ring, pieces[i])
  {
    if pieces == [] then [] else PieceBytes(ring, pieces[0]) + PiecesBytes(ring, pieces[1..])
  }

  ghost predicate Holds(ring: seq<Byte>, pieces: seq<Piece>, bytes: seq<Byte>) {
    (forall i :: 0 <= i < |pieces| ==> PieceOk(ring, pieces[i])) && PiecesBytes(ring, pieces) == bytes
  }

  lemma OneOrTwo(ring: seq<Byte>, pieces: seq<Piece>)
    requires forall i :: 0 <= i < |pieces| ==> PieceOk(ring, pieces[i])
    ensures |pieces| == 1 ==> PiecesBytes(ring, pieces) == PieceBytes(ring, pieces[0])
    ensures |pieces| == 2 ==> PiecesBytes(ring, pieces) == PieceBytes(ring, pieces[0]) + PieceBytes(ring, pieces[1])
  {
    if |pieces| == 2 { assert pieces[1..] == [pieces[1]]; }
  }

  lemma OneOrTwoRegions(ring: seq<Byte>, rs: seq<Region>)
    requires forall i :: 0 <= i < |rs| ==> Within(rs[i], |ring|)
    ensures |rs| == 1 ==> RegionsBytes(ring, rs) == RegionBytes(ring, rs[0])
    ensures |rs| == 2 ==> RegionsBytes(ring, rs) == RegionBytes(ring, rs[0]) + RegionBytes(ring, rs[1])
  {
    if |rs| == 2 { assert rs[1..] == [rs[1]]; }
  }

  lemma Rejoin(x: seq<Byte>, y: seq<Byte>, k: nat)
    requires k <= |y|
    ensures x + y == (x + y[..k]) + y[k..]
    ensures k == |y| ==> x + y == x + y[..k]
  {
  }

  /** Makes the first piece hold at least `minCount` bytes, copying so many out of the ring exactly if it has to. */
  method FirstHolds(ring: seq<Byte>, regions: seq<Region>, minCount: nat) returns (pieces: seq<Piece>)
    requires 1 <= |regions| <= 2 && forall i :: 0 <= i < |regions| ==> Within(regions[i], |ring|)
    requires minCount <= |RegionsBytes(ring, regions)|
    ensures 1 <= |pieces| <= 2 && Holds(ring, pieces, RegionsBytes(ring, regions))
    ensures minCount <= |PieceBytes(ring, pieces[0])|
    ensures pieces[0].Copied? <==> |regions| == 2 && regions[0].len < minCount
    ensures pieces[0].Copied? ==> |pieces[0].bytes| == minCount
  {
    OneOrTwoRegions(ring, regions);
    if |regions| == 1 {
      pieces := [InRing(regions[0])];
    } else if regions[0].len >= minCount {
      pieces := [InRing(regions[0]), InRing(regions[1])];
    } else {
      var more := minCount - regions[0].len;
      var tmp := RegionBytes(ring, regions[0]) + RegionBytes(ring, regions[1])[..more];
      var back := Region(regions[1].start + more, regions[1].len - more);
      Rejoin(RegionBytes(ring, regions[0]), RegionBytes(ring, regions[1]), more);
      assert RegionBytes(ring, back) == RegionBytes(ring, regions[1])[more..];
      pieces := if back.len == 0 then [Copied(tmp)] else [Copied(tmp), InRing(back)];
    }
    OneOrTwo(ring, pieces);
  }

  // ---------------------------------------------------------------- any interleaving

  /** What either side may do next; `observed` may be any value the other side's position has had. */
  datatype Call =
    | Prepare(exactly: bool, count: nat, observed: nat)
    | Write(k: nat, b: Byte)
    | CommitBytes(count: nat)
    | EndWriting
    | Fetch(minCount: nat, observed: nat)
    | Take(count: nat)
    | EndReading

  function AtMost(x: nat, bound: nat): nat { if x < bound then x else bound }

  lemma NextByte(s: seq<Byte>, from: nat, bytes: seq<Byte>)
    requires from + |bytes| < |s| && bytes == s[from..from + |bytes|]
    ensures bytes + [s[from + |bytes|]] == s[from..from + |bytes| + 1]
  {
  }

  method ReadBytes(buffer: StreamBuffer, count: nat) returns (bytes: seq<Byte>)
    requires buffer.Valid() && count <= buffer.fetched
    ensures bytes == buffer.written[buffer.consumePos..buffer.consumePos + count]
  {
    bytes := [];
    while |bytes| < count
      invariant |bytes| <= count && bytes == buffer.written[buffer.consumePos..buffer.consumePos + |bytes|]
    {
      var b := buffer.ReadByte(|bytes|);
      NextByte(buffer.written, buffer.consumePos, bytes);
      bytes := bytes + [b];
    }
  }

  /** A call of the producer; the answer is how much it may still write. */
  method ProducerCall(buffer: StreamBuffer, call: Call, room: nat) returns (newRoom: nat)
    requires buffer.Valid() && room <= buffer.prepared
    modifies buffer`prepared, buffer`commitPos, buffer`written, buffer`closedForWrite, buffer.ring
    ensures buffer.Valid() && newRoom <= buffer.prepared && old(buffer.written) <= buffer.written
  {
    newRoom := room;
    match call
    case Prepare(exactly, count, observed) =>
      if exactly {
        var r := buffer.PrepareExactly(count, AtMost(observed, buffer.consumePos));
        if r.Ready? { newRoom := count; }
      } else {
        var r := buffer.PrepareAtLeast(count, AtMost(observed, buffer.consumePos));
        if r.Ready? { newRoom := buffer.Space(); }
      }
    case Write(k, b) => if k < room { buffer.WriteByte(k, b); }
    case CommitBytes(count) =>
      if count <= room {
        buffer.Commit(count);
        newRoom := room - count;
      }
    case EndWriting => buffer.CloseForWrite();
    case _ =>
  }

  /** A call of the consumer; the answer is how much it may still read, and what it took. */
  method ConsumerCall(buffer: StreamBuffer, call: Call, avail: nat) returns (newAvail: nat, bytes: seq<Byte>)
    requires buffer.Valid() && avail <= buffer.fetched
    modifies buffer`fetched, buffer`consumePos, buffer`closedForRead
    ensures buffer.Valid() && newAvail <= buffer.fetched && buffer.consumePos == old(buffer.consumePos) + |bytes|
    ensures bytes == buffer.written[old(buffer.consumePos)..buffer.consumePos]
  {
    newAvail, bytes := avail, [];
    match call
    case Fetch(minCount, observed) =>
      var r := buffer.FetchAtLeast(minCount, AtMost(observed, buffer.commitPos));
      if r.Ready? { newAvail := buffer.Size(); }
    case Take(count) =>
      if count <= avail {
        bytes := ReadBytes(buffer, count);
        buffer.Consume(count);
        newAvail := avail - count;
      }
    case EndReading => buffer.CloseForRead();
    case _ =>
  }

  lemma TakenGrows(written: seq<Byte>, longer: seq<Byte>, from: nat, mid: nat, to: nat)
    requires from <= mid <= to <= |longer| && mid <= |written| && written <= longer
    ensures written[from..mid] + longer[mid..to] == longer[from..to]
  {
  }

  /**
    The two sides' calls in any order: a call that is not permitted is skipped.  What the consumer has
    taken is exactly the part of the committed stream it has consumed.
   */
  method Interleave(buffer: StreamBuffer, calls: seq<Call>) returns (taken: seq<Byte>)
    requires buffer.Valid()
    modifies buffer, buffer.ring
    ensures buffer.Valid() && old(buffer.written) <= buffer.written
    ensures old(buffer.consumePos) <= buffer.consumePos <= buffer.commitPos <= buffer.consumePos + buffer.ring.Length
    ensures |buffer.written| == buffer.commitPos && taken == buffer.written[old(buffer.consumePos)..buffer.consumePos]
  {
    taken := [];
    var room: nat, avail: nat := 0, 0;
    ghost var start := buffer.consumePos;
    for i := 0 to |calls|
      invariant buffer.Valid() && old(buffer.written) <= buffer.written && room <= buffer.prepared && avail <= buffer.fetched
      invariant start <= buffer.consumePos && taken == buffer.written[start..buffer.consumePos]
    {
      ghost var before, here := buffer.written, buffer.consumePos;
      room := ProducerCall(buffer, calls[i], room);
      var bytes;
      avail, bytes := ConsumerCall(buffer, calls[i], avail);
      TakenGrows(before, buffer.written, start, here, buffer.consumePos);
      taken := taken + bytes;
    }
  }

  /** From a new buffer, the bytes taken are a prefix of the bytes committed. */
  method NewStream(capacity: nat, calls: seq<Call>) returns (buffer: StreamBuffer, taken: seq<Byte>)
    requires capacity > 0
    ensures buffer.Valid() && buffer.ring.Length == capacity && taken == buffer.written[..buffer.consumePos]
    ensures 0 <= buffer.commitPos - buffer.consumePos <= capacity
  {
    buffer := new StreamBuffer(capacity);
    taken := Interleave(buffer, calls);
  }
}
