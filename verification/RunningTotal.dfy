/**
  `RunningTotal`: prefix sums kept as independent parts plus a summary of the part totals, and
  `parallel_running_total`, which fills the parts in any order.

  Sums are of 64-bit unsigned integers and wrap around.
 */
module RunningTotals {
  import opened Arithmetic
  import opened SliceWork

  /** What 64 bits keep of a sum. */
  function Wrap(n: nat): nat { if n < U64_LIMIT then n else Wrap(n - U64_LIMIT) }

  lemma {:induction false} WrapIsMod(n: nat)
    ensures Wrap(n) == n % U64_LIMIT
  {
    if n >= U64_LIMIT { WrapIsMod(n - U64_LIMIT); }
  }

  lemma {:induction false} WrapLeft(a: nat, b: nat)
    ensures Wrap(Wrap(a) + b) == Wrap(a + b)
  {
    if a >= U64_LIMIT { WrapLeft(a - U64_LIMIT, b); }
  }

  lemma WrapSum(x: nat, y: nat, a: nat, b: nat)
    requires Wrap(x) == Wrap(a) && Wrap(y) == Wrap(b)
    ensures Wrap(x + y) == Wrap(a + b)
  {
    WrapLeft(x, y);
    WrapLeft(a, y);
    WrapLeft(y, a);
    WrapLeft(b, a);
  }

  lemma WrapWrap(n: nat)
    ensures Wrap(Wrap(n)) == Wrap(n)
  {
    WrapLeft(n, 0);
  }

  function Sum(xs: seq<nat>): nat { if xs == [] then 0 else Sum(xs[..|xs| - 1]) + xs[|xs| - 1] }

  lemma {:induction false} SumConcat(xs: seq<nat>, ys: seq<nat>)
    ensures Sum(xs + ys) == Sum(xs) + Sum(ys)
    decreases |ys|
  {
    if ys == [] {
      assert xs + ys == xs;
    } else {
      assert (xs + ys)[..|xs + ys| - 1] == xs + ys[..|ys| - 1];
      SumConcat(xs, ys[..|ys| - 1]);
    }
  }

  lemma SumSnoc(xs: seq<nat>, i: nat)
    requires i < |xs|
    ensures Sum(xs[..i + 1]) == Sum(xs[..i]) + xs[i]
  {
    assert xs[..i + 1][..i] == xs[..i];
  }

  // ---------------------------------------------------------------- the layout

  /** Where a part begins: each has one more entry than its size, for the leading zero. */
  function Offset(partSize: nat, p: nat): nat { if p == 0 then 0 else Offset(partSize, p - 1) + partSize + 1 }

  lemma {:induction false} OffsetIs(partSize: nat, p: nat)
    ensures Offset(partSize, p) == p * (partSize + 1)
  {
    if p > 0 { OffsetIs(partSize, p - 1); }
  }

  lemma {:induction false} OffsetMono(partSize: nat, p: nat, q: nat)
    requires p < q
    ensures Offset(partSize, p) + partSize + 1 <= Offset(partSize, q)
    decreases q
  {
    if p < q - 1 { OffsetMono(partSize, p, q - 1); }
  }

  /** The running total after `j` entries, the last one repeated for as long as asked. */
  function TotalAt(xs: seq<nat>, j: nat): nat { Wrap(Sum(if j < |xs| then xs[..j] else xs)) }

  lemma TotalNext(xs: seq<nat>, j: nat)
    ensures TotalAt(xs, j + 1) == if j < |xs| then Wrap(TotalAt(xs, j) + xs[j]) else TotalAt(xs, j)
  {
    if j < |xs| {
      SumSnoc(xs, j);
      WrapWrap(Sum(xs[..j]));
      WrapSum(TotalAt(xs, j), xs[j], Sum(xs[..j]), xs[j]);
      assert j + 1 == |xs| ==> xs[..j + 1] == xs;
    }
  }

  /** The running totals of one part. */
  function Totals(xs: seq<nat>, n: nat): (r: seq<nat>)
    ensures |r| == n + 1
  {
    if n == 0 then [TotalAt(xs, 0)] else Totals(xs, n - 1) + [TotalAt(xs, n)]
  }

  lemma {:induction false} TotalsAt(xs: seq<nat>, n: nat, j: nat)
    requires j <= n
    ensures Totals(xs, n)[j] == TotalAt(xs, j)
  {
    if j < n { TotalsAt(xs, n - 1, j); }
  }

  /** Part `p` of the array. */
  function Part(values: seq<nat>, partSize: nat, p: nat): (r: seq<nat>)
    requires Offset(partSize, p) + partSize + 1 <= |values|
    ensures |r| == partSize + 1
  {
    values[Offset(partSize, p)..Offset(partSize, p) + partSize + 1]
  }

  /** What the summary says after `p` parts. */
  function PartsTotal(values: seq<nat>, partSize: nat, p: nat): nat
    requires Offset(partSize, p) <= |values|
  {
    if p == 0 then 0
    else Wrap(PartsTotal(values, partSize, p - 1) + Part(values, partSize, p - 1)[partSize])
  }

  lemma MulOrder(d: nat, a: nat, b: nat)
    requires d > 0
    ensures a <= b <==> d * a <= d * b
  {
    if a <= b { MulMono(d, a, b); } else { MulMono(d, b + 1, a); }
  }

  /** The part that entry `i` is in, and its place in that part. */
  function PartOf(i: nat, partSize: nat): nat
    requires partSize > 0
  {
    i / partSize
  }

  function PlaceOf(i: nat, partSize: nat): nat
    requires partSize > 0
  {
    i % partSize
  }

  lemma DivBounds(i: nat, d: nat, q: nat)
    requires d > 0 && i <= q * d
    ensures PartOf(i, d) <= q && (PartOf(i, d) == q ==> PlaceOf(i, d) == 0)
  {
    assert i == d * (i / d) + i % d;
    MulOrder(d, i / d, q);
  }

  /** Where `operator[]` reads stays within the parts and the first entry of the summary. */
  lemma EntryBounds(partSize: nat, partsCount: nat, i: nat, p: nat, k: nat)
    requires partSize > 0 && i <= partsCount * partSize && p == PartOf(i, partSize) && k == PlaceOf(i, partSize)
    ensures p <= partsCount && Offset(partSize, p) + k <= Offset(partSize, partsCount)
  {
    DivBounds(i, partSize, partsCount);
    if p < partsCount { OffsetMono(partSize, p, partsCount); }
  }

  class RunningTotal {
    const values: array<nat>
    const partsCount: nat
    const partSize: nat
    var size: nat

    ghost predicate Layout()
      reads this
    {
      && partSize > 0 && values.Length == SummaryOffset() + partsCount + 1
      && size <= partsCount * partSize + 1
    }

    function SummaryOffset(): nat { Offset(partSize, partsCount) }

    lemma PartFits(p: nat)
      requires Layout()
      ensures p < partsCount ==> Offset(partSize, p) + partSize + 1 <= SummaryOffset()
    {
      if p < partsCount { OffsetMono(partSize, p, partsCount); }
    }

    /** `reset`: only the leading zeros are written. */
    constructor (count: nat, sizeOfPart: nat)
      requires sizeOfPart > 0
      ensures Layout() && fresh(values) && partsCount == count && partSize == sizeOfPart && size == partsCount * partSize + 1
      ensures values[SummaryOffset()] == 0
      ensures forall p :: 0 <= p < count ==> Offset(partSize, p) < values.Length && values[Offset(partSize, p)] == 0
    {
      partsCount, partSize := count, sizeOfPart;
      values := new nat[Offset(sizeOfPart, count) + count + 1];
      new;
      size := partsCount * partSize + 1;
      values[SummaryOffset()] := 0;
      var i := 0;
      while i < partsCount
        invariant i <= partsCount && values[SummaryOffset()] == 0 && size == partsCount * partSize + 1
        invariant forall p :: 0 <= p < i ==> Offset(partSize, p) < values.Length && values[Offset(partSize, p)] == 0
      {
        OffsetMono(partSize, i, partsCount);
        values[Offset(partSize, i)] := 0;
        i := i + 1;
      }
    }

    method SetSize(newSize: nat)
      requires Layout() && newSize <= partsCount * partSize + 1
      modifies this`size
      ensures Layout() && size == newSize
    {
      size := newSize;
    }

    lemma GetBounds(i: nat)
      requires Layout() && i < size
      ensures SummaryOffset() + PartOf(i, partSize) < values.Length && Offset(partSize, PartOf(i, partSize)) + PlaceOf(i, partSize) < values.Length
    {
      EntryBounds(partSize, partsCount, i, PartOf(i, partSize), PlaceOf(i, partSize));
    }

    /** `operator[]`. */
    function Get(i: nat): nat
      requires Layout() && i < size
      reads this, values
    {
      GetBounds(i);
      Wrap(values[SummaryOffset() + PartOf(i, partSize)] + values[Offset(partSize, PartOf(i, partSize)) + PlaceOf(i, partSize)])
    }

    /** What `operator[]` adds up. */
    ghost predicate Reads(i: nat, p: nat, k: nat)
      requires Layout() && i < size
      reads this, values
    {
      && SummaryOffset() + p < values.Length && Offset(partSize, p) + k < values.Length
      && Get(i) == Wrap(values[..][SummaryOffset() + p] + values[..][Offset(partSize, p) + k])
    }

    lemma GetReads(i: nat)
      requires Layout() && i < size
      ensures Reads(i, PartOf(i, partSize), PlaceOf(i, partSize))
    {
      GetBounds(i);
    }

    /** The body of one task: the running totals of its slice, in its own part. */
    method FillPart(p: nat, xs: seq<nat>)
      requires Layout() && p < partsCount && |xs| <= partSize
      requires Offset(partSize, p) < values.Length && values[Offset(partSize, p)] == 0
      modifies values
      ensures Offset(partSize, p) + partSize + 1 <= SummaryOffset()
      ensures Part(values[..], partSize, p) == Totals(xs, partSize)
      ensures forall k :: 0 <= k < values.Length && !(Offset(partSize, p) <= k <= Offset(partSize, p) + partSize) ==> values[k] == old(values[k])
    {
      PartFits(p);
      var off, j, total := Offset(partSize, p), 0, 0;
      while j < partSize
        invariant j <= partSize && total == TotalAt(xs, j)
        invariant values[off..off + j + 1] == Totals(xs, j)
        invariant forall k :: 0 <= k < values.Length && !(off <= k <= off + partSize) ==> values[k] == old(values[k])
      {
        TotalNext(xs, j);
        if j < |xs| { total := Wrap(total + xs[j]); }
        j := j + 1;
        SetEntry(off, j, total);
      }
    }

    method SetEntry(off: nat, j: nat, total: nat)
      requires off + j < values.Length
      modifies values
      ensures values[off..off + j + 1] == old(values[off..off + j]) + [total]
      ensures forall k :: 0 <= k < values.Length && k != off + j ==> values[k] == old(values[k])
    {
      values[off + j] := total;
    }

    /** Recomputes the summary from the parts. */
    method UpdateSummary()
      requires Layout() && values[SummaryOffset()] == 0
      modifies values
      ensures values[..SummaryOffset()] == old(values[..SummaryOffset()])
      ensures forall p :: 0 <= p <= partsCount ==> SummaryIs(values[..], SummaryOffset(), p, partSize)
    {
      var so, total, p := SummaryOffset(), 0, 0;
      ghost var parts := values[..so];
      while p < partsCount
        invariant p <= partsCount && Offset(partSize, p) <= so && total == PartsTotal(parts, partSize, p)
        invariant values[..so] == parts
        invariant forall q :: 0 <= q <= p ==> SummaryIs(values[..], so, q, partSize)
      {
        PartFits(p);
        assert values[Offset(partSize, p) + partSize] == parts[Offset(partSize, p) + partSize];
        total := Wrap(total + values[Offset(partSize, p) + partSize]);
        p := p + 1;
        SetSummary(p, total);
      }
    }

    method SetSummary(p: nat, total: nat)
      requires Layout() && 0 < p <= partsCount && Offset(partSize, p) <= SummaryOffset()
      requires total == PartsTotal(values[..SummaryOffset()], partSize, p)
      requires forall q :: 0 <= q < p ==> SummaryIs(values[..], SummaryOffset(), q, partSize)
      modifies values
      ensures values[..SummaryOffset()] == old(values[..SummaryOffset()])
      ensures forall q :: 0 <= q <= p ==> SummaryIs(values[..], SummaryOffset(), q, partSize)
    {
      var so := SummaryOffset();
      ghost var before := values[..];
      values[so + p] := total;
      assert values[..so] == before[..so] && values[..][..so] == values[..so];
      forall q | 0 <= q < p ensures SummaryIs(values[..], so, q, partSize) { assert SummaryIs(before, so, q, partSize); }
    }
  }

  /** Entry `p` of the summary, which begins at `so`, is the total of the parts before. */
  ghost predicate SummaryIs(values: seq<nat>, so: nat, p: nat, partSize: nat) {
    && so + p < |values| && Offset(partSize, p) <= so
    && values[so + p] == PartsTotal(values[..so], partSize, p)
  }

  // ---------------------------------------------------------------- what the entries mean

  /** Where the slices of the input begin and end; none is longer than a part. */
  ghost predicate Cuts(cuts: seq<nat>, input: seq<nat>, partSize: nat) {
    && |cuts| > 0 && cuts[0] == 0 && cuts[|cuts| - 1] == |input|
    && (forall p :: 0 <= p < |cuts| ==> cuts[p] <= |input|)
    && forall p :: 0 <= p < |cuts| - 1 ==> cuts[p] <= cuts[p + 1] <= cuts[p] + partSize
  }

  ghost function SliceOf(cuts: seq<nat>, input: seq<nat>, p: nat): seq<nat>
    requires p + 1 < |cuts| && cuts[p] <= cuts[p + 1] <= |input|
  {
    input[cuts[p]..cuts[p + 1]]
  }

  ghost predicate PartDone(values: seq<nat>, partSize: nat, cuts: seq<nat>, input: seq<nat>, p: nat) {
    && p + 1 < |cuts| && cuts[p] <= cuts[p + 1] <= |input| && Offset(partSize, p) + partSize + 1 <= |values|
    && Part(values, partSize, p) == Totals(SliceOf(cuts, input, p), partSize)
  }

  lemma LastTotal(xs: seq<nat>, n: nat)
    requires |xs| <= n
    ensures Totals(xs, n)[n] == Wrap(Sum(xs))
  {
    TotalsAt(xs, n, n);
  }

  lemma SumSlice(input: seq<nat>, i: nat, j: nat)
    requires i <= j <= |input|
    ensures Sum(input[..j]) == Sum(input[..i]) + Sum(input[i..j])
  {
    assert input[..j] == input[..i] + input[i..j];
    SumConcat(input[..i], input[i..j]);
  }

  lemma SummaryStep(parts: seq<nat>, partSize: nat, cuts: seq<nat>, input: seq<nat>, p: nat, total: nat)
    requires PartDone(parts, partSize, cuts, input, p) && cuts[p + 1] <= cuts[p] + partSize
    requires total == Wrap(Sum(input[..cuts[p]]))
    ensures Wrap(total + Part(parts, partSize, p)[partSize]) == Wrap(Sum(input[..cuts[p + 1]]))
  {
    var xs := SliceOf(cuts, input, p);
    LastTotal(xs, partSize);
    SumSlice(input, cuts[p], cuts[p + 1]);
    WrapWrap(Sum(input[..cuts[p]]));
    WrapWrap(Sum(xs));
    WrapSum(total, Part(parts, partSize, p)[partSize], Sum(input[..cuts[p]]), Sum(xs));
  }

  /** The summary before part `p` is the total of the input before it. */
  lemma {:induction false} SummaryMeaning(parts: seq<nat>, partSize: nat, cuts: seq<nat>, input: seq<nat>, p: nat)
    requires Cuts(cuts, input, partSize) && p < |cuts| && Offset(partSize, p) <= |parts|
    requires forall q :: 0 <= q < p ==> PartDone(parts, partSize, cuts, input, q)
    ensures PartsTotal(parts, partSize, p) == Wrap(Sum(input[..cuts[p]]))
  {
    if p > 0 {
      var q := p - 1;
      SummaryMeaning(parts, partSize, cuts, input, q);
      assert PartDone(parts, partSize, cuts, input, q);
      SummaryStep(parts, partSize, cuts, input, q, PartsTotal(parts, partSize, q));
      PartsTotalNext(parts, partSize, q);
    }
  }

  lemma PartsTotalNext(parts: seq<nat>, partSize: nat, q: nat)
    requires Offset(partSize, q) + partSize + 1 <= |parts|
    ensures Offset(partSize, q + 1) <= |parts|
    ensures PartsTotal(parts, partSize, q + 1) == Wrap(PartsTotal(parts, partSize, q) + Part(parts, partSize, q)[partSize])
  {
  }

  /** The entry at offset `k` of part `p`. */
  lemma PartMeaning(values: seq<nat>, partSize: nat, cuts: seq<nat>, input: seq<nat>, p: nat, k: nat)
    requires PartDone(values, partSize, cuts, input, p) && k <= partSize && cuts[p] + k <= cuts[p + 1]
    ensures values[Offset(partSize, p) + k] == Wrap(Sum(input[cuts[p]..cuts[p] + k]))
  {
    var xs := SliceOf(cuts, input, p);
    TotalsAt(xs, partSize, k);
    assert values[Offset(partSize, p) + k] == Part(values, partSize, p)[k];
    assert xs[..k] == input[cuts[p]..cuts[p] + k];
    assert k == |xs| ==> xs[..k] == xs;
  }

  /** Adding the summary and the part gives the prefix sum. */
  lemma EntryMeaning(values: seq<nat>, partSize: nat, cuts: seq<nat>, input: seq<nat>, p: nat, k: nat, summary: nat)
    requires PartDone(values, partSize, cuts, input, p) && k <= partSize && cuts[p] + k <= cuts[p + 1]
    requires summary == Wrap(Sum(input[..cuts[p]]))
    ensures Wrap(summary + values[Offset(partSize, p) + k]) == Wrap(Sum(input[..cuts[p] + k]))
  {
    var i := cuts[p];
    PartMeaning(values, partSize, cuts, input, p, k);
    SumSlice(input, i, i + k);
    WrapWrap(Sum(input[..i]));
    WrapWrap(Sum(input[i..i + k]));
    WrapSum(summary, values[Offset(partSize, p) + k], Sum(input[..i]), Sum(input[i..i + k]));
  }

  // ---------------------------------------------------------------- the parallel computation

  ghost function CutsOf(plan: Plan): (r: seq<nat>)
    requires ValidPlan(plan)
    ensures |r| == plan.taskCount + 1
  {
    seq<nat>(plan.taskCount + 1, p requires 0 <= p <= plan.taskCount =>
      if p < plan.taskCount then TaskStart(plan, p) else plan.inputSize)
  }

  lemma CutsAre(plan: Plan, input: seq<nat>)
    requires ValidPlan(plan) && plan.inputSize == |input|
    ensures Cuts(CutsOf(plan), input, plan.taskSize)
    ensures forall p :: 0 <= p < plan.taskCount ==>
              CutsOf(plan)[p] == TaskStart(plan, p) && CutsOf(plan)[p + 1] == TaskEnd(plan, p)
  {
    NoTasks(plan);
    forall p | 0 <= p < plan.taskCount
      ensures CutsOf(plan)[p] == TaskStart(plan, p) && CutsOf(plan)[p + 1] == TaskEnd(plan, p)
      ensures TaskStart(plan, p) <= TaskEnd(plan, p) <= |input| && TaskEnd(plan, p) <= TaskStart(plan, p) + plan.taskSize
    {
      TaskBounds(plan, p);
    }
  }

  /** The parts a run has filled are right; those it has not still have their leading zero. */
  ghost predicate Filling(values: seq<nat>, plan: Plan, cuts: seq<nat>, input: seq<nat>, todo: set<nat>) {
    && |values| == Offset(plan.taskSize, plan.taskCount) + plan.taskCount + 1
    && values[Offset(plan.taskSize, plan.taskCount)] == 0
    && forall p :: 0 <= p < plan.taskCount ==> PartState(values, plan.taskSize, cuts, input, p, p in todo)
  }

  ghost predicate PartState(values: seq<nat>, partSize: nat, cuts: seq<nat>, input: seq<nat>, p: nat, waiting: bool) {
    if waiting then Offset(partSize, p) < |values| && values[Offset(partSize, p)] == 0
    else PartDone(values, partSize, cuts, input, p)
  }

  /** Filling one part leaves the others as they are. */
  lemma OthersKept(before: seq<nat>, after: seq<nat>, partSize: nat, cuts: seq<nat>, input: seq<nat>, p: nat, q: nat, waiting: bool)
    requires |before| == |after| && p != q && PartState(before, partSize, cuts, input, q, waiting)
    requires forall k :: 0 <= k < |before| && !(Offset(partSize, p) <= k <= Offset(partSize, p) + partSize) ==> after[k] == before[k]
    ensures PartState(after, partSize, cuts, input, q, waiting)
  {
    if p < q { OffsetMono(partSize, p, q); } else { OffsetMono(partSize, q, p); }
    if !waiting { assert Part(after, partSize, q) == Part(before, partSize, q); }
  }

  lemma Filled(before: seq<nat>, after: seq<nat>, plan: Plan, cuts: seq<nat>, input: seq<nat>, todo: set<nat>, p: nat)
    requires Filling(before, plan, cuts, input, todo) && p in todo && p < plan.taskCount && |after| == |before|
    requires PartDone(after, plan.taskSize, cuts, input, p)
    requires forall k :: 0 <= k < |before| && !(Offset(plan.taskSize, p) <= k <= Offset(plan.taskSize, p) + plan.taskSize) ==> after[k] == before[k]
    ensures Filling(after, plan, cuts, input, todo - {p})
  {
    OffsetMono(plan.taskSize, p, plan.taskCount);
    forall q | 0 <= q < plan.taskCount ensures PartState(after, plan.taskSize, cuts, input, q, q in todo - {p}) {
      assert PartState(before, plan.taskSize, cuts, input, q, q in todo);
      if q != p { OthersKept(before, after, plan.taskSize, cuts, input, p, q, q in todo); }
    }
  }

  /** Runs the tasks in any order. */
  method RunTasks(total: RunningTotal, plan: Plan, tasks: seq<Task>, input: seq<nat>)
    requires ValidPlan(plan) && plan.inputSize == |input|
    requires total.Layout() && total.partsCount == plan.taskCount && total.partSize == plan.taskSize
    requires |tasks| == plan.taskCount && forall k :: 0 <= k < |tasks| ==> Planned(plan, k, tasks[k])
    requires Filling(total.values[..], plan, CutsOf(plan), input, Below(plan.taskCount))
    modifies total.values
    ensures Filling(total.values[..], plan, CutsOf(plan), input, {})
  {
    ghost var cuts := CutsOf(plan);
    CutsAre(plan, input);
    var todo: set<nat> := Below(plan.taskCount);
    while todo != {}
      invariant Filling(total.values[..], plan, cuts, input, todo) && forall p: nat :: p in todo ==> p < plan.taskCount
      decreases |todo|
    {
      var p :| p in todo;
      var t := tasks[p];
      assert Planned(plan, p, t) && PartState(total.values[..], plan.taskSize, cuts, input, p, true);
      TaskBounds(plan, p);
      ghost var before := total.values[..];
      total.FillPart(p, input[t.offset..t.offset + t.size]);
      assert SliceOf(cuts, input, p) == input[t.offset..t.offset + t.size];
      Filled(before, total.values[..], plan, cuts, input, todo, p);
      todo := todo - {p};
    }
  }

  /** All parts filled and the summary up to date. */
  ghost predicate Finished(values: seq<nat>, partSize: nat, cuts: seq<nat>, input: seq<nat>, so: nat) {
    && |cuts| > 0 && Offset(partSize, |cuts| - 1) == so && |values| == so + |cuts|
    && (forall p :: 0 <= p < |cuts| - 1 ==> PartDone(values[..so], partSize, cuts, input, p))
    && forall p :: 0 <= p < |cuts| ==> SummaryIs(values, so, p, partSize)
  }

  lemma SummaryEntry(values: seq<nat>, partSize: nat, cuts: seq<nat>, input: seq<nat>, so: nat, p: nat)
    requires Cuts(cuts, input, partSize) && Finished(values, partSize, cuts, input, so) && p < |cuts|
    ensures so + p < |values| && values[so + p] == Wrap(Sum(input[..cuts[p]]))
  {
    assert SummaryIs(values, so, p, partSize);
    SummaryMeaning(values[..so], partSize, cuts, input, p);
  }

  /** Summary plus part is the prefix sum, also at the very end, where the summary's leading zero is read as a part. */
  lemma FinishedEntry(values: seq<nat>, partSize: nat, cuts: seq<nat>, input: seq<nat>, so: nat, p: nat, k: nat)
    requires Cuts(cuts, input, partSize) && Finished(values, partSize, cuts, input, so) && p < |cuts|
    requires if p + 1 < |cuts| then k <= partSize && cuts[p] + k <= cuts[p + 1] else k == 0
    ensures so + p < |values| && Offset(partSize, p) + k < |values| && cuts[p] + k <= |input|
    ensures Wrap(values[so + p] + values[Offset(partSize, p) + k]) == Wrap(Sum(input[..cuts[p] + k]))
  {
    SummaryEntry(values, partSize, cuts, input, so, p);
    if p + 1 < |cuts| {
      assert PartDone(values[..so], partSize, cuts, input, p);
      EntryMeaning(values[..so], partSize, cuts, input, p, k, values[so + p]);
    } else {
      assert SummaryIs(values, so, 0, partSize);
      WrapWrap(Sum(input[..cuts[p]]));
    }
  }

  lemma IndexBounds(plan: Plan, i: nat, p: nat, k: nat)
    requires ValidPlan(plan) && i <= plan.inputSize && p == PartOf(i, plan.taskSize) && k == PlaceOf(i, plan.taskSize)
    ensures p <= plan.taskCount && TaskStart(plan, p) + k == i && k < plan.taskSize
    ensures p == plan.taskCount ==> k == 0 && i == plan.inputSize
    ensures i <= TaskEnd(plan, p)
  {
    var s := plan.taskSize;
    assert i == s * p + k;
    assert plan.taskCount * s == s * plan.taskCount;
    DivBounds(i, s, plan.taskCount);
    assert s * (p + 1) == s * p + s;
  }

  lemma CutAt(plan: Plan, p: nat)
    requires ValidPlan(plan) && p < plan.taskCount
    ensures CutsOf(plan)[p] == TaskStart(plan, p) && CutsOf(plan)[p + 1] == TaskEnd(plan, p)
  {
    TaskBounds(plan, p);
  }

  /** Where `operator[]` looks for entry `i`. */
  lemma IndexOf(plan: Plan, i: nat, p: nat, k: nat)
    requires ValidPlan(plan) && i <= plan.inputSize && p == PartOf(i, plan.taskSize) && k == PlaceOf(i, plan.taskSize)
    ensures p <= plan.taskCount && CutsOf(plan)[p] + k == i && (p == plan.taskCount ==> k == 0)
    ensures p < plan.taskCount ==> k <= plan.taskSize && i <= CutsOf(plan)[p + 1]
  {
    IndexBounds(plan, i, p, k);
    if p < plan.taskCount { CutAt(plan, p); }
  }

  lemma PlannedEntry(values: seq<nat>, plan: Plan, input: seq<nat>, so: nat, i: nat, p: nat, k: nat)
    requires ValidPlan(plan) && plan.inputSize == |input| && i <= |input| && p == PartOf(i, plan.taskSize) && k == PlaceOf(i, plan.taskSize)
    requires Finished(values, plan.taskSize, CutsOf(plan), input, so)
    ensures so + p < |values| && Offset(plan.taskSize, p) + k < |values|
    ensures Wrap(values[so + p] + values[Offset(plan.taskSize, p) + k]) == Wrap(Sum(input[..i]))
  {
    CutsAre(plan, input);
    IndexOf(plan, i, p, k);
    FinishedEntry(values, plan.taskSize, CutsOf(plan), input, so, p, k);
  }

  lemma ReadsMeans(total: RunningTotal, i: nat, p: nat, k: nat, sum: nat)
    requires total.Layout() && i < total.size && total.Reads(i, p, k)
    requires Wrap(total.values[..][total.SummaryOffset() + p] + total.values[..][Offset(total.partSize, p) + k]) == sum
    ensures total.Get(i) == sum
  {
  }

  /** Entry `i` is the sum of the first `i` values. */
  lemma GetMeaning(total: RunningTotal, plan: Plan, input: seq<nat>, i: nat)
    requires ValidPlan(plan) && plan.inputSize == |input| && i <= |input|
    requires total.Layout() && total.partSize == plan.taskSize && total.size == |input| + 1
    requires Finished(total.values[..], plan.taskSize, CutsOf(plan), input, total.SummaryOffset())
    ensures total.Get(i) == Wrap(Sum(input[..i]))
  {
    total.GetReads(i);
    GetMeaningAt(total, plan, input, i, PartOf(i, plan.taskSize), PlaceOf(i, plan.taskSize));
  }

  lemma GetMeaningAt(total: RunningTotal, plan: Plan, input: seq<nat>, i: nat, p: nat, k: nat)
    requires ValidPlan(plan) && plan.inputSize == |input| && i <= |input| && p == PartOf(i, plan.taskSize) && k == PlaceOf(i, plan.taskSize)
    requires total.Layout() && total.partSize == plan.taskSize && total.size == |input| + 1 && total.Reads(i, p, k)
    requires Finished(total.values[..], plan.taskSize, CutsOf(plan), input, total.SummaryOffset())
    ensures total.Get(i) == Wrap(Sum(input[..i]))
  {
    PlannedEntry(total.values[..], plan, input, total.SummaryOffset(), i, p, k);
    ReadsMeans(total, i, p, k, Wrap(Sum(input[..i])));
  }

  lemma AllFinished(before: seq<nat>, values: seq<nat>, plan: Plan, input: seq<nat>, so: nat)
    requires ValidPlan(plan) && plan.inputSize == |input| && so == Offset(plan.taskSize, plan.taskCount)
    requires Filling(before, plan, CutsOf(plan), input, {}) && |values| == |before| && values[..so] == before[..so]
    requires forall p :: 0 <= p <= plan.taskCount ==> SummaryIs(values, so, p, plan.taskSize)
    ensures Finished(values, plan.taskSize, CutsOf(plan), input, so)
  {
    var none: set<nat> := {};
    forall p | 0 <= p < plan.taskCount ensures PartDone(values[..so], plan.taskSize, CutsOf(plan), input, p) {
      assert PartState(before, plan.taskSize, CutsOf(plan), input, p, p in none);
      OffsetMono(plan.taskSize, p, plan.taskCount);
      assert Part(values[..so], plan.taskSize, p) == Part(before[..so], plan.taskSize, p) == Part(before, plan.taskSize, p);
    }
  }

  /** Fills a fresh layout, in any order of the tasks. */
  method Compute(total: RunningTotal, plan: Plan, input: seq<nat>)
    requires ValidPlan(plan) && plan.inputSize == |input|
    requires total.Layout() && total.partsCount == plan.taskCount && total.partSize == plan.taskSize
    requires Filling(total.values[..], plan, CutsOf(plan), input, Below(plan.taskCount))
    modifies total.values
    ensures Finished(total.values[..], plan.taskSize, CutsOf(plan), input, total.SummaryOffset())
  {
    var tasks := SliceInput(plan);
    RunTasks(total, plan, tasks, input);
    ghost var before := total.values[..];
    assert total.values[..total.SummaryOffset()] == before[..total.SummaryOffset()];
    total.UpdateSummary();
    assert total.values[..][..total.SummaryOffset()] == total.values[..total.SummaryOffset()];
    AllFinished(before, total.values[..], plan, input, total.SummaryOffset());
  }

  lemma PlanFits(plan: Plan)
    requires ValidPlan(plan)
    ensures plan.inputSize <= plan.taskCount * plan.taskSize
  {
    assert plan.taskCount * plan.taskSize == plan.taskSize * plan.taskCount;
  }

  /** For every input and slicing, and in any order of the tasks, entry `i` is the sum of the first `i` values. */
  method ParallelRunningTotal(input: seq<nat>, params: Params) returns (total: RunningTotal)
    requires params.maxTasks > 0 && params.minTaskSize > 0
    ensures fresh(total) && total.Layout() && total.size == |input| + 1
    ensures forall i :: 0 <= i <= |input| ==> total.Get(i) == Wrap(Sum(input[..i]))
  {
    if |input| == 0 {
      total := new RunningTotal(0, 1);
      return;
    }
    var plan := MakePlan(params, |input|);
    PlanIsValid(params, |input|);
    PlanFits(plan);
    total := new RunningTotal(plan.taskCount, plan.taskSize);
    total.SetSize(|input| + 1);
    Compute(total, plan, input);
    forall i | 0 <= i <= |input| ensures total.Get(i) == Wrap(Sum(input[..i])) {
      GetMeaning(total, plan, input, i);
    }
  }
}
