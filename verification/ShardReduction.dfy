/**
  The reduction at the end of `check_model`: every shard's thread explores its own part of the state
  space and then collects the results of other shards along a binomial tree.
 */
module ShardReduction {

  type StateId = int

  // ---------------------------------------------------------------- bits of an index

  predicate Pow2(m: nat) { m == 1 || (m > 1 && m % 2 == 0 && Pow2(m / 2)) }

  /** `mask & i` for a mask of one bit. */
  predicate BitSet(i: nat, mask: nat)
    requires Pow2(mask)
    decreases mask
  {
    if mask == 1 then i % 2 == 1 else BitSet(i / 2, mask / 2)
  }

  /** All bits below the mask are clear. */
  predicate Aligned(i: nat, mask: nat)
    requires Pow2(mask)
    decreases mask
  {
    mask == 1 || (i % 2 == 0 && Aligned(i / 2, mask / 2))
  }

  function LowestBit(i: nat): (r: nat)
    requires i > 0
    ensures r > 0
  {
    if i % 2 == 1 then 1 else 2 * LowestBit(i / 2)
  }

  /** The index with its lowest set bit cleared. */
  function Parent(i: nat): int
    requires i > 0
  {
    i - LowestBit(i)
  }

  lemma {:induction false} StillAligned(i: nat, mask: nat)
    requires Pow2(mask) && Aligned(i, mask) && !BitSet(i, mask)
    ensures Pow2(2 * mask) && Aligned(i, 2 * mask)
    decreases mask
  {
    if mask > 1 { StillAligned(i / 2, mask / 2); }
  }

  /** Setting a bit below all the others makes it the lowest. */
  lemma {:induction false} ChildOf(i: nat, mask: nat)
    requires Pow2(mask) && Pow2(2 * mask) && Aligned(i, 2 * mask)
    ensures LowestBit(i + mask) == mask && Parent(i + mask) == i
    decreases mask
  {
    if mask > 1 {
      assert 2 * mask / 2 == 2 * (mask / 2) && (i + mask) / 2 == i / 2 + mask / 2;
      ChildOf(i / 2, mask / 2);
    }
  }

  lemma {:induction false} LowestIs(i: nat, mask: nat)
    requires Pow2(mask) && Aligned(i, mask) && i > 0
    ensures mask <= LowestBit(i) && (BitSet(i, mask) <==> LowestBit(i) == mask)
    decreases mask
  {
    if mask > 1 { LowestIs(i / 2, mask / 2); }
  }

  lemma {:induction false} ZeroHasNoBits(mask: nat)
    requires Pow2(mask)
    ensures !BitSet(0, mask) && Aligned(0, mask)
    decreases mask
  {
    if mask > 1 { ZeroHasNoBits(mask / 2); }
  }

  lemma {:induction false} LowestProperties(i: nat)
    requires i > 0
    ensures Pow2(LowestBit(i)) && 0 < LowestBit(i) <= i
    ensures Aligned(i, LowestBit(i)) && BitSet(i, LowestBit(i))
  {
    if i % 2 == 0 { LowestProperties(i / 2); }
  }

  // ---------------------------------------------------------------- the threads

  /** A partial result: which shards it covers, how often, and the states they visited. */
  datatype Result = Result(shards: multiset<nat>, visited: set<StateId>)

  function Combine(a: Result, b: Result): Result { Result(a.shards + b.shards, a.visited + b.visited) }

  datatype Thread =
    | Exploring
    /** At the head of the merging loop. */
    | Merging(mask: nat, result: Result)
    /** The latch is set. */
    | Done(result: Result)

  /** `local` is what each shard finds on its own; `merged` is history: the results taken from latches. */
  datatype State = State(local: seq<set<StateId>>, threads: seq<Thread>, merged: multiset<nat>)

  predicate Initial(s: State) {
    && |s.threads| == |s.local| > 0 && s.merged == multiset{}
    && forall i :: 0 <= i < |s.threads| ==> s.threads[i].Exploring?
  }

  /** The loop ends: the mask meets a set bit, or there is no such shard. */
  predicate Stops(n: nat, i: nat, mask: nat)
    requires Pow2(mask)
  {
    BitSet(i, mask) || i + mask >= n
  }

  /** The thread can move: it is not done, and not waiting for a latch. */
  predicate Enabled(s: State, i: nat) {
    && i < |s.threads| == |s.local|
    && match s.threads[i]
       case Exploring => true
       case Merging(mask, _) => Pow2(mask) && (Stops(|s.threads|, i, mask) || s.threads[i + mask].Done?)
       case Done(_) => false
  }

  function Apply(s: State, i: nat): State
    requires Enabled(s, i)
  {
    match s.threads[i]
    case Exploring => s.(threads := s.threads[i := Merging(1, Result(multiset{i}, s.local[i]))])
    case Merging(mask, result) =>
      if Stops(|s.threads|, i, mask) then s.(threads := s.threads[i := Done(result)])
      else s.(threads := s.threads[i := Merging(2 * mask, Combine(result, s.threads[i + mask].result))],
              merged := s.merged + multiset{i + mask})
  }

  // ---------------------------------------------------------------- what a result covers

  function Range(lo: nat, hi: nat): multiset<nat>
    decreases hi - lo
  {
    if lo >= hi then multiset{} else multiset{lo} + Range(lo + 1, hi)
  }

  function Union(local: seq<set<StateId>>, lo: nat, hi: nat): set<StateId>
    decreases hi - lo
  {
    if lo >= hi || lo >= |local| then {} else local[lo] + Union(local, lo + 1, hi)
  }

  function Covers(local: seq<set<StateId>>, lo: nat, hi: nat): Result { Result(Range(lo, hi), Union(local, lo, hi)) }

  lemma {:induction false} RangeSplit(lo: nat, mid: nat, hi: nat)
    requires lo <= mid <= hi
    ensures Range(lo, mid) + Range(mid, hi) == Range(lo, hi)
    decreases mid - lo
  {
    if lo == mid {
      EmptyPlus(Range(mid, hi));
    } else {
      RangeSplit(lo + 1, mid, hi);
      PlusAssoc(lo, Range(lo + 1, mid), Range(mid, hi), Range(lo + 1, hi));
    }
  }

  lemma EmptyPlus(x: multiset<nat>)
    ensures multiset{} + x == x
  {
  }

  lemma PlusAssoc(a: nat, b: multiset<nat>, c: multiset<nat>, bc: multiset<nat>)
    requires b + c == bc
    ensures (multiset{a} + b) + c == multiset{a} + bc
  {
  }

  lemma {:induction false} UnionSplit(local: seq<set<StateId>>, lo: nat, mid: nat, hi: nat)
    requires lo <= mid <= hi <= |local|
    ensures Union(local, lo, mid) + Union(local, mid, hi) == Union(local, lo, hi)
    decreases mid - lo
  {
    if lo < mid { UnionSplit(local, lo + 1, mid, hi); }
  }

  lemma CoversSplit(local: seq<set<StateId>>, lo: nat, mid: nat, hi: nat)
    requires lo <= mid <= hi <= |local|
    ensures Combine(Covers(local, lo, mid), Covers(local, mid, hi)) == Covers(local, lo, hi)
  {
    RangeSplit(lo, mid, hi);
    UnionSplit(local, lo, mid, hi);
  }

  lemma {:induction false} RangeOnce(lo: nat, hi: nat, k: nat)
    ensures Range(lo, hi)[k] == if lo <= k < hi then 1 else 0
    decreases hi - lo
  {
    if lo < hi { RangeOnce(lo + 1, hi, k); }
  }

  lemma {:induction false} UnionHolds(local: seq<set<StateId>>, lo: nat, hi: nat, k: nat)
    requires lo <= k < hi <= |local|
    ensures local[k] <= Union(local, lo, hi)
    decreases hi - lo
  {
    if lo < k { UnionHolds(local, lo + 1, hi, k); }
  }

  // ---------------------------------------------------------------- the invariant

  function Min(a: nat, b: nat): nat { if a < b then a else b }

  /** The last shard, exclusive, whose result shard `i` ends up with. */
  function End(n: nat, i: nat): nat { if i == 0 then n else Min(i + LowestBit(i), n) }

  ghost predicate ThreadOk(local: seq<set<StateId>>, i: nat, th: Thread) {
    match th
    case Exploring => true
    case Merging(mask, result) =>
      Pow2(mask) && Aligned(i, mask) && mask < 2 * |local| && result == Covers(local, i, Min(i + mask, |local|))
    case Done(result) => result == Covers(local, i, End(|local|, i))
  }

  /** The thread has taken the result of the shard one bit above. */
  predicate Took(th: Thread, bit: nat) { th.Done? || (th.Merging? && th.mask > bit) }

  /** A shard has been merged once if its parent has got that far, and not at all otherwise. */
  ghost predicate MergedOk(s: State, j: nat)
    requires 0 < j < |s.threads|
  {
    LowestProperties(j);
    s.merged[j] == if Took(s.threads[Parent(j)], LowestBit(j)) then 1 else 0
  }

  ghost predicate Inv(s: State) {
    && |s.threads| == |s.local| > 0
    && (forall i :: 0 <= i < |s.threads| ==> ThreadOk(s.local, i, s.threads[i]))
    && forall j :: 0 < j < |s.threads| ==> MergedOk(s, j)
  }

  lemma InitialInv(s: State)
    requires Initial(s)
    ensures Inv(s)
  {
    forall j | 0 < j < |s.threads| ensures MergedOk(s, j) {
      LowestProperties(j);
      assert s.threads[Parent(j)].Exploring?;
    }
  }

  lemma CoversOne(local: seq<set<StateId>>, i: nat)
    requires i < |local|
    ensures Result(multiset{i}, local[i]) == Covers(local, i, i + 1)
  {
    assert Range(i + 1, i + 1) == multiset{} && Union(local, i + 1, i + 1) == {};
    assert multiset{i} + multiset{} == multiset{i} && local[i] + {} == local[i];
  }

  /** A thread that leaves the loop has everything up to its end. */
  lemma StopsAtEnd(n: nat, i: nat, mask: nat)
    requires Pow2(mask) && Aligned(i, mask) && i < n && Stops(n, i, mask)
    ensures Min(i + mask, n) == End(n, i)
  {
    if i > 0 { LowestIs(i, mask); } else { ZeroHasNoBits(mask); }
  }

  /** The shard one bit above ends where the merged range does. */
  lemma ChildEnd(n: nat, i: nat, mask: nat)
    requires Pow2(mask) && Aligned(i, mask) && !Stops(n, i, mask)
    ensures Pow2(2 * mask) && Aligned(i, 2 * mask) && LowestBit(i + mask) == mask && Parent(i + mask) == i
    ensures End(n, i + mask) == Min(i + 2 * mask, n)
  {
    StillAligned(i, mask);
    ChildOf(i, mask);
  }

  lemma MoverOk(s: State, i: nat)
    requires Inv(s) && Enabled(s, i)
    ensures ThreadOk(s.local, i, Apply(s, i).threads[i])
  {
    var n, th := |s.local|, s.threads[i];
    assert ThreadOk(s.local, i, th);
    match th
    case Exploring => CoversOne(s.local, i);
    case Merging(mask, result) =>
      if Stops(n, i, mask) {
        StopsAtEnd(n, i, mask);
      } else {
        assert ThreadOk(s.local, i + mask, s.threads[i + mask]);
        MergeOk(s.local, i, mask, result, s.threads[i + mask].result);
      }
  }

  lemma MergeOk(local: seq<set<StateId>>, i: nat, mask: nat, result: Result, child: Result)
    requires i < |local| && ThreadOk(local, i, Merging(mask, result)) && !Stops(|local|, i, mask)
    requires ThreadOk(local, i + mask, Done(child))
    ensures ThreadOk(local, i, Merging(2 * mask, Combine(result, child)))
  {
    ChildEnd(|local|, i, mask);
    CoversSplit(local, i, i + mask, Min(i + 2 * mask, |local|));
  }

  lemma {:induction false} Pow2Gap(a: nat, b: nat)
    requires Pow2(a) && Pow2(b) && a < b
    ensures 2 * a <= b
    decreases a
  {
    if a > 1 { Pow2Gap(a / 2, b / 2); }
  }

  /** A parent has no bit as low as its child's. */
  lemma {:induction false} ParentAligned(j: nat)
    requires j > 0
    ensures 0 <= Parent(j) && Pow2(LowestBit(j)) && Pow2(2 * LowestBit(j)) && Aligned(Parent(j), 2 * LowestBit(j))
  {
    LowestProperties(j);
    if j % 2 == 0 {
      ParentAligned(j / 2);
      assert Parent(j) / 2 == Parent(j / 2) && 2 * LowestBit(j) / 2 == 2 * LowestBit(j / 2);
    }
  }

  /** When a thread leaves the loop it has taken all of its children's results. */
  lemma ChildrenTaken(n: nat, j: nat, mask: nat)
    requires 0 < j < n && 0 <= Parent(j) && Pow2(mask) && Aligned(Parent(j), mask) && Stops(n, Parent(j), mask)
    ensures LowestBit(j) < mask
  {
    var i, low := Parent(j), LowestBit(j);
    ParentAligned(j);
    if i > 0 {
      LowestIs(i, 2 * low);
      LowestIs(i, mask);
    } else {
      ZeroHasNoBits(mask);
    }
  }

  lemma MergedStep(s: State, i: nat, j: nat)
    requires Inv(s) && Enabled(s, i) && 0 < j < |s.threads|
    ensures MergedOk(Apply(s, i), j)
  {
    var n, th := |s.threads|, s.threads[i];
    LowestProperties(j);
    assert MergedOk(s, j) && ThreadOk(s.local, i, th);
    if th.Merging? && Stops(n, i, th.mask) {
      if Parent(j) == i { ChildrenTaken(n, j, th.mask); }
    } else if th.Merging? {
      ChildEnd(n, i, th.mask);
      if Parent(j) == i && LowestBit(j) > th.mask { Pow2Gap(th.mask, LowestBit(j)); }
      if Parent(j) == i && LowestBit(j) == th.mask { assert j == i + th.mask; }
    }
  }

  /** Every step of every shard keeps the invariant. */
  lemma StepInv(s: State, i: nat)
    requires Inv(s) && Enabled(s, i)
    ensures Inv(Apply(s, i))
  {
    var s' := Apply(s, i);
    forall k | 0 <= k < |s'.threads| ensures ThreadOk(s'.local, k, s'.threads[k]) {
      if k == i { MoverOk(s, i); } else { assert ThreadOk(s.local, k, s.threads[k]); }
    }
    forall j | 0 < j < |s'.threads| ensures MergedOk(s', j) { MergedStep(s, i, j); }
  }

  // ---------------------------------------------------------------- whole runs

  /** A schedule names the shard that moves at each step. */
  ghost predicate IsRun(run: seq<State>, schedule: seq<nat>) {
    && |run| == |schedule| + 1 && Initial(run[0])
    && forall k :: 0 <= k < |schedule| ==> Happens(run[k], schedule[k], run[k + 1])
  }

  ghost predicate Happens(s: State, i: nat, s': State) { Enabled(s, i) && s' == Apply(s, i) }

  lemma {:induction false} RunInv(run: seq<State>, schedule: seq<nat>, k: nat)
    requires IsRun(run, schedule) && k < |run|
    ensures Inv(run[k]) && run[k].local == run[0].local && |run[k].threads| == |run[0].threads|
  {
    if k == 0 {
      InitialInv(run[0]);
    } else {
      RunInv(run, schedule, k - 1);
      assert Happens(run[k - 1], schedule[k - 1], run[k]);
      StepInv(run[k - 1], schedule[k - 1]);
    }
  }

  predicate AllDone(s: State) { forall i :: 0 <= i < |s.threads| ==> s.threads[i].Done? }

  /** When all are done, shard 0 has every shard once and every state any shard visited. */
  lemma ShardZeroHasAll(run: seq<State>, schedule: seq<nat>, k: nat, i: nat)
    requires IsRun(run, schedule) && k < |run| && AllDone(run[k]) && i < |run[0].local|
    ensures |run[k].threads| == |run[0].local| && run[k].threads[0].result.shards[i] == 1
    ensures run[0].local[i] <= run[k].threads[0].result.visited
    ensures run[k].threads[0].result == Covers(run[0].local, 0, |run[0].local|)
  {
    RunInv(run, schedule, k);
    assert ThreadOk(run[k].local, 0, run[k].threads[0]);
    RangeOnce(0, |run[0].local|, i);
    UnionHolds(run[0].local, 0, |run[0].local|, i);
  }

  /** Every other shard is merged exactly once, into the shard with its lowest bit cleared. */
  lemma MergedExactlyOnce(run: seq<State>, schedule: seq<nat>, k: nat, j: nat)
    requires IsRun(run, schedule) && k < |run| && 0 < j < |run[0].threads|
    ensures run[k].merged[j] <= 1
    ensures AllDone(run[k]) ==> run[k].merged[j] == 1
  {
    RunInv(run, schedule, k);
    assert MergedOk(run[k], j);
    LowestProperties(j);
  }

  /** A merge is always by the parent, which has the lower index. */
  lemma MergedByParent(run: seq<State>, schedule: seq<nat>, k: nat)
    requires IsRun(run, schedule) && k < |schedule| && run[k + 1].merged != run[k].merged
    ensures run[k].threads[schedule[k]].Merging?
    ensures var j := schedule[k] + run[k].threads[schedule[k]].mask;
            && schedule[k] < j < |run[k].threads| && Parent(j) == schedule[k]
            && run[k].threads[j].Done? && run[k + 1].merged == run[k].merged + multiset{j}
  {
    RunInv(run, schedule, k);
    var i := schedule[k];
    assert Happens(run[k], i, run[k + 1]);
    var th := run[k].threads[i];
    assert ThreadOk(run[k].local, i, th);
    if th.Merging? && !Stops(|run[k].threads|, i, th.mask) { ChildEnd(|run[k].threads|, i, th.mask); }
  }

  // ---------------------------------------------------------------- progress

  lemma {:induction false} HighestUndone(threads: seq<Thread>, k: nat) returns (i: nat)
    requires k <= |threads| && exists j :: 0 <= j < k && !threads[j].Done?
    ensures i < k && !threads[i].Done? && forall j :: i < j < k ==> threads[j].Done?
  {
    if !threads[k - 1].Done? { i := k - 1; } else { i := HighestUndone(threads, k - 1); }
  }

  /** No deadlock: waits go only to higher shards, so some shard can move until all are done. */
  lemma SomeoneCanMove(run: seq<State>, schedule: seq<nat>, k: nat) returns (i: nat)
    requires IsRun(run, schedule) && k < |run| && !AllDone(run[k])
    ensures Enabled(run[k], i)
  {
    RunInv(run, schedule, k);
    i := HighestUndone(run[k].threads, |run[k].threads|);
    assert ThreadOk(run[k].local, i, run[k].threads[i]);
  }

  /** How far a shard is from being done. */
  function Rank(n: nat, th: Thread): nat {
    match th
    case Exploring => 2 * n + 1
    case Merging(mask, _) => if mask < 2 * n then 2 * n - mask else 0
    case Done(_) => 0
  }

  function TotalRank(n: nat, threads: seq<Thread>): nat {
    if threads == [] then 0 else Rank(n, threads[0]) + TotalRank(n, threads[1..])
  }

  lemma {:induction false} TotalRankUpdate(n: nat, threads: seq<Thread>, i: nat, th: Thread)
    requires i < |threads|
    ensures TotalRank(n, threads[i := th]) + Rank(n, threads[i]) == TotalRank(n, threads) + Rank(n, th)
    decreases |threads|
  {
    if i == 0 {
      assert threads[0 := th][1..] == threads[1..];
    } else {
      assert threads[i := th][1..] == threads[1..][i - 1 := th];
      TotalRankUpdate(n, threads[1..], i - 1, th);
    }
  }

  /** Every step brings the end nearer, so every schedule ends, and by the above with all done. */
  lemma EveryStepCounts(s: State, i: nat)
    requires Inv(s) && Enabled(s, i)
    ensures TotalRank(|s.local|, Apply(s, i).threads) < TotalRank(|s.local|, s.threads)
  {
    assert ThreadOk(s.local, i, s.threads[i]);
    TotalRankUpdate(|s.local|, s.threads, i, Apply(s, i).threads[i]);
  }

  /** No run is longer than the rank of its first state. */
  lemma {:induction false} RunsAreBounded(run: seq<State>, schedule: seq<nat>, k: nat)
    requires IsRun(run, schedule) && k < |run|
    ensures k + TotalRank(|run[0].local|, run[k].threads) <= TotalRank(|run[0].local|, run[0].threads)
  {
    if k > 0 {
      RunsAreBounded(run, schedule, k - 1);
      RunInv(run, schedule, k - 1);
      assert Happens(run[k - 1], schedule[k - 1], run[k]);
      EveryStepCounts(run[k - 1], schedule[k - 1]);
    }
  }
}
