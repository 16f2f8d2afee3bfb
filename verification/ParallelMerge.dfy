/**
  `parallel_merge`: a stable merge of two sorted ranges, cut into shards in three phases.

  The shards run as independent tasks.  The model returns the base-case jobs the tasks end up doing,
  in the order they are spawned, and then lets their element writes happen in any order at all.
 */
module ParallelMerge {
  import opened Arithmetic
  import opened Ordering

  /** The sequential merge: on ties the element of the first range comes first. */
  function Merge<T>(lt: Compare<T>, a: seq<T>, b: seq<T>): seq<T>
    decreases |a| + |b|
  {
    if a == [] then b
    else if b == [] then a
    else if lt(b[0], a[0]) then [b[0]] + Merge(lt, a, b[1..])
    else [a[0]] + Merge(lt, a[1..], b)
  }

  predicate TakesFirst<T>(lt: Compare<T>, a: seq<T>, b: seq<T>) { a != [] && (b == [] || !lt(b[0], a[0])) }

  lemma MergeTakesFirst<T>(lt: Compare<T>, a: seq<T>, b: seq<T>)
    requires TakesFirst(lt, a, b)
    ensures Merge(lt, a, b) == [a[0]] + Merge(lt, a[1..], b)
  {
  }

  lemma MergeTakesSecond<T>(lt: Compare<T>, a: seq<T>, b: seq<T>)
    requires b != [] && !TakesFirst(lt, a, b)
    ensures Merge(lt, a, b) == [b[0]] + Merge(lt, a, b[1..])
  {
  }

  lemma MultisetHead<T>(s: seq<T>)
    requires s != []
    ensures multiset(s) == multiset{s[0]} + multiset(s[1..])
  {
    assert s == [s[0]] + s[1..];
  }

  lemma MergedMultiset<T>(merged: seq<T>, tail: seq<T>, a: seq<T>, other: seq<T>)
    requires a != [] && merged == [a[0]] + tail && multiset(tail) == multiset(a[1..]) + multiset(other)
    ensures multiset(merged) == multiset(a) + multiset(other)
  {
    MultisetHead(a);
    MultisetHead(merged);
    assert merged[1..] == tail;
  }

  lemma {:induction false} MergeMultiset<T>(lt: Compare<T>, a: seq<T>, b: seq<T>)
    ensures multiset(Merge(lt, a, b)) == multiset(a) + multiset(b)
    ensures |Merge(lt, a, b)| == |a| + |b|
    decreases |a| + |b|
  {
    if a == [] && b == [] {
    } else if TakesFirst(lt, a, b) {
      MergeTakesFirst(lt, a, b);
      MergeMultiset(lt, a[1..], b);
      MergedMultiset(Merge(lt, a, b), Merge(lt, a[1..], b), a, b);
    } else {
      MergeTakesSecond(lt, a, b);
      MergeMultiset(lt, a, b[1..]);
      MergedMultiset(Merge(lt, a, b), Merge(lt, a, b[1..]), b, a);
    }
  }

  /** No element of `s` comes before `x`. */
  ghost predicate NoneBefore<T>(lt: Compare<T>, x: T, s: seq<T>) {
    forall i :: 0 <= i < |s| ==> !lt(s[i], x)
  }

  lemma {:induction false} MergeSorted<T(!new)>(lt: Compare<T>, a: seq<T>, b: seq<T>)
    requires StrictWeakOrder(lt) && Sorted(lt, a) && Sorted(lt, b)
    ensures Sorted(lt, Merge(lt, a, b))
    ensures forall x :: NoneBefore(lt, x, a) && NoneBefore(lt, x, b) ==> NoneBefore(lt, x, Merge(lt, a, b))
    decreases |a| + |b|
  {
    if a == [] || b == [] {
    } else if lt(b[0], a[0]) {
      MergeSorted(lt, a, b[1..]);
      assert forall i :: 0 <= i < |a| ==> !lt(a[i], b[0]);
      assert NoneBefore(lt, b[0], b[1..]);
      forall x | NoneBefore(lt, x, a) && NoneBefore(lt, x, b)
        ensures NoneBefore(lt, x, Merge(lt, a, b))
      {
        assert NoneBefore(lt, x, b[1..]);
      }
    } else {
      MergeSorted(lt, a[1..], b);
      assert forall i :: 0 <= i < |b| ==> !lt(b[i], a[0]);
      assert NoneBefore(lt, a[0], a[1..]);
      forall x | NoneBefore(lt, x, a) && NoneBefore(lt, x, b)
        ensures NoneBefore(lt, x, Merge(lt, a, b))
      {
        assert NoneBefore(lt, x, a[1..]);
      }
    }
  }

  /** The elements of `s` equivalent to `x`, in order. */
  function Class<T>(lt: Compare<T>, x: T, s: seq<T>): seq<T> {
    if s == [] then [] else Own(lt, x, s[0]) + Class(lt, x, s[1..])
  }

  function Own<T>(lt: Compare<T>, x: T, y: T): seq<T> { if !lt(x, y) && !lt(y, x) then [y] else [] }

  /** A head of the second range taken first has no equivalents in the first range. */
  lemma ClassBefore<T(!new)>(lt: Compare<T>, x: T, a: seq<T>, y: T)
    requires StrictWeakOrder(lt) && Sorted(lt, a) && !lt(x, y) && !lt(y, x)
    requires a == [] || lt(y, a[0])
    ensures Class(lt, x, a) == []
  {
    forall i | 0 <= i < |a| ensures lt(x, a[i]) {
      assert !lt(a[i], a[0]);
    }
    ClassEmpty(lt, x, a);
  }

  lemma {:induction false} ClassEmpty<T(!new)>(lt: Compare<T>, x: T, s: seq<T>)
    requires forall i :: 0 <= i < |s| ==> lt(x, s[i])
    ensures Class(lt, x, s) == []
  {
    if s != [] { ClassEmpty(lt, x, s[1..]); }
  }

  lemma Assoc<T>(x: seq<T>, y: seq<T>, z: seq<T>)
    ensures x + (y + z) == (x + y) + z
  {
  }

  lemma ClassCons<T>(lt: Compare<T>, x: T, y: T, s: seq<T>)
    ensures Class(lt, x, [y] + s) == Own(lt, x, y) + Class(lt, x, s)
  {
    assert ([y] + s)[1..] == s;
  }

  lemma Exchange<T>(x: seq<T>, y: seq<T>, z: seq<T>)
    requires x == [] || y == []
    ensures x + (y + z) == y + (x + z)
  {
  }

  lemma StableFirst<T>(lt: Compare<T>, x: T, head: T, a: seq<T>, b: seq<T>, merged: seq<T>)
    requires Class(lt, x, merged) == Class(lt, x, a) + Class(lt, x, b)
    ensures Class(lt, x, [head] + merged) == Class(lt, x, [head] + a) + Class(lt, x, b)
  {
    ClassCons(lt, x, head, merged);
    ClassCons(lt, x, head, a);
    Assoc(Own(lt, x, head), Class(lt, x, a), Class(lt, x, b));
  }

  lemma StableSecond<T>(lt: Compare<T>, x: T, a: seq<T>, head: T, b: seq<T>, merged: seq<T>)
    requires Class(lt, x, merged) == Class(lt, x, a) + Class(lt, x, b) && (Own(lt, x, head) != [] ==> Class(lt, x, a) == [])
    ensures Class(lt, x, [head] + merged) == Class(lt, x, a) + Class(lt, x, [head] + b)
  {
    ClassCons(lt, x, head, merged);
    ClassCons(lt, x, head, b);
    Exchange(Own(lt, x, head), Class(lt, x, a), Class(lt, x, b));
  }

  /** Stability: within an equivalence class, all of `a` in order, then all of `b` in order. */
  lemma {:induction false} MergeStable<T(!new)>(lt: Compare<T>, a: seq<T>, b: seq<T>, x: T)
    requires StrictWeakOrder(lt) && Sorted(lt, a) && Sorted(lt, b)
    ensures Class(lt, x, Merge(lt, a, b)) == Class(lt, x, a) + Class(lt, x, b)
    decreases |a| + |b|
  {
    if a == [] && b == [] {
    } else if TakesFirst(lt, a, b) {
      MergeTakesFirst(lt, a, b);
      MergeStable(lt, a[1..], b, x);
      StableFirst(lt, x, a[0], a[1..], b, Merge(lt, a[1..], b));
      assert [a[0]] + a[1..] == a;
    } else {
      MergeTakesSecond(lt, a, b);
      MergeStable(lt, a, b[1..], x);
      if Own(lt, x, b[0]) != [] { ClassBefore(lt, x, a, b[0]); }
      StableSecond(lt, x, a, b[0], b[1..], Merge(lt, a, b[1..]));
      assert [b[0]] + b[1..] == b;
    }
  }

  // ---------------------------------------------------------------- cutting a merge in two

  /** Every element on the left is strictly before every element on the right. */
  ghost predicate Before<T>(lt: Compare<T>, left: seq<T>, right: seq<T>) {
    forall x, y :: x in left && y in right ==> lt(x, y)
  }

  ghost predicate Separated<T>(lt: Compare<T>, a1: seq<T>, b1: seq<T>, a2: seq<T>, b2: seq<T>) {
    Before(lt, a1, a2) && Before(lt, a1, b2) && Before(lt, b1, a2) && Before(lt, b1, b2)
  }

  /** A separated suffix does not change which head goes first. */
  lemma SameHead<T(!new)>(lt: Compare<T>, a1: seq<T>, b1: seq<T>, a2: seq<T>, b2: seq<T>)
    requires StrictWeakOrder(lt) && Separated(lt, a1, b1, a2, b2) && (a1 != [] || b1 != [])
    ensures TakesFirst(lt, a1 + a2, b1 + b2) == TakesFirst(lt, a1, b1)
  {
    if b1 == [] && b2 != [] {
      assert a1[0] in a1 && b2[0] in b2;
      assert !lt(b2[0], a1[0]);
    }
    if a1 == [] && a2 != [] {
      assert b1[0] in b1 && a2[0] in a2;
    }
  }

  lemma SeparatedTail<T(!new)>(lt: Compare<T>, a1: seq<T>, b1: seq<T>, a2: seq<T>, b2: seq<T>)
    requires Separated(lt, a1, b1, a2, b2)
    ensures a1 != [] ==> Separated(lt, a1[1..], b1, a2, b2)
    ensures b1 != [] ==> Separated(lt, a1, b1[1..], a2, b2)
  {
  }

  lemma SplitFirst<T>(lt: Compare<T>, a: seq<T>, b: seq<T>, a1: seq<T>, b1: seq<T>, rest: seq<T>)
    requires TakesFirst(lt, a, b) && TakesFirst(lt, a1, b1) && a[0] == a1[0]
    requires Merge(lt, a[1..], b) == Merge(lt, a1[1..], b1) + rest
    ensures Merge(lt, a, b) == Merge(lt, a1, b1) + rest
  {
    MergeTakesFirst(lt, a, b);
    MergeTakesFirst(lt, a1, b1);
    Assoc([a[0]], Merge(lt, a1[1..], b1), rest);
  }

  lemma SplitSecond<T>(lt: Compare<T>, a: seq<T>, b: seq<T>, a1: seq<T>, b1: seq<T>, rest: seq<T>)
    requires b != [] && b1 != [] && !TakesFirst(lt, a, b) && !TakesFirst(lt, a1, b1) && b[0] == b1[0]
    requires Merge(lt, a, b[1..]) == Merge(lt, a1, b1[1..]) + rest
    ensures Merge(lt, a, b) == Merge(lt, a1, b1) + rest
  {
    MergeTakesSecond(lt, a, b);
    MergeTakesSecond(lt, a1, b1);
    Assoc([b[0]], Merge(lt, a1, b1[1..]), rest);
  }

  lemma ConcatHead<T>(x: seq<T>, y: seq<T>)
    requires x != []
    ensures (x + y)[0] == x[0] && (x + y)[1..] == x[1..] + y
  {
  }

  lemma EmptyConcat<T>(s: seq<T>)
    ensures [] + s == s
  {
  }

  lemma {:induction false} MergeSplit<T(!new)>(lt: Compare<T>, a1: seq<T>, b1: seq<T>, a2: seq<T>, b2: seq<T>)
    requires StrictWeakOrder(lt) && Separated(lt, a1, b1, a2, b2)
    ensures Merge(lt, a1 + a2, b1 + b2) == Merge(lt, a1, b1) + Merge(lt, a2, b2)
    decreases |a1| + |b1|
  {
    if a1 == [] && b1 == [] {
      EmptyConcat(a2);
      EmptyConcat(b2);
      EmptyConcat(Merge(lt, a2, b2));
    } else {
      SameHead(lt, a1, b1, a2, b2);
      SeparatedTail(lt, a1, b1, a2, b2);
      if TakesFirst(lt, a1, b1) {
        MergeSplit(lt, a1[1..], b1, a2, b2);
        ConcatHead(a1, a2);
        SplitFirst(lt, a1 + a2, b1 + b2, a1, b1, Merge(lt, a2, b2));
      } else {
        MergeSplit(lt, a1, b1[1..], a2, b2);
        ConcatHead(b1, b2);
        SplitSecond(lt, a1 + a2, b1 + b2, a1, b1, Merge(lt, a2, b2));
      }
    }
  }

  // ---------------------------------------------------------------- the algorithm

  datatype Phase = First | Second | Third

  function Rank(phase: Phase): nat { match phase case First => 2 case Second => 1 case Third => 0 }

  function NextPhase(phase: Phase): Phase { if phase == First then Second else Third }

  /** A base case: merge `a` and `b` sequentially (or copy one of them) to `dst` onwards. */
  datatype Job<T> = Job(dst: nat, a: seq<T>, b: seq<T>)

  /** What the jobs write, one after the other. */
  function Output<T>(lt: Compare<T>, jobs: seq<Job<T>>): seq<T> {
    if jobs == [] then [] else Output(lt, jobs[..|jobs| - 1]) + Written(lt, jobs[|jobs| - 1])
  }

  function Written<T>(lt: Compare<T>, job: Job<T>): seq<T> { Merge(lt, job.a, job.b) }

  /** The jobs' destinations are consecutive ranges covering `from` up to `to`. */
  ghost predicate Tiles<T>(jobs: seq<Job<T>>, from: nat, to: nat) {
    if jobs == [] then from == to
    else var last := jobs[|jobs| - 1];
         last.dst + |last.a| + |last.b| == to && Tiles(jobs[..|jobs| - 1], from, last.dst)
  }

  ghost predicate ElementsFrom<T(!new)>(jobs: seq<Job<T>>, a: seq<T>, b: seq<T>) {
    forall k, x :: 0 <= k < |jobs| && (x in jobs[k].a || x in jobs[k].b) ==> x in a || x in b
  }

  /** No equivalence class is split: an earlier job's elements are strictly before a later job's. */
  ghost predicate Ordered<T>(lt: Compare<T>, jobs: seq<Job<T>>) {
    forall i, k :: 0 <= i < k < |jobs| ==> Separated(lt, jobs[i].a, jobs[i].b, jobs[k].a, jobs[k].b)
  }

  lemma {:induction false} Join<T>(lt: Compare<T>, left: seq<Job<T>>, right: seq<Job<T>>, from: nat, mid: nat, to: nat)
    requires Tiles(left, from, mid) && Tiles(right, mid, to)
    ensures Tiles(left + right, from, to)
    ensures Output(lt, left + right) == Output(lt, left) + Output(lt, right)
    decreases |right|
  {
    if right == [] {
      assert left + right == left;
    } else {
      var rest, last := right[..|right| - 1], right[|right| - 1];
      assert (left + right)[..|left + right| - 1] == left + rest;
      Join(lt, left, rest, from, mid, last.dst);
      Assoc(Output(lt, left), Output(lt, rest), Written(lt, last));
    }
  }

  lemma JoinOrdered<T(!new)>(lt: Compare<T>, left: seq<Job<T>>, right: seq<Job<T>>,
                       a1: seq<T>, b1: seq<T>, a2: seq<T>, b2: seq<T>)
    requires Ordered(lt, left) && Ordered(lt, right) && Separated(lt, a1, b1, a2, b2)
    requires ElementsFrom(left, a1, b1) && ElementsFrom(right, a2, b2)
    ensures Ordered(lt, left + right) && ElementsFrom(left + right, a1 + a2, b1 + b2)
  {
    var all := left + right;
    forall i, k | 0 <= i < k < |all|
      ensures Separated(lt, all[i].a, all[i].b, all[k].a, all[k].b)
    {
      if i < |left| <= k {
        assert all[i] == left[i] && all[k] == right[k - |left|];
      }
    }
  }

  /** The fixed range is `src_0` in the first phase and `src_1` afterwards. */
  function MergeBy<T>(phase: Phase, lt: Compare<T>, fixed: seq<T>, search: seq<T>): seq<T> {
    if phase == First then Merge(lt, fixed, search) else Merge(lt, search, fixed)
  }

  /** `std::lower_bound`: how many leading elements come before `x`. */
  function LowerBound<T>(lt: Compare<T>, s: seq<T>, x: T): (n: nat)
    ensures n <= |s| && (n < |s| ==> !lt(s[n], x)) && forall i :: 0 <= i < n ==> lt(s[i], x)
  {
    if s == [] || !lt(s[0], x) then 0 else 1 + LowerBound(lt, s[1..], x)
  }

  /** `j` splits the search range into what comes before `x` and what does not. */
  ghost predicate Splits<T>(lt: Compare<T>, search: seq<T>, j: nat, x: T) {
    && j <= |search|
    && (forall q :: 0 <= q < j ==> lt(search[q], x))
    && (forall q :: j <= q < |search| ==> !lt(search[q], x))
  }

  lemma LowerBoundSplits<T(!new)>(lt: Compare<T>, s: seq<T>, x: T)
    requires StrictWeakOrder(lt) && Sorted(lt, s)
    ensures Splits(lt, s, LowerBound(lt, s, x), x)
  {
  }

  lemma LowerBoundIs<T(!new)>(lt: Compare<T>, s: seq<T>, j: nat, x: T)
    requires Splits(lt, s, j, x)
    ensures LowerBound(lt, s, x) == j
  {
    var n := LowerBound(lt, s, x);
    assert n < |s| ==> !lt(s[n], x);
    assert j < |s| ==> !lt(s[j], x);
  }

  /** The cut before `fixed[i]`: a class boundary in the fixed range and the matching search position. */
  ghost predicate Cut<T>(lt: Compare<T>, fixed: seq<T>, search: seq<T>, i: nat, j: nat) {
    && i <= |fixed| && j <= |search|
    && (i == 0 ==> j == 0)
    && (i == |fixed| ==> j == |search|)
    && (0 < i < |fixed| ==> lt(fixed[i - 1], fixed[i]) && Splits(lt, search, j, fixed[i]))
  }

  lemma CutSeparates<T(!new)>(lt: Compare<T>, fixed: seq<T>, search: seq<T>, i: nat, j: nat)
    requires StrictWeakOrder(lt) && Sorted(lt, fixed) && Sorted(lt, search) && Cut(lt, fixed, search, i, j)
    ensures Separated(lt, fixed[..i], search[..j], fixed[i..], search[j..])
  {
    if 0 < i < |fixed| {
      forall x | x in fixed[..i] || x in search[..j]
        ensures lt(x, fixed[i])
      {
        if x in fixed[..i] {
          var p :| 0 <= p < i && fixed[p] == x;
          assert p < i - 1 ==> !lt(fixed[i - 1], fixed[p]);
        }
      }
      forall y | y in fixed[i..] || y in search[j..]
        ensures !lt(y, fixed[i])
      {
      }
    }
  }

  lemma SeparatedParts<T(!new)>(lt: Compare<T>, a1: seq<T>, b1: seq<T>, a2: seq<T>, b2: seq<T>, a: seq<T>, b: seq<T>)
    requires Separated(lt, a1, b1, a, b) && a2 <= a && b2 <= b
    ensures Separated(lt, a1, b1, a2, b2)
  {
    assert forall x :: x in a2 ==> x in a;
    assert forall x :: x in b2 ==> x in b;
  }

  lemma MergeBySplit<T(!new)>(phase: Phase, lt: Compare<T>, a1: seq<T>, b1: seq<T>, a2: seq<T>, b2: seq<T>)
    requires StrictWeakOrder(lt) && Separated(lt, a1, b1, a2, b2)
    ensures MergeBy(phase, lt, a1 + a2, b1 + b2) == MergeBy(phase, lt, a1, b1) + MergeBy(phase, lt, a2, b2)
  {
    if phase == First { MergeSplit(lt, a1, b1, a2, b2); } else { MergeSplit(lt, b1, a1, b2, a2); }
  }

  /** What a call has done once its jobs have run. */
  ghost predicate Merges<T(!new)>(phase: Phase, lt: Compare<T>, jobs: seq<Job<T>>, fixed: seq<T>, search: seq<T>, dst: nat) {
    && Tiles(jobs, dst, dst + |fixed| + |search|)
    && Output(lt, jobs) == MergeBy(phase, lt, fixed, search)
    && ElementsFrom(jobs, fixed, search)
    && Ordered(lt, jobs)
  }

  // ---------------------------------------------------------------- fair shares

  /** At most `size` elements, not counting further ones equivalent to the last of them. */
  ghost predicate Share<T>(lt: Compare<T>, s: seq<T>, size: nat) { |s| <= size || (size > 0 && !lt(s[size - 1], s[|s| - 1])) }

  /** The job is small, or has no more than its share of either range. */
  ghost predicate FairJob<T>(lt: Compare<T>, job: Job<T>, minTaskSize: nat, share0: nat, share1: nat) {
    |job.a| + |job.b| <= minTaskSize || (Share(lt, job.a, share0) && Share(lt, job.b, share1))
  }

  ghost predicate Fair<T>(lt: Compare<T>, jobs: seq<Job<T>>, minTaskSize: nat, share0: nat, share1: nat) {
    forall k :: 0 <= k < |jobs| ==> FairJob(lt, jobs[k], minTaskSize, share0, share1)
  }

  /** So much for each of half the tasks is enough for all, and at least half of what a task should have. */
  predicate Enough(share: nat, size: nat, minTaskSize: nat, maxTasks: nat) {
    size <= (maxTasks + 1) / 2 * share && minTaskSize <= 2 * share
  }

  /** The phases so far have cut their range into shares. */
  ghost predicate SharedOut<T>(phase: Phase, lt: Compare<T>, src0: seq<T>, src1: seq<T>, minTaskSize: nat, maxTasks: nat, share0: nat, share1: nat) {
    match phase
    case First => Enough(share0, |src0|, minTaskSize, maxTasks) && Enough(share1, |src1|, minTaskSize, maxTasks)
    case Second => |src0| > 0 && Share(lt, src0, share0) && Enough(share1, |src1|, minTaskSize, maxTasks)
    case Third => Share(lt, src0, share0) && Share(lt, src1, share1)
  }

  lemma CeilAtMost(size: nat, parts: nat, share: nat)
    requires parts > 0 && size <= parts * share
    ensures (size + parts - 1) / parts <= share
  {
    var q := (size + parts - 1) / parts;
    assert size + parts - 1 == parts * q + (size + parts - 1) % parts;
    if q > share { MulMono(parts, share + 1, q); }
  }

  lemma NotBefore<T(!new)>(lt: Compare<T>, x: T, y: T, z: T)
    requires StrictWeakOrder(lt) && !lt(x, y) && !lt(y, z)
    ensures !lt(x, z)
  {
  }

  lemma ShareSlice<T(!new)>(lt: Compare<T>, s: seq<T>, lo: nat, hi: nat, size: nat)
    requires StrictWeakOrder(lt) && Sorted(lt, s) && lo <= hi <= |s| && Share(lt, s, size)
    ensures Share(lt, s[lo..hi], size)
  {
    if hi - lo > size {
      var x, y, z, last := s[lo + size - 1], s[size - 1], s[hi - 1], s[|s| - 1];
      assert x == y || !lt(x, y);
      assert z == last || !lt(last, z);
      if x != y { NotBefore(lt, x, y, last); }
      if z != last { NotBefore(lt, x, last, z); }
      assert s[lo..hi][size - 1] == x && s[lo..hi][hi - lo - 1] == z;
    }
  }

  /** A shard that was extended from its target size by equivalent elements only. */
  lemma ExtendedShare<T(!new)>(lt: Compare<T>, fixed: seq<T>, begin: nat, target: nat, end: nat, share: nat)
    requires StrictWeakOrder(lt) && Sorted(lt, fixed) && 0 < target <= share && begin + target <= end <= |fixed|
    requires !lt(fixed[begin + target - 1], fixed[end - 1])
    ensures Share(lt, fixed[begin..end], share)
  {
    if end - begin > share {
      var x, y, z := fixed[begin + share - 1], fixed[begin + target - 1], fixed[end - 1];
      assert x == y || !lt(x, y);
      if x != y { NotBefore(lt, x, y, z); }
      assert fixed[begin..end][share - 1] == x && fixed[begin..end][end - begin - 1] == z;
    }
  }

  /** There is something to cut up; only then are the ranges divided among tasks. */
  predicate CutsUp(phase: Phase, size0: nat, size1: nat, minTaskSize: nat) {
    size0 > 0 && size1 > 0 && phase != Third && size0 + size1 > minTaskSize
  }

  method Impl<T(!new)>(phase: Phase, src0: seq<T>, src1: seq<T>, dst: nat, lt: Compare<T>, minTaskSize: nat, maxTasks: nat,
                       ghost fair: bool, ghost share0: nat, ghost share1: nat)
    returns (jobs: seq<Job<T>>)
    requires StrictWeakOrder(lt) && Sorted(lt, src0) && Sorted(lt, src1)
    requires CutsUp(phase, |src0|, |src1|, minTaskSize) ==> maxTasks >= 1
    requires fair ==> SharedOut(phase, lt, src0, src1, minTaskSize, maxTasks, share0, share1)
    ensures Merges(First, lt, jobs, src0, src1, dst)
    ensures fair && (phase == First ==> src0 != [] && src1 != []) ==> Fair(lt, jobs, minTaskSize, share0, share1)
    decreases Rank(phase), 1
  {
    if !CutsUp(phase, |src0|, |src1|, minTaskSize) {
      jobs := [Job(dst, src0, src1)];
      assert jobs[..0] == [];
    } else if phase == First {
      jobs := Fanout(phase, src0, src1, dst, lt, minTaskSize, maxTasks, fair, share0, share1);
    } else {
      jobs := Fanout(phase, src1, src0, dst, lt, minTaskSize, maxTasks, fair, share0, share1);
    }
  }

  /** The share of the range that the phase cuts. */
  function OwnShare(phase: Phase, share0: nat, share1: nat): nat { if phase == First then share0 else share1 }

  method TargetSize(partSize: nat, minTaskSize: nat, maxTasks: nat, ghost share: nat) returns (size: nat)
    requires partSize > 0 && maxTasks > 0
    ensures size > 0 && (Enough(share, partSize, minTaskSize, maxTasks) ==> size <= share)
  {
    var maxTasksPerPhase := (maxTasks + 1) / 2;
    size := Max((partSize + maxTasksPerPhase - 1) / maxTasksPerPhase, (minTaskSize + 1) / 2);
    CeilPositive(partSize, maxTasksPerPhase);
    if Enough(share, partSize, minTaskSize, maxTasks) { CeilAtMost(partSize, maxTasksPerPhase, share); }
  }

  lemma EnoughForLess(share: nat, size: nat, less: nat, minTaskSize: nat, maxTasks: nat)
    requires Enough(share, size, minTaskSize, maxTasks) && less <= size
    ensures Enough(share, less, minTaskSize, maxTasks)
  {
  }

  /** A shard and its part of the search range are ready for the next phase. */
  lemma NextCutting<T(!new)>(phase: Phase, lt: Compare<T>, fixed: seq<T>, search: seq<T>, begin: nat, end: nat, lo: nat, hi: nat,
                             minTaskSize: nat, maxTasks: nat, share0: nat, share1: nat)
    requires StrictWeakOrder(lt) && Sorted(lt, search) && phase != Third && begin < end <= |fixed| && lo <= hi <= |search|
    requires Cutting(phase, lt, fixed, search, minTaskSize, maxTasks, share0, share1) && Share(lt, fixed[begin..end], OwnShare(phase, share0, share1))
    ensures phase == First ==> SharedOut(Second, lt, fixed[begin..end], search[lo..hi], minTaskSize, maxTasks, share0, share1)
    ensures phase == Second ==> SharedOut(Third, lt, search[lo..hi], fixed[begin..end], minTaskSize, maxTasks, share0, share1)
  {
    if phase == First {
      EnoughForLess(share1, |search|, hi - lo, minTaskSize, maxTasks);
    } else {
      ShareSlice(lt, search, lo, hi, share0);
    }
  }

  /** The phase has its ranges in the right state. */
  ghost predicate Cutting<T>(phase: Phase, lt: Compare<T>, fixed: seq<T>, search: seq<T>, minTaskSize: nat, maxTasks: nat, share0: nat, share1: nat) {
    if phase == First then SharedOut(phase, lt, fixed, search, minTaskSize, maxTasks, share0, share1)
    else SharedOut(phase, lt, search, fixed, minTaskSize, maxTasks, share0, share1)
  }

  method Fanout<T(!new)>(phase: Phase, fixed: seq<T>, search: seq<T>, dst: nat, lt: Compare<T>, minTaskSize: nat, maxTasks: nat,
                         ghost fair: bool, ghost share0: nat, ghost share1: nat)
    returns (jobs: seq<Job<T>>)
    requires StrictWeakOrder(lt) && Sorted(lt, fixed) && Sorted(lt, search) && maxTasks >= 1
    requires phase != Third && |fixed| > 0
    requires fair ==> Cutting(phase, lt, fixed, search, minTaskSize, maxTasks, share0, share1)
    ensures Merges(phase, lt, jobs, fixed, search, dst)
    ensures fair ==> Fair(lt, jobs, minTaskSize, share0, share1)
    decreases Rank(phase), 0, 2
  {
    var begin, partSize := 0, |fixed|;
    var targetSize := TargetSize(partSize, minTaskSize, maxTasks, OwnShare(phase, share0, share1));
    var dstAt := dst;
    ghost var j: nat := 0;
    jobs := [];
    while begin != |fixed|
      invariant begin <= |fixed| && partSize == |fixed| - begin && dstAt == dst + begin
      invariant Cut(lt, fixed, search, begin, j)
      invariant Merges(phase, lt, jobs, fixed[..begin], search[..j], dst)
      invariant fair ==> Fair(lt, jobs, minTaskSize, share0, share1)
      decreases partSize
    {
      var all, end, searchEnd := AddShard(phase, jobs, fixed, search, begin, j, targetSize, dst, dstAt, lt, minTaskSize, maxTasks, fair, share0, share1);
      jobs := all;
      j := searchEnd;
      dstAt := dstAt + (end - begin);
      partSize := partSize - (end - begin);
      begin := end;
    }
    assert fixed[..begin] == fixed && search[..j] == search;
  }

  /** Adds the shard that begins where the last one ended. */
  method AddShard<T(!new)>(phase: Phase, jobs: seq<Job<T>>, fixed: seq<T>, search: seq<T>, begin: nat, ghost j: nat, targetSize: nat,
                           ghost dst: nat, dstAt: nat, lt: Compare<T>, minTaskSize: nat, maxTasks: nat,
                           ghost fair: bool, ghost share0: nat, ghost share1: nat)
    returns (all: seq<Job<T>>, end: nat, searchEnd: nat)
    requires StrictWeakOrder(lt) && Sorted(lt, fixed) && Sorted(lt, search) && maxTasks >= 1 && phase != Third
    requires begin < |fixed| && targetSize > 0 && Cut(lt, fixed, search, begin, j) && dstAt == dst + begin
    requires Merges(phase, lt, jobs, fixed[..begin], search[..j], dst)
    requires fair ==> Cutting(phase, lt, fixed, search, minTaskSize, maxTasks, share0, share1) && targetSize <= OwnShare(phase, share0, share1)
    ensures begin < end <= |fixed| && Cut(lt, fixed, search, end, searchEnd)
    ensures Merges(phase, lt, all, fixed[..end], search[..searchEnd], dst)
    ensures fair && Fair(lt, jobs, minTaskSize, share0, share1) ==> Fair(lt, all, minTaskSize, share0, share1)
    decreases Rank(phase), 0, 1
  {
    end := NextShard(fixed, begin, targetSize, lt, OwnShare(phase, share0, share1));
    var shard;
    shard, searchEnd := Shard(phase, fixed, search, begin, j, end, dstAt, lt, minTaskSize, maxTasks, fair, share0, share1);
    Advance(phase, lt, jobs, shard, fixed, search, begin, j, end, searchEnd, dst);
    all := jobs + shard;
    if fair { FairConcat(lt, jobs, shard, minTaskSize, share0, share1); }
  }

  /** As many elements as the target size, or what is left, and on to the end of their group. */
  method NextShard<T(!new)>(fixed: seq<T>, begin: nat, targetSize: nat, lt: Compare<T>, ghost share: nat) returns (end: nat)
    requires StrictWeakOrder(lt) && Sorted(lt, fixed) && begin < |fixed| && targetSize > 0
    ensures begin < end <= |fixed| && (end < |fixed| ==> lt(fixed[end - 1], fixed[end]))
    ensures targetSize <= share ==> Share(lt, fixed[begin..end], share)
  {
    var partSize := |fixed| - begin;
    var target := if targetSize < partSize then targetSize else partSize;
    end := ShardEnd(fixed, begin, target, lt);
    if targetSize <= share { ExtendedShare(lt, fixed, begin, target, end, share); }
  }

  lemma FairConcat<T>(lt: Compare<T>, jobs: seq<Job<T>>, more: seq<Job<T>>, minTaskSize: nat, share0: nat, share1: nat)
    requires Fair(lt, more, minTaskSize, share0, share1)
    ensures Fair(lt, jobs, minTaskSize, share0, share1) ==> Fair(lt, jobs + more, minTaskSize, share0, share1)
  {
  }

  lemma CeilPositive(n: nat, d: nat)
    requires n > 0 && d > 0
    ensures (n + d - 1) / d > 0
  {
    assert n + d - 1 == (n + d - 1) / d * d + (n + d - 1) % d;
  }

  /** Grow the shard from its target size until it ends at an equivalence-class boundary. */
  method ShardEnd<T(!new)>(fixed: seq<T>, begin: nat, targetSize: nat, lt: Compare<T>) returns (end: nat)
    requires StrictWeakOrder(lt) && begin + targetSize <= |fixed| && targetSize > 0
    ensures begin + targetSize <= end <= |fixed|
    ensures end < |fixed| ==> lt(fixed[end - 1], fixed[end])
    ensures !lt(fixed[begin + targetSize - 1], fixed[end - 1])
  {
    end := begin + targetSize;
    while end != |fixed| && !lt(fixed[end - 1], fixed[end])
      invariant begin + targetSize <= end <= |fixed| && !lt(fixed[begin + targetSize - 1], fixed[end - 1])
      decreases |fixed| - end
    {
      NotBefore(lt, fixed[begin + targetSize - 1], fixed[end - 1], fixed[end]);
      end := end + 1;
    }
  }

  /** One task: find the matching search range and merge with the next phase. */
  method Shard<T(!new)>(phase: Phase, fixed: seq<T>, search: seq<T>, begin: nat, ghost j: nat, end: nat, dst: nat,
                        lt: Compare<T>, minTaskSize: nat, maxTasks: nat, ghost fair: bool, ghost share0: nat, ghost share1: nat)
    returns (jobs: seq<Job<T>>, searchEnd: nat)
    requires StrictWeakOrder(lt) && Sorted(lt, fixed) && Sorted(lt, search) && maxTasks >= 1 && phase != Third
    requires begin < end <= |fixed| && Cut(lt, fixed, search, begin, j)
    requires end < |fixed| ==> lt(fixed[end - 1], fixed[end])
    requires fair ==> Cutting(phase, lt, fixed, search, minTaskSize, maxTasks, share0, share1) && Share(lt, fixed[begin..end], OwnShare(phase, share0, share1))
    ensures j <= searchEnd && Cut(lt, fixed, search, end, searchEnd)
    ensures Merges(phase, lt, jobs, fixed[begin..end], search[j..searchEnd], dst + j)
    ensures fair ==> Fair(lt, jobs, minTaskSize, share0, share1)
    decreases Rank(phase), 0, 0
  {
    var searchBegin;
    searchBegin, searchEnd := SearchRange(fixed, search, begin, j, end, lt);
    SortedSlice(lt, fixed, begin, end);
    SortedSlice(lt, search, searchBegin, searchEnd);
    if fair { NextCutting(phase, lt, fixed, search, begin, end, searchBegin, searchEnd, minTaskSize, maxTasks, share0, share1); }
    if phase == First {
      jobs := Impl(NextPhase(phase), fixed[begin..end], search[searchBegin..searchEnd], dst + searchBegin, lt, minTaskSize, maxTasks, fair, share0, share1);
    } else {
      jobs := Impl(NextPhase(phase), search[searchBegin..searchEnd], fixed[begin..end], dst + searchBegin, lt, minTaskSize, maxTasks, fair, share0, share1);
    }
  }

  lemma SortedSlice<T>(lt: Compare<T>, s: seq<T>, lo: nat, hi: nat)
    requires Sorted(lt, s) && lo <= hi <= |s|
    ensures Sorted(lt, s[lo..hi])
  {
    forall i, j | 0 <= i < j < hi - lo ensures !lt(s[lo..hi][j], s[lo..hi][i]) {
      assert s[lo..hi][j] == s[lo + j] && s[lo..hi][i] == s[lo + i];
    }
  }

  /** The part of the search range that belongs with `fixed[begin..end]`. */
  method SearchRange<T(!new)>(fixed: seq<T>, search: seq<T>, begin: nat, ghost j: nat, end: nat, lt: Compare<T>)
    returns (searchBegin: nat, searchEnd: nat)
    requires StrictWeakOrder(lt) && Sorted(lt, fixed) && Sorted(lt, search)
    requires begin < end <= |fixed| && Cut(lt, fixed, search, begin, j)
    requires end < |fixed| ==> lt(fixed[end - 1], fixed[end])
    ensures searchBegin == j && j <= searchEnd && Cut(lt, fixed, search, end, searchEnd)
  {
    searchBegin := if begin == 0 then 0 else LowerBound(lt, search, fixed[begin]);
    if begin > 0 { LowerBoundIs(lt, search, j, fixed[begin]); }
    if end == |fixed| {
      searchEnd := |search|;
    } else {
      searchEnd := searchBegin + LowerBound(lt, search[searchBegin..], fixed[end]);
      NextCut(lt, fixed, search, begin, j, end);
    }
  }

  /** Searching only from the previous cut finds the same position as searching everything. */
  lemma NextCut<T(!new)>(lt: Compare<T>, fixed: seq<T>, search: seq<T>, begin: nat, j: nat, end: nat)
    requires StrictWeakOrder(lt) && Sorted(lt, fixed) && Sorted(lt, search)
    requires begin < end < |fixed| && Cut(lt, fixed, search, begin, j) && lt(fixed[end - 1], fixed[end])
    ensures Cut(lt, fixed, search, end, j + LowerBound(lt, search[j..], fixed[end]))
  {
    var n := LowerBound(lt, search[j..], fixed[end]);
    LowerBoundSplits(lt, search[j..], fixed[end]);
    forall q | 0 <= q < j ensures lt(search[q], fixed[end]) {
      assert begin > 0 && lt(search[q], fixed[begin]) && !lt(fixed[end], fixed[begin]);
    }
    forall q | j <= q < j + n ensures lt(search[q], fixed[end]) {
      assert search[q] == search[j..][q - j];
    }
    forall q | j + n <= q < |search| ensures !lt(search[q], fixed[end]) {
      assert search[q] == search[j..][q - j];
    }
  }

  lemma JoinSlices<T>(s: seq<T>, i: nat, j: nat)
    requires i <= j <= |s|
    ensures s[..i] + s[i..j] == s[..j] && s[i..j] <= s[i..]
  {
  }

  lemma JoinMerges<T(!new)>(phase: Phase, lt: Compare<T>, jobs: seq<Job<T>>, shard: seq<Job<T>>,
                            a1: seq<T>, b1: seq<T>, a2: seq<T>, b2: seq<T>, dst: nat)
    requires StrictWeakOrder(lt) && Separated(lt, a1, b1, a2, b2)
    requires Merges(phase, lt, jobs, a1, b1, dst) && Merges(phase, lt, shard, a2, b2, dst + |a1| + |b1|)
    ensures Merges(phase, lt, jobs + shard, a1 + a2, b1 + b2, dst)
  {
    MergeBySplit(phase, lt, a1, b1, a2, b2);
    Join(lt, jobs, shard, dst, dst + |a1| + |b1|, dst + |a1 + a2| + |b1 + b2|);
    JoinOrdered(lt, jobs, shard, a1, b1, a2, b2);
  }

  lemma SeparatedSlices<T(!new)>(lt: Compare<T>, fixed: seq<T>, search: seq<T>, begin: nat, j: nat, end: nat, searchEnd: nat)
    requires StrictWeakOrder(lt) && Sorted(lt, fixed) && Sorted(lt, search)
    requires Cut(lt, fixed, search, begin, j) && begin <= end <= |fixed| && j <= searchEnd <= |search|
    ensures Separated(lt, fixed[..begin], search[..j], fixed[begin..end], search[j..searchEnd])
  {
    JoinSlices(fixed, begin, end);
    JoinSlices(search, j, searchEnd);
    CutSeparates(lt, fixed, search, begin, j);
    SeparatedParts(lt, fixed[..begin], search[..j], fixed[begin..end], search[j..searchEnd], fixed[begin..], search[j..]);
  }

  /** Merging up to one cut, then from there to the next, is merging up to the next. */
  lemma Advance<T(!new)>(phase: Phase, lt: Compare<T>, jobs: seq<Job<T>>, shard: seq<Job<T>>, fixed: seq<T>, search: seq<T>,
                         begin: nat, j: nat, end: nat, searchEnd: nat, dst: nat)
    requires StrictWeakOrder(lt) && Sorted(lt, fixed) && Sorted(lt, search)
    requires Cut(lt, fixed, search, begin, j) && begin <= end <= |fixed| && j <= searchEnd <= |search|
    requires Merges(phase, lt, jobs, fixed[..begin], search[..j], dst)
    requires Merges(phase, lt, shard, fixed[begin..end], search[j..searchEnd], dst + begin + j)
    ensures Merges(phase, lt, jobs + shard, fixed[..end], search[..searchEnd], dst)
  {
    JoinSlices(fixed, begin, end);
    JoinSlices(search, j, searchEnd);
    SeparatedSlices(lt, fixed, search, begin, j, end, searchEnd);
    JoinMerges(phase, lt, jobs, shard, fixed[..begin], search[..j], fixed[begin..end], search[j..searchEnd], dst);
  }

  // ---------------------------------------------------------------- running the jobs in any order

  datatype Write<T> = Write(at: nat, val: T)

  function JobWrites<T>(lt: Compare<T>, job: Job<T>): seq<Write<T>> {
    var out := Written(lt, job);
    seq(|out|, i requires 0 <= i < |out| => Write(job.dst + i, out[i]))
  }

  function Writes<T>(lt: Compare<T>, jobs: seq<Job<T>>): seq<Write<T>> {
    if jobs == [] then [] else Writes(lt, jobs[..|jobs| - 1]) + JobWrites(lt, jobs[|jobs| - 1])
  }

  /** The k-th write goes to the k-th place. */
  ghost predicate InOrder<T>(writes: seq<Write<T>>, output: seq<T>, from: nat) {
    |writes| == |output| && forall k :: 0 <= k < |writes| ==> writes[k] == Write(from + k, output[k])
  }

  lemma InOrderConcat<T>(w1: seq<Write<T>>, o1: seq<T>, w2: seq<Write<T>>, o2: seq<T>, from: nat)
    requires InOrder(w1, o1, from) && InOrder(w2, o2, from + |o1|)
    ensures InOrder(w1 + w2, o1 + o2, from)
  {
  }

  /** Tiling jobs write every destination exactly once. */
  lemma {:induction false} WritesTile<T>(lt: Compare<T>, jobs: seq<Job<T>>, from: nat, to: nat)
    requires Tiles(jobs, from, to)
    ensures from <= to && |Output(lt, jobs)| == to - from && InOrder(Writes(lt, jobs), Output(lt, jobs), from)
  {
    if jobs != [] {
      var rest, last := jobs[..|jobs| - 1], jobs[|jobs| - 1];
      WritesTile(lt, rest, from, last.dst);
      MergeMultiset(lt, last.a, last.b);
      InOrderConcat(Writes(lt, rest), Output(lt, rest), JobWrites(lt, last), Written(lt, last), from);
    }
  }

  /** The worker threads: the writes happen in any order. */
  method Execute<T(==)>(writes: seq<Write<T>>, dst: array<T>, begin: nat, ghost result: seq<T>)
    requires |writes| == |result| && begin + |result| <= dst.Length
    requires forall k :: 0 <= k < |writes| ==> writes[k] == Write(begin + k, result[k])
    modifies dst
    ensures dst[..] == old(dst[..begin]) + result + old(dst[begin + |result|..])
  {
    var pending := set w | w in writes;
    while pending != {}
      invariant forall w :: w in pending ==> w in writes
      invariant forall k :: 0 <= k < |writes| && writes[k] !in pending ==> dst[begin + k] == result[k]
      invariant forall k :: 0 <= k < begin || begin + |result| <= k < dst.Length ==> dst[k] == old(dst[k])
      decreases |pending|
    {
      var w :| w in pending;
      assert w in writes;
      dst[w.at] := w.val;
      pending := pending - {w};
    }
  }

  /** The whole operation: whatever the schedule, the destination receives the stable merge. */
  method Run<T(!new, ==)>(src0: seq<T>, src1: seq<T>, dst: array<T>, begin: nat, lt: Compare<T>, minTaskSize: nat, maxTasks: nat)
    requires StrictWeakOrder(lt) && Sorted(lt, src0) && Sorted(lt, src1)
    requires CutsUp(First, |src0|, |src1|, minTaskSize) ==> maxTasks >= 1
    requires begin + |src0| + |src1| <= dst.Length
    modifies dst
    ensures dst[..] == old(dst[..begin]) + Merge(lt, src0, src1) + old(dst[begin + |src0| + |src1|..])
  {
    var jobs := Impl(First, src0, src1, begin, lt, minTaskSize, maxTasks, false, 0, 0);
    WritesTile(lt, jobs, begin, begin + |src0| + |src1|);
    Execute(Writes(lt, jobs), dst, begin, Merge(lt, src0, src1));
  }
}
