/**
  `KMergeBy`: merges any number of sorted sequences through a binary heap of references to them.

  The heap is ordered by the sequences' first items, so taking an item changes the key of an entry;
  this is done while that entry is outside the heap's ordered part.
 */
module KMerge {
  import opened Ordering
  import opened Wrappers

  lemma NotBeforeTrans<T(!new)>(lt: Compare<T>, x: T, y: T, z: T)
    requires StrictWeakOrder(lt) && !lt(y, x) && !lt(z, y)
    ensures !lt(z, x)
  {
  }

  lemma Asymmetric<T(!new)>(lt: Compare<T>, x: T, y: T)
    requires StrictWeakOrder(lt) && (x == y || lt(x, y))
    ensures !lt(y, x)
  {
  }

  // ---------------------------------------------------------------- the heap

  /** Entries refer to sequences that still have an item. */
  ghost predicate Refers<T>(seqs: seq<seq<T>>, heap: seq<nat>) {
    forall i :: 0 <= i < |heap| ==> heap[i] < |seqs| && |seqs[heap[i]]| > 0
  }

  function Key<T>(seqs: seq<seq<T>>, heap: seq<nat>, i: nat): T
    requires i < |heap| && heap[i] < |seqs| && |seqs[heap[i]]| > 0
  {
    seqs[heap[i]][0]
  }

  /** Entry `j` does not come before the entry above it. */
  ghost predicate Above<T>(lt: Compare<T>, seqs: seq<seq<T>>, heap: seq<nat>, i: nat, j: nat)
    requires Refers(seqs, heap) && i < |heap| && j < |heap|
  {
    !lt(Key(seqs, heap, j), Key(seqs, heap, i))
  }

  function Up(j: nat): nat
    requires j > 0
  {
    (j - 1) / 2
  }

  /** The first `n` entries form a heap. */
  ghost predicate IsHeap<T>(lt: Compare<T>, seqs: seq<seq<T>>, heap: seq<nat>, n: nat)
    requires Refers(seqs, heap) && n <= |heap|
  {
    forall j :: 0 < j < n ==> Above(lt, seqs, heap, Up(j), j)
  }

  /** Nothing in a heap comes before its front. */
  lemma {:induction false} FrontIsLeast<T(!new)>(lt: Compare<T>, seqs: seq<seq<T>>, heap: seq<nat>, n: nat, j: nat)
    requires StrictWeakOrder(lt) && Refers(seqs, heap) && j < n <= |heap| && IsHeap(lt, seqs, heap, n)
    ensures Above(lt, seqs, heap, 0, j)
    decreases j
  {
    if j > 0 {
      FrontIsLeast(lt, seqs, heap, n, Up(j));
      assert Above(lt, seqs, heap, Up(j), j);
      NotBeforeTrans(lt, Key(seqs, heap, 0), Key(seqs, heap, Up(j)), Key(seqs, heap, j));
    }
  }

  function Swap(heap: seq<nat>, i: nat, j: nat): (r: seq<nat>)
    requires i < |heap| && j < |heap|
    ensures |r| == |heap| && multiset(r) == multiset(heap)
  {
    heap[i := heap[j]][j := heap[i]]
  }

  /** A heap but for entry `i`, which may come before the one above it; those below are not before that one. */
  ghost predicate HeapExceptUp<T>(lt: Compare<T>, seqs: seq<seq<T>>, heap: seq<nat>, n: nat, i: nat)
    requires Refers(seqs, heap) && n <= |heap| && i < n
  {
    && (forall j :: 0 < j < n && j != i ==> Above(lt, seqs, heap, Up(j), j))
    && (forall j :: 0 < j < n && i > 0 && Up(j) == i ==> Above(lt, seqs, heap, Up(i), j))
  }

  lemma SwapUp<T(!new)>(lt: Compare<T>, seqs: seq<seq<T>>, heap: seq<nat>, n: nat, i: nat)
    requires StrictWeakOrder(lt) && Refers(seqs, heap) && n <= |heap| && 0 < i < n && HeapExceptUp(lt, seqs, heap, n, i)
    requires lt(Key(seqs, heap, i), Key(seqs, heap, Up(i)))
    ensures var h := Swap(heap, i, Up(i)); Refers(seqs, h) && HeapExceptUp(lt, seqs, h, n, Up(i))
  {
    var p, h := Up(i), Swap(heap, i, Up(i));
    forall j | 0 < j < n && j != p ensures Above(lt, seqs, h, Up(j), j) {
      if j != i { assert Above(lt, seqs, heap, Up(j), j); }
    }
    forall j | 0 < j < n && p > 0 && Up(j) == p ensures Above(lt, seqs, h, Up(p), j) {
      assert Above(lt, seqs, heap, Up(p), p);
      if j != i { assert Above(lt, seqs, heap, Up(j), j); }
    }
  }

  /** `std::push_heap`: the last of the first `n` entries joins the heap formed by those before it. */
  method PushHeap<T(!new)>(lt: Compare<T>, seqs: seq<seq<T>>, heap: seq<nat>) returns (r: seq<nat>)
    requires StrictWeakOrder(lt) && Refers(seqs, heap) && |heap| > 0 && IsHeap(lt, seqs, heap, |heap| - 1)
    ensures Refers(seqs, r) && |r| == |heap| && IsHeap(lt, seqs, r, |r|) && multiset(r) == multiset(heap)
  {
    r := heap;
    var i := |r| - 1;
    while i > 0 && lt(Key(seqs, r, i), Key(seqs, r, Up(i)))
      invariant |r| == |heap| && 0 <= i < |r| && Refers(seqs, r) && multiset(r) == multiset(heap)
      invariant HeapExceptUp(lt, seqs, r, |r|, i)
    {
      SwapUp(lt, seqs, r, |r|, i);
      r, i := Swap(r, i, Up(i)), Up(i);
    }
  }

  /** A heap but for entry `i`, which may come after those below it; they are not before the one above it. */
  ghost predicate HeapExceptDown<T>(lt: Compare<T>, seqs: seq<seq<T>>, heap: seq<nat>, n: nat, i: nat)
    requires Refers(seqs, heap) && n <= |heap| && i < n
  {
    && (forall j :: 0 < j < n && Up(j) != i ==> Above(lt, seqs, heap, Up(j), j))
    && (forall j :: 0 < j < n && i > 0 && Up(j) == i ==> Above(lt, seqs, heap, Up(i), j))
  }

  /** `c` is the first of the entries below `i`, or none is before `i`. */
  ghost predicate LeastBelow<T>(lt: Compare<T>, seqs: seq<seq<T>>, heap: seq<nat>, n: nat, i: nat, c: nat)
    requires Refers(seqs, heap) && n <= |heap| && c < n
  {
    forall j :: 0 < j < n && Up(j) == i ==> Above(lt, seqs, heap, c, j)
  }

  lemma SwapDown<T(!new)>(lt: Compare<T>, seqs: seq<seq<T>>, heap: seq<nat>, n: nat, i: nat, c: nat)
    requires StrictWeakOrder(lt) && Refers(seqs, heap) && n <= |heap| && i < c < n && Up(c) == i
    requires HeapExceptDown(lt, seqs, heap, n, i) && LeastBelow(lt, seqs, heap, n, i, c)
    requires lt(Key(seqs, heap, c), Key(seqs, heap, i))
    ensures var h := Swap(heap, i, c); Refers(seqs, h) && HeapExceptDown(lt, seqs, h, n, c)
  {
    var h := Swap(heap, i, c);
    forall j | 0 < j < n && Up(j) != c ensures Above(lt, seqs, h, Up(j), j) {
      if j == i || Up(j) == i { assert Above(lt, seqs, heap, Up(j), j) || Above(lt, seqs, heap, c, j); }
      else { assert Above(lt, seqs, heap, Up(j), j); }
    }
    forall j | 0 < j < n && Up(j) == c ensures Above(lt, seqs, h, Up(c), j) {
      assert Above(lt, seqs, heap, Up(j), j);
    }
  }

  lemma SwapEnds<T(!new)>(lt: Compare<T>, seqs: seq<seq<T>>, heap: seq<nat>)
    requires Refers(seqs, heap) && |heap| > 1 && IsHeap(lt, seqs, heap, |heap|)
    ensures var h := Swap(heap, 0, |heap| - 1); Refers(seqs, h) && HeapExceptDown(lt, seqs, h, |h| - 1, 0)
    ensures Swap(heap, 0, |heap| - 1)[|heap| - 1..] == [heap[0]]
  {
    var h := Swap(heap, 0, |heap| - 1);
    forall j | 0 < j < |h| - 1 && Up(j) != 0 ensures Above(lt, seqs, h, Up(j), j) {
      assert Above(lt, seqs, heap, Up(j), j);
    }
  }

  method PickBelow<T(!new)>(lt: Compare<T>, seqs: seq<seq<T>>, heap: seq<nat>, n: nat, i: nat) returns (c: nat)
    requires StrictWeakOrder(lt) && Refers(seqs, heap) && n <= |heap| && 2 * i + 1 < n
    ensures i < c < n && Up(c) == i && LeastBelow(lt, seqs, heap, n, i, c)
  {
    c := 2 * i + 1;
    if c + 1 < n && lt(Key(seqs, heap, c + 1), Key(seqs, heap, c)) { c := c + 1; }
    forall j | 0 < j < n && Up(j) == i ensures Above(lt, seqs, heap, c, j) {
      assert j == 2 * i + 1 || j == 2 * i + 2;
      if c == j || c == 2 * i + 2 { Asymmetric(lt, Key(seqs, heap, c), Key(seqs, heap, j)); }
    }
  }

  lemma NoneBelow<T(!new)>(lt: Compare<T>, seqs: seq<seq<T>>, heap: seq<nat>, n: nat, i: nat)
    requires Refers(seqs, heap) && i < n <= |heap| && n <= 2 * i + 1 && HeapExceptDown(lt, seqs, heap, n, i)
    ensures IsHeap(lt, seqs, heap, n)
  {
    forall j | 0 < j < n ensures Above(lt, seqs, heap, Up(j), j) { assert Up(j) != i; }
  }

  lemma SwapKeeps(heap: seq<nat>, i: nat, c: nat, n: nat)
    requires i < n && c < n <= |heap|
    ensures Swap(heap, i, c)[n..] == heap[n..]
  {
  }

  /** The front entry sinks to where it belongs among the first `n`. */
  method SiftDown<T(!new)>(lt: Compare<T>, seqs: seq<seq<T>>, heap: seq<nat>, n: nat) returns (r: seq<nat>)
    requires StrictWeakOrder(lt) && Refers(seqs, heap) && 0 < n <= |heap| && HeapExceptDown(lt, seqs, heap, n, 0)
    ensures Refers(seqs, r) && |r| == |heap| && IsHeap(lt, seqs, r, n)
    ensures r[n..] == heap[n..] && multiset(r) == multiset(heap)
  {
    r := heap;
    var i: nat := 0;
    while 2 * i + 1 < n
      invariant |r| == |heap| && i < n && Refers(seqs, r) && HeapExceptDown(lt, seqs, r, n, i)
      invariant r[n..] == heap[n..] && multiset(r) == multiset(heap)
      decreases n - i
    {
      var c := PickBelow(lt, seqs, r, n, i);
      if !lt(Key(seqs, r, c), Key(seqs, r, i)) {
        Settled(lt, seqs, r, n, i, c);
        return;
      }
      SwapDown(lt, seqs, r, n, i, c);
      SwapKeeps(r, i, c, n);
      r, i := Swap(r, i, c), c;
    }
    NoneBelow(lt, seqs, r, n, i);
  }

  /** `std::pop_heap`: the front goes to the back, the rest is a heap again. */
  method PopHeap<T(!new)>(lt: Compare<T>, seqs: seq<seq<T>>, heap: seq<nat>) returns (r: seq<nat>)
    requires StrictWeakOrder(lt) && Refers(seqs, heap) && |heap| > 0 && IsHeap(lt, seqs, heap, |heap|)
    ensures Refers(seqs, r) && |r| == |heap| && IsHeap(lt, seqs, r, |r| - 1)
    ensures r[|r| - 1] == heap[0] && multiset(r) == multiset(heap)
  {
    var n := |heap| - 1;
    if n == 0 { return heap; }
    SwapEnds(lt, seqs, heap);
    r := SiftDown(lt, seqs, Swap(heap, 0, n), n);
    assert r[n] == r[n..][0];
  }

  lemma Settled<T(!new)>(lt: Compare<T>, seqs: seq<seq<T>>, heap: seq<nat>, n: nat, i: nat, c: nat)
    requires StrictWeakOrder(lt) && Refers(seqs, heap) && n <= |heap| && i < n && c < n
    requires HeapExceptDown(lt, seqs, heap, n, i) && LeastBelow(lt, seqs, heap, n, i, c) && Above(lt, seqs, heap, i, c)
    ensures IsHeap(lt, seqs, heap, n)
  {
    forall j | 0 < j < n ensures Above(lt, seqs, heap, Up(j), j) {
      if Up(j) == i {
        assert Above(lt, seqs, heap, c, j);
        NotBeforeTrans(lt, Key(seqs, heap, i), Key(seqs, heap, c), Key(seqs, heap, j));
      }
    }
  }

  // ---------------------------------------------------------------- the merge

  /** Everything still to come. */
  ghost function All<T>(seqs: seq<seq<T>>): multiset<T> {
    if seqs == [] then multiset{} else multiset(seqs[0]) + All(seqs[1..])
  }

  lemma MoveOut<T>(first: multiset<T>, rest: multiset<T>, less: multiset<T>, item: T)
    requires rest == less + multiset{item}
    ensures first + rest == first + less + multiset{item}
  {
  }

  lemma TakeFirst<T>(s: seq<T>, rest: multiset<T>)
    requires |s| > 0
    ensures multiset(s) + rest == multiset(s[1..]) + rest + multiset{s[0]}
  {
    assert s == [s[0]] + s[1..];
  }

  lemma {:induction false} AllTake<T>(seqs: seq<seq<T>>, k: nat)
    requires k < |seqs| && |seqs[k]| > 0
    ensures All(seqs) == All(seqs[k := seqs[k][1..]]) + multiset{seqs[k][0]}
  {
    var next := seqs[k := seqs[k][1..]];
    if k == 0 {
      assert next[1..] == seqs[1..];
      TakeFirst(seqs[0], All(seqs[1..]));
    } else {
      assert next[1..] == seqs[1..][k - 1 := seqs[k][1..]];
      AllTake(seqs[1..], k - 1);
      MoveOut(multiset(seqs[0]), All(seqs[1..]), All(next[1..]), seqs[k][0]);
    }
  }

  lemma {:induction false} AllEmpty<T>(seqs: seq<seq<T>>)
    requires forall k :: 0 <= k < |seqs| ==> |seqs[k]| == 0
    ensures All(seqs) == multiset{}
  {
    if seqs != [] { AllEmpty(seqs[1..]); }
  }

  lemma OnlyAtBack(heap: seq<nat>, i: nat)
    requires i < |heap| - 1 && multiset(heap)[heap[|heap| - 1]] == 1
    ensures heap[i] != heap[|heap| - 1]
  {
    var n := |heap| - 1;
    assert heap == heap[..n] + [heap[n]];
    assert multiset(heap) == multiset(heap[..n]) + multiset{heap[n]};
    assert heap[i] in multiset(heap[..n]);
  }

  /** The heap refers to every sequence that still has an item, once. */
  ghost predicate Complete<T>(seqs: seq<seq<T>>, heap: seq<nat>) {
    forall k: nat :: multiset(heap)[k] == if k < |seqs| && |seqs[k]| > 0 then 1 else 0
  }

  lemma CompleteRefers<T>(seqs: seq<seq<T>>, heap: seq<nat>)
    requires Complete(seqs, heap)
    ensures Refers(seqs, heap)
  {
    forall i | 0 <= i < |heap| ensures heap[i] < |seqs| && |seqs[heap[i]]| > 0 { assert heap[i] in multiset(heap); }
  }

  /** Taking an item from the sequence at the back leaves the heap in front of it alone. */
  lemma BackChanges<T(!new)>(lt: Compare<T>, seqs: seq<seq<T>>, heap: seq<nat>, seqs': seq<seq<T>>)
    requires |heap| > 0 && Complete(seqs, heap) && Refers(seqs, heap) && IsHeap(lt, seqs, heap, |heap| - 1)
    requires var k := heap[|heap| - 1]; seqs' == seqs[k := seqs[k][1..]]
    ensures Refers(seqs', heap[..|heap| - 1]) && IsHeap(lt, seqs', heap[..|heap| - 1], |heap| - 1)
    ensures forall i :: 0 <= i < |heap| - 1 ==> seqs'[heap[i]] == seqs[heap[i]]
  {
    var n := |heap| - 1;
    forall i | 0 <= i < n ensures heap[i] != heap[n] { OnlyAtBack(heap, i); }
    forall j | 0 < j < n ensures Above(lt, seqs', heap[..n], Up(j), j) { assert Above(lt, seqs, heap, Up(j), j); }
  }

  lemma CompleteAfter<T>(seqs: seq<seq<T>>, heap: seq<nat>, k: nat, seqs': seq<seq<T>>)
    requires |heap| > 0 && Complete(seqs, heap) && k == heap[|heap| - 1] < |seqs| && |seqs[k]| > 0
    requires seqs' == seqs[k := seqs[k][1..]]
    ensures if |seqs'[k]| == 0 then Complete(seqs', heap[..|heap| - 1]) else Complete(seqs', heap)
  {
    var n := |heap| - 1;
    assert heap == heap[..n] + [k];
    assert multiset(heap) == multiset(heap[..n]) + multiset{k};
    assert multiset(heap)[k] == 1;
  }

  /** The sequence at the back rejoins the heap with its new first item, or leaves it. */
  method Restore<T(!new)>(lt: Compare<T>, seqs: seq<seq<T>>, heap: seq<nat>, ghost before: seq<seq<T>>) returns (r: seq<nat>)
    requires StrictWeakOrder(lt) && |heap| > 0 && heap[|heap| - 1] < |before|
    requires Complete(before, heap) && Refers(before, heap) && IsHeap(lt, before, heap, |heap| - 1)
    requires var k := heap[|heap| - 1]; seqs == before[k := before[k][1..]]
    ensures Complete(seqs, r) && Refers(seqs, r) && IsHeap(lt, seqs, r, |r|)
  {
    var n, k := |heap| - 1, heap[|heap| - 1];
    BackChanges(lt, before, heap, seqs);
    CompleteAfter(before, heap, k, seqs);
    if |seqs[k]| == 0 {
      r := heap[..n];
    } else {
      CompleteRefers(seqs, heap);
      forall j | 0 < j < n ensures Above(lt, seqs, heap, Up(j), j) { assert Above(lt, seqs, heap[..n], Up(j), j); }
      r := PushHeap(lt, seqs, heap);
    }
  }

  lemma CompleteNext<T>(inputs: seq<seq<T>>, h: seq<nat>, i: nat)
    requires i < |inputs| && Complete(inputs[..i], h)
    ensures Complete(inputs[..i + 1], if |inputs[i]| > 0 then h + [i] else h)
  {
    var r: seq<nat> := if |inputs[i]| > 0 then h + [i] else h;
    forall k: nat ensures multiset(r)[k] == if k < i + 1 && |inputs[k]| > 0 then 1 else 0 {
      assert multiset(h)[k] == if k < i && |inputs[..i][k]| > 0 then 1 else 0;
    }
  }

  lemma AppendEntry<T>(lt: Compare<T>, seqs: seq<seq<T>>, h: seq<nat>, i: nat)
    requires Refers(seqs, h) && IsHeap(lt, seqs, h, |h|) && i < |seqs| && |seqs[i]| > 0
    ensures Refers(seqs, h + [i]) && IsHeap(lt, seqs, h + [i], |h|)
  {
    forall j | 0 < j < |h| ensures Above(lt, seqs, h + [i], Up(j), j) { assert Above(lt, seqs, h, Up(j), j); }
  }

  /** No item of the sequences comes before `x`. */
  ghost predicate NoneIn<T>(lt: Compare<T>, seqs: seq<seq<T>>, x: T) {
    forall k, j :: 0 <= k < |seqs| && 0 <= j < |seqs[k]| ==> !lt(seqs[k][j], x)
  }

  ghost predicate AllSorted<T>(lt: Compare<T>, seqs: seq<seq<T>>) { forall k :: 0 <= k < |seqs| ==> Sorted(lt, seqs[k]) }

  ghost predicate HeapOf<T(!new)>(lt: Compare<T>, seqs: seq<seq<T>>, heap: seq<nat>) {
    Complete(seqs, heap) && Refers(seqs, heap) && IsHeap(lt, seqs, heap, |heap|)
  }

  lemma SortedTake<T>(lt: Compare<T>, seqs: seq<seq<T>>, k: nat, rest: seq<seq<T>>)
    requires k < |seqs| && |seqs[k]| > 0 && rest == seqs[k := seqs[k][1..]] && AllSorted(lt, seqs)
    ensures AllSorted(lt, rest)
  {
    assert Sorted(lt, seqs[k]);
  }

  lemma NoneInTake<T>(lt: Compare<T>, seqs: seq<seq<T>>, k: nat, rest: seq<seq<T>>, x: T)
    requires k < |seqs| && |seqs[k]| > 0 && rest == seqs[k := seqs[k][1..]] && NoneIn(lt, seqs, x)
    ensures NoneIn(lt, rest, x) && !lt(seqs[k][0], x)
  {
    forall i, j | 0 <= i < |rest| && 0 <= j < |rest[i]| ensures !lt(rest[i][j], x) {
      assert rest[i][j] == if i == k then seqs[k][j + 1] else seqs[i][j];
    }
  }

  /** The front of the heap comes from a sequence whose first item nothing comes before. */
  lemma FrontIsNext<T(!new)>(lt: Compare<T>, seqs: seq<seq<T>>, heap: seq<nat>)
    requires StrictWeakOrder(lt) && AllSorted(lt, seqs) && HeapOf(lt, seqs, heap) && |heap| > 0
    ensures NoneIn(lt, seqs, Key(seqs, heap, 0))
  {
    forall k, j | 0 <= k < |seqs| && 0 <= j < |seqs[k]| ensures !lt(seqs[k][j], Key(seqs, heap, 0)) {
      assert multiset(heap)[k] == 1;
      var i :| 0 <= i < |heap| && heap[i] == k;
      FrontIsLeast(lt, seqs, heap, |heap|, i);
      assert Sorted(lt, seqs[k]);
      assert j > 0 ==> !lt(seqs[k][j], seqs[k][0]);
      NotBeforeTrans(lt, Key(seqs, heap, 0), seqs[k][0], seqs[k][j]);
    }
  }

  /** Takes the item at the front, and restores the heap. */
  method TakeFront<T(!new)>(lt: Compare<T>, seqs: seq<seq<T>>, heap: seq<nat>) returns (item: T, rest: seq<seq<T>>, r: seq<nat>)
    requires StrictWeakOrder(lt) && AllSorted(lt, seqs) && HeapOf(lt, seqs, heap) && |heap| > 0
    ensures AllSorted(lt, rest) && HeapOf(lt, rest, r) && item == Key(seqs, heap, 0)
    ensures NoneIn(lt, rest, item) && All(seqs) == All(rest) + multiset{item}
    ensures forall x :: NoneIn(lt, seqs, x) ==> NoneIn(lt, rest, x) && !lt(item, x)
  {
    FrontIsNext(lt, seqs, heap);
    var k := heap[0];
    item, rest := seqs[k][0], seqs[k := seqs[k][1..]];
    AllTake(seqs, k);
    SortedTake(lt, seqs, k, rest);
    forall x | NoneIn(lt, seqs, x) ensures NoneIn(lt, rest, x) && !lt(item, x) { NoneInTake(lt, seqs, k, rest, x); }
    r := Reheap(lt, seqs, heap, rest);
  }

  method Reheap<T(!new)>(lt: Compare<T>, seqs: seq<seq<T>>, heap: seq<nat>, rest: seq<seq<T>>) returns (r: seq<nat>)
    requires StrictWeakOrder(lt) && HeapOf(lt, seqs, heap) && |heap| > 0 && rest == seqs[heap[0] := seqs[heap[0]][1..]]
    ensures HeapOf(lt, rest, r)
  {
    var popped := PopHeap(lt, seqs, heap);
    r := Restore(lt, rest, popped, seqs);
  }

  /** Every sequence that is not empty joins the heap. */
  method MakeHeap<T(!new)>(lt: Compare<T>, seqs: seq<seq<T>>) returns (h: seq<nat>)
    requires StrictWeakOrder(lt)
    ensures HeapOf(lt, seqs, h)
  {
    h := [];
    var i := 0;
    while i < |seqs|
      invariant i <= |seqs| && Complete(seqs[..i], h) && Refers(seqs, h) && IsHeap(lt, seqs, h, |h|)
    {
      CompleteNext(seqs, h, i);
      if |seqs[i]| > 0 {
        AppendEntry(lt, seqs, h, i);
        h := PushHeap(lt, seqs, h + [i]);
      }
      i := i + 1;
    }
    assert seqs[..i] == seqs;
  }

  class KMergeBy<T(!new)> {
    const lt: Compare<T>
    var seqs: seq<seq<T>>
    var heap: seq<nat>

    ghost predicate Valid()
      reads this
    {
      StrictWeakOrder(lt) && AllSorted(lt, seqs) && HeapOf(lt, seqs, heap)
    }

    constructor (inputs: seq<seq<T>>, compare: Compare<T>)
      requires StrictWeakOrder(compare) && AllSorted(compare, inputs)
      ensures Valid() && seqs == inputs && lt == compare
    {
      var h := MakeHeap(compare, inputs);
      lt, seqs, heap := compare, inputs, h;
    }

    /** Nothing still to come is before `x`. */
    ghost predicate NoneBefore(x: T)
      reads this
    {
      NoneIn(lt, seqs, x)
    }

    /** The item that `Next` would return. */
    method Peek() returns (item: Option<T>)
      requires Valid()
      ensures item == if |heap| > 0 then Some(Key(seqs, heap, 0)) else None
      ensures item.Some? ==> NoneBefore(item.value) && item.value in All(seqs)
      ensures item.None? ==> All(seqs) == multiset{}
    {
      if |heap| == 0 {
        NothingLeft();
        return None;
      }
      FrontIsNext(lt, seqs, heap);
      AllTake(seqs, heap[0]);
      item := Some(seqs[heap[0]][0]);
    }

    lemma NothingLeft()
      requires Valid() && |heap| == 0
      ensures All(seqs) == multiset{}
    {
      forall k | 0 <= k < |seqs| ensures |seqs[k]| == 0 { assert multiset(heap)[k] == 0; }
      AllEmpty(seqs);
    }

    /** Removes and returns an item that nothing left comes before. */
    method Next() returns (item: Option<T>)
      requires Valid()
      modifies this
      ensures Valid()
      ensures item == if |old(heap)| > 0 then Some(Key(old(seqs), old(heap), 0)) else None
      ensures item.Some? ==> NoneBefore(item.value) && old(All(seqs)) == All(seqs) + multiset{item.value}
      ensures item.None? ==> old(All(seqs)) == multiset{} && All(seqs) == multiset{}
      ensures forall x :: old(NoneBefore(x)) ==> NoneBefore(x) && (item.Some? ==> !lt(item.value, x))
    {
      if |heap| == 0 {
        NothingLeft();
        return None;
      }
      var x, rest, r := TakeFront(lt, seqs, heap);
      item, seqs, heap := Some(x), rest, r;
    }
  }

  lemma Snoc<T>(lt: Compare<T>, out: seq<T>, x: T, rest: multiset<T>)
    ensures multiset(out) + (rest + multiset{x}) == multiset(out + [x]) + rest
    ensures Sorted(lt, out) && (forall i :: 0 <= i < |out| ==> !lt(x, out[i])) ==> Sorted(lt, out + [x])
  {
  }

  /** Taking items until none is left sorts everything the sequences had. */
  method Collect<T(!new)>(merge: KMergeBy<T>) returns (out: seq<T>)
    requires merge.Valid()
    modifies merge
    ensures multiset(out) == old(All(merge.seqs)) && Sorted(merge.lt, out)
  {
    out := [];
    ghost var all := All(merge.seqs);
    while true
      invariant merge.Valid() && multiset(out) + All(merge.seqs) == all && Sorted(merge.lt, out)
      invariant forall i :: 0 <= i < |out| ==> merge.NoneBefore(out[i])
      decreases |All(merge.seqs)|
    {
      var item := merge.Next();
      if item.None? { return; }
      Snoc(merge.lt, out, item.value, All(merge.seqs));
      out := out + [item.value];
    }
  }
}
