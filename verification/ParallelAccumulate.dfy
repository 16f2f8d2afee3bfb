/** `parallel_accumulate`: folding a range by slices, against the sequential fold. */
module ParallelAccumulate {
  import opened Arithmetic
  import opened SliceWork

  /** `std::accumulate`. */
  function Fold<T>(op: (T, T) -> T, init: T, xs: seq<T>): T {
    if xs == [] then init else op(Fold(op, init, xs[..|xs| - 1]), xs[|xs| - 1])
  }

  ghost predicate AssociatesOn<T>(op: (T, T) -> T, x: T, y: T, z: T) { op(op(x, y), z) == op(x, op(y, z)) }

  ghost predicate Associative<T(!new)>(op: (T, T) -> T) { forall x, y, z :: AssociatesOn(op, x, y, z) }

  ghost predicate NeutralOn<T>(op: (T, T) -> T, identity: T, x: T) { op(identity, x) == x }

  ghost predicate LeftIdentity<T(!new)>(op: (T, T) -> T, identity: T) { forall x :: NeutralOn(op, identity, x) }

  lemma {:induction false} FoldConcat<T>(op: (T, T) -> T, init: T, xs: seq<T>, ys: seq<T>)
    ensures Fold(op, init, xs + ys) == Fold(op, Fold(op, init, xs), ys)
    decreases |ys|
  {
    if ys == [] {
      assert xs + ys == xs;
    } else {
      assert (xs + ys)[..|xs + ys| - 1] == xs + ys[..|ys| - 1];
      FoldConcat(op, init, xs, ys[..|ys| - 1]);
    }
  }

  lemma FoldSnoc<T>(op: (T, T) -> T, init: T, xs: seq<T>, x: T)
    ensures Fold(op, init, xs + [x]) == op(Fold(op, init, xs), x)
  {
    assert (xs + [x])[..|xs|] == xs;
  }

  /** A slice folded from the identity can be added in one step. */
  lemma {:induction false} FoldFromIdentity<T(!new)>(op: (T, T) -> T, identity: T, init: T, xs: seq<T>)
    requires Associative(op) && LeftIdentity(op, identity) && |xs| > 0
    ensures op(init, Fold(op, identity, xs)) == Fold(op, init, xs)
    decreases |xs|
  {
    var front, last := xs[..|xs| - 1], xs[|xs| - 1];
    if |xs| == 1 {
      assert front == [] && NeutralOn(op, identity, last);
    } else {
      FoldFromIdentity(op, identity, init, front);
      assert AssociatesOn(op, init, Fold(op, identity, front), last);
    }
  }

  // ---------------------------------------------------------------- the partial results

  /** The bounds of slice `k`. */
  function Slice<T>(plan: Plan, xs: seq<T>, k: nat): (r: seq<T>)
    requires ValidPlan(plan) && plan.inputSize == |xs| && k < plan.taskCount
    ensures |r| > 0
  {
    TaskBounds(plan, k);
    xs[TaskStart(plan, k)..TaskEnd(plan, k)]
  }

  /** What task `k` leaves in its place: the first starts from `init`, the others from the identity. */
  function Partial<T>(op: (T, T) -> T, init: T, identity: T, plan: Plan, xs: seq<T>, k: nat): T
    requires ValidPlan(plan) && plan.inputSize == |xs| && k < plan.taskCount
  {
    Fold(op, if k == 0 then init else identity, Slice(plan, xs, k))
  }

  ghost predicate IsPartials<T>(op: (T, T) -> T, init: T, identity: T, plan: Plan, xs: seq<T>, rs: seq<T>)
    requires ValidPlan(plan) && plan.inputSize == |xs|
  {
    |rs| == plan.taskCount && forall k :: 0 <= k < |rs| ==> rs[k] == Partial(op, init, identity, plan, xs, k)
  }

  lemma NextSlice<T>(plan: Plan, xs: seq<T>, k: nat)
    requires ValidPlan(plan) && plan.inputSize == |xs| && k + 1 < plan.taskCount
    ensures TaskEnd(plan, k) <= TaskEnd(plan, k + 1) <= |xs|
    ensures xs[..TaskEnd(plan, k)] + Slice(plan, xs, k + 1) == xs[..TaskEnd(plan, k + 1)]
  {
    TaskBounds(plan, k);
    TaskBounds(plan, k + 1);
  }

  /** One more partial result folds one more slice. */
  lemma FoldNext<T(!new)>(op: (T, T) -> T, identity: T, init: T, before: seq<T>, slice: seq<T>)
    requires Associative(op) && LeftIdentity(op, identity) && |slice| > 0
    ensures op(Fold(op, init, before), Fold(op, identity, slice)) == Fold(op, init, before + slice)
  {
    FoldFromIdentity(op, identity, Fold(op, init, before), slice);
    FoldConcat(op, init, before, slice);
  }

  lemma FoldNextPartial<T(!new)>(op: (T, T) -> T, identity: T, init: T, first: T, rest: seq<T>, r: T, before: seq<T>, slice: seq<T>)
    requires Associative(op) && LeftIdentity(op, identity) && |slice| > 0
    requires Fold(op, first, rest) == Fold(op, init, before) && r == Fold(op, identity, slice)
    ensures Fold(op, first, rest + [r]) == Fold(op, init, before + slice)
  {
    FoldNext(op, identity, init, before, slice);
    FoldSnoc(op, first, rest, r);
  }

  lemma TailSnoc<T>(rs: seq<T>, k: nat)
    requires 0 < k < |rs|
    ensures rs[1..k + 1] == rs[1..k] + [rs[k]]
  {
  }

  /** Folding the first partial results folds the input they cover. */
  lemma {:induction false} FoldPartials<T(!new)>(op: (T, T) -> T, init: T, identity: T, plan: Plan, xs: seq<T>, rs: seq<T>, k: nat)
    requires Associative(op) && LeftIdentity(op, identity)
    requires ValidPlan(plan) && plan.inputSize == |xs| && IsPartials(op, init, identity, plan, xs, rs) && k < |rs|
    ensures TaskEnd(plan, k) <= |xs| && Fold(op, rs[0], rs[1..k + 1]) == Fold(op, init, xs[..TaskEnd(plan, k)])
  {
    if k == 0 {
      TaskBounds(plan, 0);
      assert xs[..TaskEnd(plan, 0)] == Slice(plan, xs, 0);
    } else {
      var j := k - 1;
      FoldPartials(op, init, identity, plan, xs, rs, j);
      NextSlice(plan, xs, j);
      TailSnoc(rs, k);
      assert rs[k] == Partial(op, init, identity, plan, xs, k);
      FoldNextPartial(op, identity, init, rs[0], rs[1..k], rs[k], xs[..TaskEnd(plan, j)], Slice(plan, xs, k));
    }
  }

  /** Folding all partial results is folding the input. */
  lemma FoldAllPartials<T(!new)>(op: (T, T) -> T, init: T, identity: T, plan: Plan, xs: seq<T>, rs: seq<T>)
    requires Associative(op) && LeftIdentity(op, identity)
    requires ValidPlan(plan) && plan.inputSize == |xs| && IsPartials(op, init, identity, plan, xs, rs) && |rs| > 0
    ensures Fold(op, rs[0], rs[1..]) == Fold(op, init, xs)
  {
    FoldPartials(op, init, identity, plan, xs, rs, |rs| - 1);
    TaskBounds(plan, |rs| - 1);
    assert rs[1..|rs|] == rs[1..] && xs[..|xs|] == xs;
  }

  // ---------------------------------------------------------------- the source's steps

  method Accumulate<T>(op: (T, T) -> T, init: T, xs: seq<T>) returns (r: T)
    ensures r == Fold(op, init, xs)
  {
    r := init;
    var i := 0;
    while i < |xs|
      invariant i <= |xs| && r == Fold(op, init, xs[..i])
    {
      assert xs[..i + 1][..i] == xs[..i];
      r, i := op(r, xs[i]), i + 1;
    }
    assert xs[..i] == xs;
  }

  function Starts<T>(n: nat, init: T, identity: T): (r: seq<T>)
    ensures |r| == n && forall k :: 0 <= k < n ==> r[k] == if k == 0 then init else identity
  {
    seq(n, k => if k == 0 then init else identity)
  }

  /** Each task folds its slice onto what its place held; the tasks run in any order. */
  method Partials<T>(op: (T, T) -> T, init: T, identity: T, plan: Plan, xs: seq<T>) returns (rs: seq<T>)
    requires ValidPlan(plan) && plan.inputSize == |xs|
    ensures IsPartials(op, init, identity, plan, xs, rs)
  {
    var tasks := SliceInput(plan);
    rs := Starts(plan.taskCount, init, identity);
    var todo: set<nat> := Below(plan.taskCount);
    while todo != {}
      invariant |rs| == plan.taskCount && forall p: nat :: p in todo ==> p < plan.taskCount
      invariant forall k :: 0 <= k < |rs| ==>
                  rs[k] == if k in todo then (if k == 0 then init else identity) else Partial(op, init, identity, plan, xs, k)
      decreases |todo|
    {
      var p :| p in todo;
      assert Planned(plan, p, tasks[p]);
      TaskBounds(plan, p);
      var r := Accumulate(op, rs[p], xs[tasks[p].offset..tasks[p].offset + tasks[p].size]);
      rs, todo := rs[p := r], todo - {p};
    }
  }

  /** For every associative operation with a left identity, input and slicing: the sequential fold. */
  method AccumulateInParallel<T(!new)>(op: (T, T) -> T, init: T, identity: T, xs: seq<T>, params: Params) returns (r: T)
    requires |xs| > 0 ==> params.maxTasks > 0 && params.minTaskSize > 0
    requires Associative(op) && LeftIdentity(op, identity)
    ensures r == Fold(op, init, xs)
    decreases |xs|
  {
    if |xs| == 0 { return init; }
    if params.maxTasks == 1 || |xs| <= Max(params.minTaskSize, params.maxTasks) {
      r := Accumulate(op, init, xs);
      return;
    }
    var plan := MakePlan(params, |xs|);
    PlanIsValid(params, |xs|);
    NoTasks(plan);
    var rs := Partials(op, init, identity, plan, xs);
    FoldAllPartials(op, init, identity, plan, xs, rs);
    r := AccumulateInParallel(op, rs[0], identity, rs[1..], params);
  }
}
