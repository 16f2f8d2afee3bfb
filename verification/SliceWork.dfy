/** How an input is cut into slices of work, and the loop that hands them out. */
module SliceWork {
  import opened Arithmetic

  datatype Params = Params(minTaskSize: nat, maxTasks: nat)

  datatype Plan = Plan(inputSize: nat, taskSize: nat, taskCount: nat)

  datatype Task = Task(index: nat, offset: nat, size: nat)

  /** Division rounding up, as the source writes it. */
  function CeilDiv(n: nat, d: nat): nat
    requires d > 0
  {
    (n + d - 1) / d
  }

  /** The least `q` with `n <= q * d`. */
  lemma CeilDivIs(n: nat, d: nat, q: nat)
    requires d > 0
    ensures CeilDiv(n, d) <= q <==> n <= d * q
  {
    var c := CeilDiv(n, d);
    assert n + d - 1 == d * c + (n + d - 1) % d;
    if c <= q {
      MulMono(d, c, q);
    } else {
      MulMono(d, q + 1, c);
    }
  }

  function TaskSize(params: Params, inputSize: nat): nat
    requires params.maxTasks > 0 && params.minTaskSize > 0
  {
    Max(params.minTaskSize, CeilDiv(inputSize, params.maxTasks))
  }

  function MakePlan(params: Params, inputSize: nat): Plan
    requires params.maxTasks > 0 && params.minTaskSize > 0
  {
    Plan(inputSize, TaskSize(params, inputSize), CeilDiv(inputSize, TaskSize(params, inputSize)))
  }

  /** A plan whose tasks cover the input and none of which is empty. */
  predicate ValidPlan(plan: Plan) {
    && plan.taskSize > 0
    && plan.inputSize <= plan.taskSize * plan.taskCount
    && (plan.taskCount > 0 ==> plan.taskSize * (plan.taskCount - 1) < plan.inputSize)
  }

  /** The tasks are big enough, not too many, no bigger than that takes, and each has something to do. */
  lemma PlanIsValid(params: Params, inputSize: nat)
    requires params.maxTasks > 0 && params.minTaskSize > 0
    ensures var plan := MakePlan(params, inputSize);
            ValidPlan(plan) && plan.taskCount <= params.maxTasks && plan.taskSize >= params.minTaskSize
    ensures var size := MakePlan(params, inputSize).taskSize;
            size > params.minTaskSize ==> params.maxTasks * (size - 1) < inputSize
  {
    var t := TaskSize(params, inputSize);
    if t > params.minTaskSize { CeilDivIs(inputSize, params.maxTasks, t - 1); }
    var count := CeilDiv(inputSize, t);
    CeilDivIs(inputSize, t, count);
    if count > 0 { CeilDivIs(inputSize, t, count - 1); }
    CeilDivIs(inputSize, params.maxTasks, t);
    assert params.maxTasks * t == t * params.maxTasks;
    CeilDivIs(inputSize, t, params.maxTasks);
  }

  function TaskStart(plan: Plan, k: nat): nat { plan.taskSize * k }

  function TaskEnd(plan: Plan, k: nat): nat {
    if plan.taskSize * (k + 1) < plan.inputSize then plan.taskSize * (k + 1) else plan.inputSize
  }

  lemma TaskBounds(plan: Plan, k: nat)
    requires ValidPlan(plan) && k < plan.taskCount
    ensures TaskStart(plan, k) < TaskEnd(plan, k) <= plan.inputSize
    ensures TaskEnd(plan, k) - TaskStart(plan, k) <= plan.taskSize
    ensures k + 1 < plan.taskCount ==> TaskEnd(plan, k) == TaskStart(plan, k + 1) == TaskStart(plan, k) + plan.taskSize
    ensures k + 1 == plan.taskCount ==> TaskEnd(plan, k) == plan.inputSize
  {
    MulMono(plan.taskSize, k, plan.taskCount - 1);
    assert plan.taskSize * (k + 1) == plan.taskSize * k + plan.taskSize;
    if k + 1 < plan.taskCount { MulMono(plan.taskSize, k + 1, plan.taskCount - 1); }
  }

  /** The slices tile the input: each starts where the one before ends, all but the last are full. */
  ghost predicate Tiles(plan: Plan, tasks: seq<Task>) {
    && |tasks| == plan.taskCount
    && (forall k :: 0 <= k < |tasks| ==> tasks[k].index == k && tasks[k].offset == plan.taskSize * k && 0 < tasks[k].size <= plan.taskSize)
    && (forall k :: 0 <= k < |tasks| - 1 ==> tasks[k].offset + tasks[k].size == tasks[k + 1].offset)
    && (if |tasks| == 0 then plan.inputSize == 0 else tasks[|tasks| - 1].offset + tasks[|tasks| - 1].size == plan.inputSize)
  }

  ghost predicate Planned(plan: Plan, k: nat, task: Task) {
    task.index == k && task.offset == TaskStart(plan, k) && task.offset + task.size == TaskEnd(plan, k)
  }

  lemma PlannedTile(plan: Plan, tasks: seq<Task>)
    requires ValidPlan(plan) && |tasks| == plan.taskCount
    requires forall k :: 0 <= k < |tasks| ==> Planned(plan, k, tasks[k])
    ensures Tiles(plan, tasks)
  {
    forall k | 0 <= k < |tasks|
      ensures 0 < tasks[k].size <= plan.taskSize
      ensures k < |tasks| - 1 ==> tasks[k].offset + tasks[k].size == tasks[k + 1].offset
      ensures k == |tasks| - 1 ==> tasks[k].offset + tasks[k].size == plan.inputSize
    {
      assert Planned(plan, k, tasks[k]);
      if k < |tasks| - 1 { assert Planned(plan, k + 1, tasks[k + 1]); }
      TaskBounds(plan, k);
    }
  }

  lemma NoTasks(plan: Plan)
    requires ValidPlan(plan)
    ensures plan.inputSize == 0 <==> plan.taskCount == 0
  {
    if plan.taskCount > 0 { MulMono(plan.taskSize, 0, plan.taskCount - 1); }
  }

  /** The task the loop makes next is the planned one, and what remains is the later tasks' share. */
  lemma NextTask(plan: Plan, index: nat, offset: nat, remaining: nat)
    requires ValidPlan(plan) && index < plan.taskCount
    requires offset == TaskStart(plan, index) && offset + remaining == plan.inputSize
    ensures var size := if remaining < plan.taskSize then remaining else plan.taskSize;
            && Planned(plan, index, Task(index, offset, size)) && size > 0
            && (if index + 1 < plan.taskCount then size < remaining && offset + size == TaskStart(plan, index + 1)
                else size == remaining)
  {
    TaskBounds(plan, index);
    if index + 1 < plan.taskCount { TaskBounds(plan, index + 1); }
  }

  /** `slice_work`: exactly the planned number of tasks, and they tile the input. */
  method SliceInput(plan: Plan) returns (tasks: seq<Task>)
    requires ValidPlan(plan)
    ensures Tiles(plan, tasks)
    ensures forall k :: 0 <= k < |tasks| ==> Planned(plan, k, tasks[k])
  {
    tasks := [];
    NoTasks(plan);
    var index: nat, offset: nat, remaining := 0, 0, plan.inputSize;
    while remaining > 0
      invariant offset + remaining == plan.inputSize && |tasks| == index <= plan.taskCount
      invariant if index < plan.taskCount then remaining > 0 && offset == TaskStart(plan, index) else remaining == 0
      invariant forall k :: 0 <= k < index ==> Planned(plan, k, tasks[k])
    {
      NextTask(plan, index, offset, remaining);
      var size := if remaining < plan.taskSize then remaining else plan.taskSize;
      tasks := tasks + [Task(index, offset, size)];
      index, offset, remaining := index + 1, offset + size, remaining - size;
    }
    PlannedTile(plan, tasks);
  }

  /** The indices of `n` tasks. */
  function Below(n: nat): (s: set<nat>)
    ensures forall p: nat :: p in s <==> p < n
  {
    if n == 0 then {} else Below(n - 1) + {n - 1}
  }
}
