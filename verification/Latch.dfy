/**
  `Latch`: a value that is written once, with any number of threads setting and reading it,
  interleaved at every atomic operation.
 */
module Latches {
  import opened Wrappers

  type ThreadId = nat
  type Value = int

  /** `kInitial`, `kSetting` and `kReady`; the state only ever moves down this list. */
  datatype Stage = Initial | Setting | Ready

  function Order(s: Stage): nat { if s.Initial? then 0 else if s.Setting? then 1 else 3 }

  datatype Thread =
    | Idle
    /** `set_value` has won and is about to store the value. */
    | Storing(value: Value)
    /** The value is stored and is about to be made known. */
    | Publishing(value: Value)
    /** A reader has seen `kReady` and is about to look at the value. */
    | Looking
    /** A handler of `async_get`, or a task in `await`, waits for a change from `lastSeen`. */
    | Waiting(lastSeen: Stage)
    | Panicked

  /** `winner`, `accepted` and `read` are history. */
  datatype Shared = Shared(
    stage: Stage,
    value: Option<Value>,
    winner: Option<ThreadId>,
    accepted: seq<Value>,
    read: seq<Value>)

  datatype State = State(sh: Shared, threads: seq<Thread>)

  datatype Action =
    | Set(value: Value)
    | Poll
    | Wait
    /** The watch reports a stage the latch has been in; it may be out of date, even the one last seen. */
    | Report(seen: Stage)
    | Advance

  datatype Move = Move(sh: Shared, th: Thread)

  predicate Allowed(sh: Shared, th: Thread, a: Action) {
    match a
    case Set(_) => th.Idle?
    case Poll => th.Idle?
    case Wait => th.Idle?
    case Report(seen) => th.Waiting? && Order(seen) <= Order(sh.stage)
    case Advance => th.Storing? || th.Publishing? || th.Looking?
  }

  function Next(sh: Shared, t: ThreadId, th: Thread, a: Action): Move
    requires Allowed(sh, th, a)
  {
    match a
    case Set(value) =>
      if sh.stage.Initial?
      then Move(sh.(stage := Setting, winner := Some(t), accepted := sh.accepted + [value]), Storing(value))
      else Move(sh, Idle)
    case Poll => Move(sh, if sh.stage.Ready? then Looking else Idle)
    case Wait => Move(sh, Waiting(Initial))
    case Report(seen) => Move(sh, if seen.Ready? then Looking else Waiting(seen))
    case Advance =>
      match th
      case Storing(value) => Move(sh.(value := Some(value)), Publishing(value))
      case Publishing(value) => Move(sh.(stage := Ready), Idle)
      case Looking => if sh.value.Some? then Move(sh.(read := sh.read + [sh.value.value]), Idle) else Move(sh, Panicked)
  }

  predicate Enabled(s: State, t: ThreadId, a: Action) { t < |s.threads| && Allowed(s.sh, s.threads[t], a) }

  function Apply(s: State, t: ThreadId, a: Action): State
    requires Enabled(s, t, a)
  {
    var m := Next(s.sh, t, s.threads[t], a);
    State(m.sh, s.threads[t := m.th])
  }

  predicate Start(s: State) {
    s.sh == Shared(Initial, None, None, [], []) && forall t :: 0 <= t < |s.threads| ==> s.threads[t].Idle?
  }

  ghost predicate Step(s: State, s': State) {
    exists t: ThreadId, a: Action :: Enabled(s, t, a) && s' == Apply(s, t, a)
  }

  ghost predicate IsRun(run: seq<State>) {
    |run| > 0 && Start(run[0]) && forall i :: 0 <= i < |run| - 1 ==> Step(run[i], run[i + 1])
  }

  // ---------------------------------------------------------------- the invariant

  predicate Writes(th: Thread) { th.Storing? || th.Publishing? }

  ghost predicate SharedOk(sh: Shared) {
    && (sh.winner.Some? <==> !sh.stage.Initial?)
    && |sh.accepted| == (if sh.stage.Initial? then 0 else 1)
    && (sh.value.Some? ==> |sh.accepted| == 1 && sh.value.value == sh.accepted[0])
    && (sh.stage.Ready? ==> sh.value.Some?)
    && (sh.read != [] ==> sh.stage.Ready?)
    && forall i :: 0 <= i < |sh.read| ==> sh.value == Some(sh.read[i])
  }

  ghost predicate ThreadOk(sh: Shared, t: ThreadId, th: Thread) {
    && (Writes(th) ==> sh.stage.Setting? && sh.winner == Some(t) && sh.accepted == [th.value])
    && (th.Publishing? ==> sh.value.Some?)
    && (th.Looking? ==> sh.stage.Ready?)
    && (th.Waiting? ==> Order(th.lastSeen) <= Order(sh.stage))
    && !th.Panicked?
  }

  ghost predicate Inv(s: State) {
    && SharedOk(s.sh)
    && (forall t :: 0 <= t < |s.threads| ==> ThreadOk(s.sh, t, s.threads[t]))
    && (s.sh.stage.Setting? ==> s.sh.winner.value < |s.threads| && Writes(s.threads[s.sh.winner.value]))
  }

  lemma OthersOk(s: State, t: ThreadId, a: Action, u: ThreadId)
    requires Inv(s) && Enabled(s, t, a) && u < |s.threads| && u != t
    ensures ThreadOk(Apply(s, t, a).sh, u, s.threads[u])
  {
    assert ThreadOk(s.sh, u, s.threads[u]) && ThreadOk(s.sh, t, s.threads[t]);
  }

  /** Every step of every thread keeps the invariant. */
  lemma StepInv(s: State, t: ThreadId, a: Action)
    requires Inv(s) && Enabled(s, t, a)
    ensures Inv(Apply(s, t, a))
  {
    var s' := Apply(s, t, a);
    assert ThreadOk(s.sh, t, s.threads[t]);
    forall u | 0 <= u < |s'.threads| ensures ThreadOk(s'.sh, u, s'.threads[u]) {
      if u != t { OthersOk(s, t, a, u); }
    }
  }

  lemma {:induction false} RunInv(run: seq<State>, i: nat)
    requires IsRun(run) && i < |run|
    ensures Inv(run[i])
  {
    if i > 0 {
      RunInv(run, i - 1);
      assert Step(run[i - 1], run[i]);
      var t: ThreadId, a: Action :| Enabled(run[i - 1], t, a) && run[i] == Apply(run[i - 1], t, a);
      StepInv(run[i - 1], t, a);
    }
  }

  // ---------------------------------------------------------------- what every run promises

  /** At most one `set_value` succeeds, every reader gets its value, and no check fails. */
  lemma WrittenOnce(run: seq<State>, i: nat, t: ThreadId)
    requires IsRun(run) && i < |run| && t < |run[i].threads|
    ensures |run[i].sh.accepted| <= 1 && !run[i].threads[t].Panicked?
    ensures forall k :: 0 <= k < |run[i].sh.read| ==> run[i].sh.accepted == [run[i].sh.read[k]]
  {
    RunInv(run, i);
    assert ThreadOk(run[i].sh, t, run[i].threads[t]);
  }

  /** Once ready, a latch stays ready with the same value. */
  lemma {:induction false} ReadyIsFinal(run: seq<State>, i: nat, j: nat)
    requires IsRun(run) && i <= j < |run| && run[i].sh.stage.Ready?
    ensures run[j].sh.stage.Ready? && run[j].sh.value == run[i].sh.value && run[i].sh.value.Some?
    decreases j
  {
    RunInv(run, i);
    if i < j {
      ReadyIsFinal(run, i, j - 1);
      RunInv(run, j - 1);
      assert Step(run[j - 1], run[j]);
      var t: ThreadId, a: Action :| Enabled(run[j - 1], t, a) && run[j] == Apply(run[j - 1], t, a);
      assert ThreadOk(run[j - 1].sh, t, run[j - 1].threads[t]);
    }
  }

  /** A waiter who last saw something else gets the value as soon as the watch reports the present stage. */
  lemma WaiterIsServed(run: seq<State>, i: nat, t: ThreadId)
    requires IsRun(run) && i < |run| && t < |run[i].threads| && run[i].threads[t].Waiting? && run[i].sh.stage.Ready?
    ensures Enabled(run[i], t, Report(Ready)) && Enabled(Apply(run[i], t, Report(Ready)), t, Advance)
    ensures Apply(Apply(run[i], t, Report(Ready)), t, Advance).sh.read == run[i].sh.read + run[i].sh.accepted
  {
    RunInv(run, i);
  }

  // ---------------------------------------------------------------- whose value it is

  datatype Event = Event(t: ThreadId, a: Action)

  ghost predicate Happens(s: State, e: Event, s': State) { Enabled(s, e.t, e.a) && s' == Apply(s, e.t, e.a) }

  /** A run, with who did what. */
  ghost predicate IsHistory(run: seq<State>, events: seq<Event>) {
    && |run| == |events| + 1 && Start(run[0])
    && forall i :: 0 <= i < |events| ==> Happens(run[i], events[i], run[i + 1])
  }

  lemma HistoryIsRun(run: seq<State>, events: seq<Event>)
    requires IsHistory(run, events)
    ensures IsRun(run)
  {
    forall i | 0 <= i < |run| - 1 ensures Step(run[i], run[i + 1]) { assert Happens(run[i], events[i], run[i + 1]); }
  }

  /** The first call of `set_value`. */
  function FirstSet(events: seq<Event>): Option<Event> {
    if events == [] then None
    else
      var before := FirstSet(events[..|events| - 1]);
      if before.Some? then before else if events[|events| - 1].a.Set? then Some(events[|events| - 1]) else None
  }

  ghost predicate SetBy(sh: Shared, first: Option<Event>) {
    && (sh.stage.Initial? <==> first.None?)
    && sh.accepted == (if first.Some? && first.value.a.Set? then [first.value.a.value] else [])
    && sh.winner == (if first.Some? then Some(first.value.t) else None)
  }

  /** The first call of `set_value` wins, whoever the others are: its value is the one accepted, and nobody waits for another. */
  lemma {:induction false} FirstSetWins(run: seq<State>, events: seq<Event>, i: nat)
    requires IsHistory(run, events) && i <= |events|
    ensures SetBy(run[i].sh, FirstSet(events[..i]))
  {
    if i > 0 {
      FirstSetWins(run, events, i - 1);
      HistoryIsRun(run, events);
      RunInv(run, i - 1);
      assert Happens(run[i - 1], events[i - 1], run[i]);
      assert ThreadOk(run[i - 1].sh, events[i - 1].t, run[i - 1].threads[events[i - 1].t]);
      assert events[..i][..i - 1] == events[..i - 1];
    }
  }

  /** What is read is the value of the first call. */
  lemma ReadersGetTheFirst(run: seq<State>, events: seq<Event>, i: nat, k: nat)
    requires IsHistory(run, events) && i <= |events| && k < |run[i].sh.read|
    ensures FirstSet(events[..i]).Some? && FirstSet(events[..i]).value.a == Set(run[i].sh.read[k])
  {
    HistoryIsRun(run, events);
    RunInv(run, i);
    FirstSetWins(run, events, i);
    FirstSetIsSet(events[..i]);
  }

  lemma {:induction false} FirstSetIsSet(events: seq<Event>)
    ensures FirstSet(events).Some? ==> FirstSet(events).value in events && FirstSet(events).value.a.Set?
  {
    if events != [] { FirstSetIsSet(events[..|events| - 1]); }
  }

  /** The state after the thread has gone on, if it can. */
  function GoOn(s: State, t: ThreadId): State { if Enabled(s, t, Advance) then Apply(s, t, Advance) else s }

  /** Two steps of the winner make its value known. */
  lemma WinnerPublishes(run: seq<State>, i: nat, t: ThreadId)
    requires IsRun(run) && i < |run| && run[i].sh.stage.Setting? && run[i].sh.winner == Some(t)
    ensures var s := GoOn(GoOn(run[i], t), t);
            s.sh.stage.Ready? && s.sh.value.Some? && run[i].sh.accepted == [s.sh.value.value] && s.threads[t].Idle?
  {
    RunInv(run, i);
    assert ThreadOk(run[i].sh, t, run[i].threads[t]);
  }

  /** A poll of a ready latch reads the value, and a poll of one that is not ready reads nothing. */
  lemma PollReads(run: seq<State>, i: nat, t: ThreadId)
    requires IsRun(run) && i < |run| && t < |run[i].threads| && run[i].threads[t].Idle?
    ensures Enabled(run[i], t, Poll)
    ensures var s := Apply(run[i], t, Poll);
            if run[i].sh.stage.Ready?
            then Enabled(s, t, Advance) && Apply(s, t, Advance).sh.read == run[i].sh.read + run[i].sh.accepted && Apply(s, t, Advance).threads[t].Idle?
            else s == run[i]
  {
    RunInv(run, i);
  }
}
