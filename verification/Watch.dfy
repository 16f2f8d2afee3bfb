/**
  `WatchAtomic`: an atomic value plus a list of waiting handlers guarded by a spin bit.

  Any number of threads run `async_wait`, value changes and `close` concurrently.  Each thread
  advances by one atomic access at a time; a run is any interleaving of such steps.
 */
module WatchAtomic {
  import opened Wrappers

  type Value = int
  type HandlerId = nat
  type ThreadId = nat

  /** What the caller of `modify` and its kin does to the value; `None` leaves it alone. */
  type Transform = Value -> Option<Value>

  /** The flags packed into `spin_state_`. */
  datatype Spin = Spin(locked: bool, open: bool, waiting: bool, closedAtEnd: bool, closedBeforeEnd: bool)

  datatype StatusCode = Closed | EndOfStream | ClosedBeforeEndOfStream

  /** What a handler is invoked with: a value, or the final status of a closed watch. */
  datatype Outcome = Changed(value: Value) | Final(status: StatusCode)

  datatype Observer = Observer(id: HandlerId, lastSeen: Value)

  datatype Delivery = Delivery(observer: Observer, outcome: Outcome)

  /** Where a thread stands between two atomic accesses, with its local variables. */
  datatype Thread =
    | Idle
      // async_wait
    | WaitFirstLoad(ob: Observer)
    | WaitLock(ob: Observer)
    | WaitLocked(ob: Observer, prior: Spin)
    | WaitUnchanged(ob: Observer, prior: Spin)
    | WaitUnlock(prior: Spin)
    | WaitUnlockChanged(ob: Observer, prior: Spin, nowSeen: Value)
    | WaitUnlockClosed(ob: Observer, prior: Spin)
    | WaitReadFinal(ob: Observer)
    | WaitInvoke(ob: Observer, outcome: Outcome)
      // modify, modify_if (sticky) and await_modify (not sticky)
    | Modify(oldValue: Value, changed: bool, sticky: bool, f: Transform)
      // notify
    | NotifyLoad(newValue: Value)
    | NotifyLock(newValue: Value)
    | NotifyLocked(newValue: Value, prior: Spin)
    | NotifyUnlock(newValue: Value, prior: Spin, local: seq<Observer>)
      // close
    | CloseLock(code: StatusCode)
    | CloseLocked(code: StatusCode, prior: Spin)
    | CloseUnlock(code: StatusCode, desired: Spin, local: seq<Observer>)
    | CloseReadFinal(local: seq<Observer>)
      // invoke_all_handlers, for notify and close alike
    | Draining(outcome: Outcome, local: seq<Observer>, next: nat)

  /** The shared object, with the history of handlers started and delivered. */
  datatype Shared = Shared(
    value: Value,
    spin: Spin,
    observers: seq<Observer>,
    started: set<HandlerId>,
    delivered: seq<Delivery>)

  datatype State = State(sh: Shared, threads: seq<Thread>)

  /** A step is the start of an operation, one try of a CAS loop, or the next access of a thread. */
  datatype Action =
    | StartWait(ob: Observer)
    /** `set_value`, `fetch_add` and their kin, in one access. */
    | StartFetch(op: Value -> Value)
    | StartModify(sticky: bool, f: Transform)
    /** `await_modify` goes on with the value that its wait was given. */
    | ResumeModify(given: Value, f: Transform)
    | TryModify(spurious: bool)
    | StartClose(code: StatusCode)
    | Advance

  function Unlocked(spin: Spin): Spin { spin.(locked := false) }

  function FinalStatus(spin: Spin): StatusCode {
    if spin.closedBeforeEnd && !spin.closedAtEnd then ClosedBeforeEndOfStream
    else if spin.closedAtEnd && !spin.closedBeforeEnd then EndOfStream
    else Closed
  }

  /** The word `close` stores: no longer open nor waiting; only the first close sets a status bit. */
  function CloseTarget(prior: Spin, code: StatusCode): Spin {
    var cleared := prior.(open := false, waiting := false);
    if !prior.open then cleared
    else match code
      case EndOfStream => cleared.(closedAtEnd := true)
      case ClosedBeforeEndOfStream => cleared.(closedBeforeEnd := true)
      case Closed => cleared
  }

  /** Some handler was given the value. */
  predicate WasReported(sh: Shared, v: Value) {
    exists k :: 0 <= k < |sh.delivered| && sh.delivered[k].outcome == Changed(v)
  }

  predicate Allowed(sh: Shared, th: Thread, a: Action) {
    match a
    case StartWait(ob) => th.Idle? && ob.id !in sh.started
    case StartFetch(_) => th.Idle?
    case StartModify(_, _) => th.Idle?
    case ResumeModify(given, _) => th.Idle? && WasReported(sh, given)
    case TryModify(_) => th.Modify?
    case StartClose(_) => th.Idle?
    case Advance => !th.Idle? && !th.Modify?
  }

  /** One step of one thread: its effect on the shared object and where the thread goes. */
  function Next(sh: Shared, th: Thread, a: Action): (Shared, Thread)
    requires Allowed(sh, th, a)
  {
    match a
    case StartWait(ob) => (sh.(started := sh.started + {ob.id}), WaitFirstLoad(ob))
    case StartFetch(op) => (sh.(value := op(sh.value)), if op(sh.value) != sh.value then NotifyLoad(op(sh.value)) else Idle)
    case StartModify(sticky, f) => (sh, Modify(sh.value, false, sticky, f))
    case ResumeModify(given, f) => (sh, Modify(given, false, false, f))
    case TryModify(spurious) => NextTryModify(sh, th, spurious)
    case StartClose(code) => (sh, CloseLock(code))
    case Advance => NextAdvance(sh, th)
  }

  /** One round of the compare-and-swap loops; `None` means the transform declined. */
  function NextTryModify(sh: Shared, th: Thread, spurious: bool): (Shared, Thread)
    requires th.Modify?
  {
    match th.f(th.oldValue)
    case None => (sh, Idle)
    case Some(v) =>
      var changed := th.changed || v != th.oldValue;
      if sh.value == th.oldValue && !spurious then
        (sh.(value := v), if v != th.oldValue || (th.sticky && changed) then NotifyLoad(v) else Idle)
      else
        (sh, Modify(sh.value, changed, th.sticky, th.f))
  }

  function NextAdvance(sh: Shared, th: Thread): (Shared, Thread)
    requires !th.Idle? && !th.Modify?
  {
    match th
    case WaitFirstLoad(ob) =>
      (sh, if sh.value != ob.lastSeen then WaitInvoke(ob, Changed(sh.value)) else WaitLock(ob))
    case WaitLock(ob) => if sh.spin.locked then (sh, th) else (Lock(sh), WaitLocked(ob, sh.spin))
    case WaitLocked(ob, prior) =>
      (sh, if !prior.open then WaitUnlockClosed(ob, prior)
           else if sh.value != ob.lastSeen then WaitUnlockChanged(ob, prior, sh.value)
           else WaitUnchanged(ob, prior))
    case WaitUnchanged(ob, prior) =>
      (sh.(observers := sh.observers + [ob]), WaitUnlock(prior.(waiting := true)))
    case WaitUnlock(prior) => (sh.(spin := Unlocked(prior)), Idle)
    case WaitUnlockChanged(ob, prior, now) => (sh.(spin := Unlocked(prior)), WaitInvoke(ob, Changed(now)))
    case WaitUnlockClosed(ob, prior) => (sh.(spin := Unlocked(prior)), WaitReadFinal(ob))
    case WaitReadFinal(ob) => (sh, WaitInvoke(ob, Final(FinalStatus(sh.spin))))
    case WaitInvoke(ob, outcome) => (Deliver(sh, ob, outcome), Idle)
    case NotifyLoad(v) => (sh, if !sh.spin.locked && !sh.spin.waiting then Idle else NotifyLock(v))
    case NotifyLock(v) => if sh.spin.locked then (sh, th) else (Lock(sh), NotifyLocked(v, sh.spin))
    case NotifyLocked(v, prior) => (sh.(observers := []), NotifyUnlock(v, prior, sh.observers))
    case NotifyUnlock(v, prior, local) =>
      (sh.(spin := Unlocked(prior.(waiting := false))), Draining(Changed(v), local, 0))
    case CloseLock(code) => if sh.spin.locked then (sh, th) else (Lock(sh), CloseLocked(code, sh.spin))
    case CloseLocked(code, prior) => (sh.(observers := []), CloseUnlock(code, CloseTarget(prior, code), sh.observers))
    case CloseUnlock(_, desired, local) => (sh.(spin := Unlocked(desired)), CloseReadFinal(local))
    case CloseReadFinal(local) => (sh, Draining(Final(FinalStatus(sh.spin)), local, 0))
    case Draining(outcome, local, next) =>
      if next < |local| then (Deliver(sh, local[next], outcome), Draining(outcome, local, next + 1))
      else (sh, Idle)
  }

  function Lock(sh: Shared): Shared { sh.(spin := sh.spin.(locked := true)) }

  function Deliver(sh: Shared, ob: Observer, outcome: Outcome): Shared {
    sh.(delivered := sh.delivered + [Delivery(ob, outcome)])
  }

  predicate Enabled(s: State, t: ThreadId, a: Action) {
    t < |s.threads| && Allowed(s.sh, s.threads[t], a)
  }

  function Apply(s: State, t: ThreadId, a: Action): State
    requires Enabled(s, t, a)
  {
    var (sh', th') := Next(s.sh, s.threads[t], a);
    State(sh', s.threads[t := th'])
  }

  ghost predicate Init(s: State) {
    && s.sh.spin == Spin(false, true, false, false, false)
    && s.sh.observers == [] && s.sh.started == {} && s.sh.delivered == []
    && forall t :: 0 <= t < |s.threads| ==> s.threads[t] == Idle
  }

  ghost predicate Step(s: State, s': State) {
    exists t, a :: Enabled(s, t, a) && s' == Apply(s, t, a)
  }

  ghost predicate IsRun(run: seq<State>) {
    && |run| > 0 && Init(run[0])
    && forall i :: 0 <= i < |run| - 1 ==> Step(run[i], run[i + 1])
  }

  // ---------------------------------------------------------------- the invariant

  predicate Holds(th: Thread) {
    th.WaitLocked? || th.WaitUnchanged? || th.WaitUnlock? || th.WaitUnlockChanged? || th.WaitUnlockClosed?
    || th.NotifyLocked? || th.NotifyUnlock? || th.CloseLocked? || th.CloseUnlock?
  }

  /** The spin bit has exactly one holder while it is set and none otherwise. */
  ghost predicate Exclusive(s: State) {
    && (forall t :: 0 <= t < |s.threads| && Holds(s.threads[t]) ==> s.sh.spin.locked)
    && (forall t, u :: 0 <= t < |s.threads| && 0 <= u < |s.threads| && Holds(s.threads[t]) && Holds(s.threads[u]) ==> t == u)
    && (s.sh.spin.locked ==> exists t :: 0 <= t < |s.threads| && Holds(s.threads[t]))
  }

  ghost predicate Tidy(sh: Shared) { sh.spin.waiting <==> |sh.observers| > 0 }

  /** What a thread's local variables and the shared object have in common at each place. */
  ghost predicate ThreadOk(sh: Shared, th: Thread) {
    match th
    case WaitLocked(_, prior) => prior == Unlocked(sh.spin) && Tidy(sh)
    case WaitUnchanged(_, prior) => prior == Unlocked(sh.spin) && Tidy(sh) && prior.open
    case WaitUnlock(prior) => prior == Unlocked(sh.spin).(waiting := true) && |sh.observers| > 0 && prior.open
    case WaitUnlockChanged(ob, prior, now) => prior == Unlocked(sh.spin) && Tidy(sh) && prior.open && now != ob.lastSeen
    case WaitUnlockClosed(_, prior) => prior == Unlocked(sh.spin) && Tidy(sh) && !prior.open
    case NotifyLocked(_, prior) => prior == Unlocked(sh.spin) && Tidy(sh)
    case NotifyUnlock(_, prior, _) => prior == Unlocked(sh.spin) && |sh.observers| == 0
    case CloseLocked(_, prior) => prior == Unlocked(sh.spin) && Tidy(sh)
    case CloseUnlock(code, desired, _) =>
      && |sh.observers| == 0 && !desired.open && !desired.waiting && !desired.locked
      && FinalStatus(desired) == (if sh.spin.open then code else FinalStatus(sh.spin))
    case WaitReadFinal(_) => !sh.spin.open
    case CloseReadFinal(_) => !sh.spin.open
    case WaitInvoke(ob, outcome) => OutcomeOk(sh, outcome) && (outcome.Changed? ==> outcome.value != ob.lastSeen)
    case Draining(outcome, local, next) => OutcomeOk(sh, outcome) && next <= |local|
    case _ => true
  }

  /** A final status is only ever reported by a closed watch, and it is the watch's one status. */
  ghost predicate OutcomeOk(sh: Shared, outcome: Outcome) {
    outcome.Final? ==> !sh.spin.open && outcome.status == FinalStatus(sh.spin)
  }

  ghost predicate SharedOk(sh: Shared) {
    && (!sh.spin.locked ==> Tidy(sh))
    && (!sh.spin.open ==> |sh.observers| == 0)
    && (sh.spin.open ==> !sh.spin.closedAtEnd && !sh.spin.closedBeforeEnd)
    && (forall k :: 0 <= k < |sh.delivered| ==> OutcomeOk(sh, sh.delivered[k].outcome))
  }

  /** A thread past its value change that has not yet taken the handler list. */
  predicate Committed(th: Thread) { th.NotifyLoad? || th.NotifyLock? || th.NotifyLocked? }

  ghost predicate SomeCommitted(s: State) {
    exists u :: 0 <= u < |s.threads| && Committed(s.threads[u])
  }

  ghost predicate WakeOk(s: State) {
    && (forall i :: 0 <= i < |s.sh.observers| && s.sh.observers[i].lastSeen != s.sh.value ==> SomeCommitted(s))
    && (forall t :: 0 <= t < |s.threads| && s.threads[t].WaitUnchanged? && s.threads[t].ob.lastSeen != s.sh.value
          ==> SomeCommitted(s))
  }

  ghost predicate Inv(s: State) {
    && Exclusive(s)
    && SharedOk(s.sh)
    && (forall t :: 0 <= t < |s.threads| ==> ThreadOk(s.sh, s.threads[t]))
    && WakeOk(s)
  }

  lemma InitInv(s: State)
    requires Init(s)
    ensures Inv(s)
  {
  }

  /** Only a holder touches the list or the flags; the lock bit follows the holder. */
  lemma NextEffect(sh: Shared, th: Thread, a: Action)
    requires Allowed(sh, th, a)
    ensures var (sh', th') := Next(sh, th, a);
            && (Holds(th) == Holds(th') ==> sh'.spin.locked == sh.spin.locked)
            && (!Holds(th) && Holds(th') ==> !sh.spin.locked && sh'.spin.locked)
            && (Holds(th) && !Holds(th') ==> !sh'.spin.locked)
            && (!Holds(th) ==> Unlocked(sh'.spin) == Unlocked(sh.spin) && sh'.observers == sh.observers)
            && (sh'.value != sh.value ==> Committed(th'))
  {
  }

  /** Once closed, always closed, and with the same final status. */
  lemma NextClosed(sh: Shared, th: Thread, a: Action)
    requires Allowed(sh, th, a) && ThreadOk(sh, th) && !sh.spin.open
    ensures var sh' := Next(sh, th, a).0; !sh'.spin.open && FinalStatus(sh'.spin) == FinalStatus(sh.spin)
  {
    NextEffect(sh, th, a);
  }

  lemma NextOk(sh: Shared, th: Thread, a: Action)
    requires Allowed(sh, th, a) && ThreadOk(sh, th) && SharedOk(sh)
    ensures ThreadOk(Next(sh, th, a).0, Next(sh, th, a).1)
  {
    if a.Advance? { AdvanceOk(sh, th); }
  }

  lemma AdvanceOk(sh: Shared, th: Thread)
    requires !th.Idle? && !th.Modify? && ThreadOk(sh, th) && SharedOk(sh)
    ensures ThreadOk(NextAdvance(sh, th).0, NextAdvance(sh, th).1)
  {
    if Holds(th) { HolderOk(sh, th); } else { NonHolderOk(sh, th); }
  }

  lemma HolderOk(sh: Shared, th: Thread)
    requires Holds(th) && ThreadOk(sh, th) && SharedOk(sh)
    ensures ThreadOk(NextAdvance(sh, th).0, NextAdvance(sh, th).1)
  {
  }

  lemma NonHolderOk(sh: Shared, th: Thread)
    requires !Holds(th) && !th.Idle? && !th.Modify? && ThreadOk(sh, th) && SharedOk(sh)
    ensures ThreadOk(NextAdvance(sh, th).0, NextAdvance(sh, th).1)
  {
  }

  lemma NextSharedOk(sh: Shared, th: Thread, a: Action)
    requires Allowed(sh, th, a) && ThreadOk(sh, th) && SharedOk(sh) && (Holds(th) ==> sh.spin.locked)
    ensures SharedOk(Next(sh, th, a).0)
  {
    NextEffect(sh, th, a);
    if !sh.spin.open { NextClosed(sh, th, a); }
  }

  /** No step disturbs what another thread relies on. */
  lemma NextKeepsOther(sh: Shared, th: Thread, a: Action, other: Thread)
    requires Allowed(sh, th, a) && ThreadOk(sh, th) && ThreadOk(sh, other)
    requires Holds(other) ==> sh.spin.locked && !Holds(th)
    ensures ThreadOk(Next(sh, th, a).0, other)
  {
    NextEffect(sh, th, a);
    if !sh.spin.open { NextClosed(sh, th, a); }
  }

  lemma StepExclusive(s: State, t: ThreadId, a: Action)
    requires Exclusive(s) && Enabled(s, t, a)
    ensures Exclusive(Apply(s, t, a))
  {
    NextEffect(s.sh, s.threads[t], a);
    var s' := Apply(s, t, a);
    if Holds(s'.threads[t]) {
    } else if s.sh.spin.locked {
      var h :| 0 <= h < |s.threads| && Holds(s.threads[h]);
      assert h != t ==> Holds(s'.threads[h]);
    }
  }

  /** A notifier that stops being committed has emptied the list or found nobody in it. */
  lemma NextDrains(sh: Shared, th: Thread, a: Action)
    requires Allowed(sh, th, a) && ThreadOk(sh, th) && SharedOk(sh)
    requires Committed(th) && !Committed(Next(sh, th, a).1)
    ensures |Next(sh, th, a).0.observers| == 0
    ensures th.NotifyLocked? || !sh.spin.locked
  {
  }

  /** The informal argument in `notify`: a notifier that leaves without draining left nobody behind. */
  lemma StepWake(s: State, t: ThreadId, a: Action)
    requires Inv(s) && Enabled(s, t, a)
    ensures WakeOk(Apply(s, t, a))
  {
    var s' := Apply(s, t, a);
    NextEffect(s.sh, s.threads[t], a);
    if s'.sh.value != s.sh.value {
      assert Committed(s'.threads[t]);
    } else if SomeCommitted(s) {
      var u :| 0 <= u < |s.threads| && Committed(s.threads[u]);
      assert u != t ==> Committed(s'.threads[u]);
      if u == t && !Committed(s'.threads[t]) {
        NextDrains(s.sh, s.threads[t], a);
        forall v | 0 <= v < |s'.threads| ensures !s'.threads[v].WaitUnchanged? {
          assert v != t ==> s'.threads[v] == s.threads[v];
        }
      }
    } else {
      NextWaits(s.sh, s.threads[t], a);
    }
  }

  /** A handler enters the list, or is about to, only while the value is the one it has seen. */
  lemma NextWaits(sh: Shared, th: Thread, a: Action)
    requires Allowed(sh, th, a)
    ensures var (sh', th') := Next(sh, th, a);
            && (th'.WaitUnchanged? ==> th'.ob.lastSeen == sh'.value)
            && (th.WaitUnchanged? ==> sh'.observers == sh.observers + [th.ob])
            && (sh'.observers == sh.observers || sh'.observers == [] || th.WaitUnchanged?)
  {
  }

  lemma StepInv(s: State, t: ThreadId, a: Action)
    requires Inv(s) && Enabled(s, t, a)
    ensures Inv(Apply(s, t, a))
  {
    var s' := Apply(s, t, a);
    var th := s.threads[t];
    StepExclusive(s, t, a);
    StepWake(s, t, a);
    NextSharedOk(s.sh, th, a);
    forall u | 0 <= u < |s'.threads|
      ensures ThreadOk(s'.sh, s'.threads[u])
    {
      if u == t { NextOk(s.sh, th, a); } else { NextKeepsOther(s.sh, th, a, s.threads[u]); }
    }
  }

  // ---------------------------------------------------------------- one place per handler

  /** A handler is with a thread, in the observer list, or delivered. */
  datatype Place = InThread(t: ThreadId, i: nat) | Listed(i: nat) | Delivered(k: nat)

  /** `th` still has to do something with handler `h`, its `i`-th. */
  predicate Carries(th: Thread, i: nat, h: HandlerId) {
    match th
    case NotifyUnlock(_, _, local) => i < |local| && local[i].id == h
    case CloseUnlock(_, _, local) => i < |local| && local[i].id == h
    case CloseReadFinal(local) => i < |local| && local[i].id == h
    case Draining(_, local, next) => next <= i < |local| && local[i].id == h
    case _ => Registering(th) && i == 0 && th.ob.id == h
  }

  predicate Registering(th: Thread) {
    th.WaitFirstLoad? || th.WaitLock? || th.WaitLocked? || th.WaitUnchanged? || th.WaitUnlockChanged?
    || th.WaitUnlockClosed? || th.WaitReadFinal? || th.WaitInvoke?
  }

  predicate At(s: State, h: HandlerId, p: Place) {
    match p
    case InThread(t, i) => t < |s.threads| && Carries(s.threads[t], i, h)
    case Listed(i) => i < |s.sh.observers| && s.sh.observers[i].id == h
    case Delivered(k) => k < |s.sh.delivered| && s.sh.delivered[k].observer.id == h
  }

  /** Exactly the handlers ever started have a place, and none has two. */
  ghost predicate OnePlace(s: State) {
    && (forall h :: h in s.sh.started ==> exists p :: At(s, h, p))
    && (forall h, p :: At(s, h, p) ==> h in s.sh.started)
    && (forall h, p, q :: At(s, h, p) && At(s, h, q) ==> p == q)
  }

  /** Where a step of thread `t` takes what was at `p`. */
  function Moved(sh: Shared, th: Thread, t: ThreadId, p: Place): Place {
    if th.WaitUnchanged? && p == InThread(t, 0) then Listed(|sh.observers|)
    else if (th.NotifyLocked? || th.CloseLocked?) && p.Listed? then InThread(t, p.i)
    else if th.WaitInvoke? && p == InThread(t, 0) then Delivered(|sh.delivered|)
    else if th.Draining? && p == InThread(t, th.next) then Delivered(|sh.delivered|)
    else p
  }

  /** Where what is at `p` after the step was before it. */
  function MovedFrom(sh: Shared, th: Thread, t: ThreadId, p: Place): Place {
    if th.WaitUnchanged? && p == Listed(|sh.observers|) then InThread(t, 0)
    else if (th.NotifyLocked? || th.CloseLocked?) && p.InThread? && p.t == t then Listed(p.i)
    else if th.WaitInvoke? && p == Delivered(|sh.delivered|) then InThread(t, 0)
    else if th.Draining? && p == Delivered(|sh.delivered|) then InThread(t, th.next)
    else p
  }

  predicate TakesList(th: Thread) { th.NotifyLocked? || th.CloseLocked? }

  /** The handler that the next access of the thread adds to the list, or invokes. */
  predicate Adds(th: Thread, i: nat) { th.WaitUnchanged? && i == 0 }

  predicate Invokes(th: Thread, i: nat) { (th.WaitInvoke? && i == 0) || (th.Draining? && i == th.next < |th.local|) }

  /** What a step does to the lists of handlers. */
  lemma NextLists(sh: Shared, th: Thread, a: Action)
    requires Allowed(sh, th, a) && !a.StartWait?
    ensures var sh' := Next(sh, th, a).0;
            && sh'.started == sh.started
            && sh'.observers == (if th.WaitUnchanged? then sh.observers + [th.ob] else if TakesList(th) then [] else sh.observers)
            && sh'.delivered == (if th.WaitInvoke? then sh.delivered + [Delivery(th.ob, th.outcome)]
                                 else if th.Draining? && th.next < |th.local| then sh.delivered + [Delivery(th.local[th.next], th.outcome)]
                                 else sh.delivered)
  {
  }

  /** And to what the thread has in hand. */
  lemma NextCarries(sh: Shared, th: Thread, a: Action, i: nat, h: HandlerId)
    requires Allowed(sh, th, a) && !a.StartWait?
    ensures Carries(Next(sh, th, a).1, i, h) <==>
            if TakesList(th) then i < |sh.observers| && sh.observers[i].id == h
            else Carries(th, i, h) && !Adds(th, i) && !Invokes(th, i)
  {
    if a.Advance? { AdvanceCarries(sh, th, i, h); }
  }

  lemma AdvanceCarries(sh: Shared, th: Thread, i: nat, h: HandlerId)
    requires !th.Idle? && !th.Modify?
    ensures Carries(NextAdvance(sh, th).1, i, h) <==>
            if TakesList(th) then i < |sh.observers| && sh.observers[i].id == h
            else Carries(th, i, h) && !Adds(th, i) && !Invokes(th, i)
  {
  }

  lemma MoveForward(s: State, t: ThreadId, a: Action, h: HandlerId, p: Place)
    requires Enabled(s, t, a) && !a.StartWait? && At(s, h, p)
    ensures At(Apply(s, t, a), h, Moved(s.sh, s.threads[t], t, p))
  {
    NextLists(s.sh, s.threads[t], a);
    match p
    case InThread(u, i) => if u == t { NextCarries(s.sh, s.threads[t], a, i, h); }
    case Listed(i) => NextCarries(s.sh, s.threads[t], a, i, h);
    case Delivered(_) =>
  }

  lemma MoveBackward(s: State, t: ThreadId, a: Action, h: HandlerId, p: Place)
    requires Enabled(s, t, a) && !a.StartWait? && At(Apply(s, t, a), h, p)
    ensures var q := MovedFrom(s.sh, s.threads[t], t, p);
            At(s, h, q) && Moved(s.sh, s.threads[t], t, q) == p
  {
    NextLists(s.sh, s.threads[t], a);
    match p
    case InThread(u, i) => if u == t { NextCarries(s.sh, s.threads[t], a, i, h); }
    case Listed(_) =>
    case Delivered(_) =>
  }

  lemma StepOnePlace(s: State, t: ThreadId, a: Action)
    requires OnePlace(s) && Enabled(s, t, a)
    ensures OnePlace(Apply(s, t, a))
  {
    var s' := Apply(s, t, a);
    if a.StartWait? {
      StartOnePlace(s, t, a);
    } else {
      assert s'.sh.started == s.sh.started;
      forall h | h in s'.sh.started
        ensures exists p :: At(s', h, p)
      {
        var p :| At(s, h, p);
        MoveForward(s, t, a, h, p);
      }
      forall h, p | At(s', h, p)
        ensures h in s'.sh.started
      {
        MoveBackward(s, t, a, h, p);
      }
      forall h, p, q | At(s', h, p) && At(s', h, q)
        ensures p == q
      {
        MoveBackward(s, t, a, h, p);
        MoveBackward(s, t, a, h, q);
      }
    }
  }

  lemma StartOnePlace(s: State, t: ThreadId, a: Action)
    requires OnePlace(s) && Enabled(s, t, a) && a.StartWait?
    ensures OnePlace(Apply(s, t, a))
  {
    var s' := Apply(s, t, a);
    forall h, p | At(s', h, p)
      ensures if h == a.ob.id then p == InThread(t, 0) else At(s, h, p)
    {
      assert p.InThread? && p.t != t ==> s'.threads[p.t] == s.threads[p.t];
      assert h == a.ob.id && p != InThread(t, 0) ==> At(s, h, p);
    }
    forall h | h in s'.sh.started
      ensures exists p :: At(s', h, p)
    {
      if h == a.ob.id {
        assert At(s', h, InThread(t, 0));
      } else {
        var p :| At(s, h, p);
        assert At(s', h, p);
      }
    }
  }

  // ---------------------------------------------------------------- results over every run

  lemma {:induction false} RunInv(run: seq<State>, i: nat)
    requires IsRun(run) && i < |run|
    ensures Inv(run[i]) && OnePlace(run[i])
  {
    if i > 0 {
      var k := i - 1;
      RunInv(run, k);
      StepKeeps(run[k], run[k + 1]);
    }
  }

  lemma StepKeeps(s: State, s': State)
    requires Inv(s) && OnePlace(s) && Step(s, s')
    ensures Inv(s') && OnePlace(s')
  {
    var t: ThreadId, a: Action :| Enabled(s, t, a) && s' == Apply(s, t, a);
    StepInv(s, t, a);
    StepOnePlace(s, t, a);
  }

  /**
    No lost wakeup: whenever a registered handler's value is out of date, some thread is past its
    change, has not yet taken the list, and will not take the shortcut that skips the list.
   */
  lemma NoLostWakeup(run: seq<State>, i: nat, k: nat)
    requires IsRun(run) && i < |run|
    requires k < |run[i].sh.observers| && run[i].sh.observers[k].lastSeen != run[i].sh.value
    ensures exists u :: && 0 <= u < |run[i].threads| && Committed(run[i].threads[u])
                        && (run[i].threads[u].NotifyLoad?
                            ==> Apply(run[i], u, Advance).threads[u] == NotifyLock(run[i].threads[u].newValue))
  {
    RunInv(run, i);
    var s := run[i];
    var u :| 0 <= u < |s.threads| && Committed(s.threads[u]);
    assert Enabled(s, u, Advance);
  }

  /** Every started handler has exactly one place, so it is delivered at most once. */
  lemma DeliveredAtMostOnce(run: seq<State>, i: nat, k: nat, l: nat)
    requires IsRun(run) && i < |run|
    requires k < l < |run[i].sh.delivered|
    ensures run[i].sh.delivered[k].observer.id != run[i].sh.delivered[l].observer.id
  {
    RunInv(run, i);
    var h := run[i].sh.delivered[k].observer.id;
    if h == run[i].sh.delivered[l].observer.id {
      assert At(run[i], h, Delivered(k)) && At(run[i], h, Delivered(l));
    }
  }

  /** When every thread has finished, each handler was delivered, or waits with nothing to report. */
  lemma Quiescent(run: seq<State>, i: nat, h: HandlerId)
    requires IsRun(run) && i < |run| && h in run[i].sh.started
    requires forall t :: 0 <= t < |run[i].threads| ==> run[i].threads[t] == Idle
    ensures || (exists k :: 0 <= k < |run[i].sh.delivered| && run[i].sh.delivered[k].observer.id == h)
            || (run[i].sh.spin.open
                && exists k :: && 0 <= k < |run[i].sh.observers| && run[i].sh.observers[k].id == h
                               && run[i].sh.observers[k].lastSeen == run[i].sh.value)
  {
    RunInv(run, i);
    var p :| At(run[i], h, p);
    assert !SomeCommitted(run[i]);
  }

  /** The first close is final: nothing is ever listed again and the status never changes. */
  lemma {:induction false} CloseIsFinal(run: seq<State>, i: nat, j: nat)
    requires IsRun(run) && i <= j < |run| && !run[i].sh.spin.open
    ensures !run[j].sh.spin.open && run[j].sh.observers == []
    ensures FinalStatus(run[j].sh.spin) == FinalStatus(run[i].sh.spin)
  {
    if i == j {
      ClosedIsEmpty(run, i);
    } else {
      var k := j - 1;
      CloseIsFinal(run, i, k);
      StaysClosed(run, k);
      ClosedIsEmpty(run, j);
    }
  }

  lemma ClosedIsEmpty(run: seq<State>, i: nat)
    requires IsRun(run) && i < |run| && !run[i].sh.spin.open
    ensures run[i].sh.observers == []
  {
    RunInv(run, i);
  }

  lemma StaysClosed(run: seq<State>, i: nat)
    requires IsRun(run) && i + 1 < |run| && !run[i].sh.spin.open
    ensures !run[i + 1].sh.spin.open && FinalStatus(run[i + 1].sh.spin) == FinalStatus(run[i].sh.spin)
  {
    RunInv(run, i);
    StepClosed(run[i], run[i + 1]);
  }

  lemma StepClosed(s: State, s': State)
    requires Inv(s) && Step(s, s') && !s.sh.spin.open
    ensures !s'.sh.spin.open && FinalStatus(s'.sh.spin) == FinalStatus(s.sh.spin)
  {
    var t: ThreadId, a: Action :| Enabled(s, t, a) && s' == Apply(s, t, a);
    NextClosed(s.sh, s.threads[t], a);
  }

  /** Every status a handler ever received is the status of the first close. */
  lemma FinalStatusIsUnique(run: seq<State>, i: nat, j: nat, k: nat)
    requires IsRun(run) && i <= j < |run| && !run[i].sh.spin.open
    requires k < |run[j].sh.delivered| && run[j].sh.delivered[k].outcome.Final?
    ensures run[j].sh.delivered[k].outcome.status == FinalStatus(run[i].sh.spin)
  {
    RunInv(run, j);
    CloseIsFinal(run, i, j);
  }

  // ---------------------------------------------------------------- updates are atomic

  datatype Event = Event(t: ThreadId, a: Action)

  ghost predicate Happens(s: State, e: Event, s': State) { Enabled(s, e.t, e.a) && s' == Apply(s, e.t, e.a) }

  /** A run, with who did what. */
  ghost predicate IsHistory(run: seq<State>, events: seq<Event>) {
    && |run| == |events| + 1 && Init(run[0])
    && forall i :: 0 <= i < |events| ==> Happens(run[i], events[i], run[i + 1])
  }

  function Always(op: Value -> Value): Transform { x => Some(op(x)) }

  /** The update that comes to its end with the event: of a call that then no longer tries, and did not decline. */
  function UpdateOf(s: State, e: Event): Option<Transform>
    requires Enabled(s, e.t, e.a)
  {
    var th := s.threads[e.t];
    if e.a.StartFetch? then Some(Always(e.a.op))
    else if th.Modify? && th.f(th.oldValue).Some? && !Apply(s, e.t, e.a).threads[e.t].Modify? then Some(th.f)
    else None
  }

  /** An update takes the value held just before it to what its transform makes of that same value; nothing else changes the value. */
  lemma UpdateIsAtomic(s: State, e: Event)
    requires Enabled(s, e.t, e.a)
    ensures var before, after := s.sh.value, Apply(s, e.t, e.a).sh.value;
            match UpdateOf(s, e)
            case Some(f) => f(before) == Some(after)
            case None => after == before
  {
  }

  /** What a call that stores returns, the value its transform was last applied to, is the value held just before. */
  lemma ReturnsPrior(s: State, e: Event)
    requires Enabled(s, e.t, e.a) && e.a.TryModify? && UpdateOf(s, e).Some?
    ensures s.threads[e.t].oldValue == s.sh.value
  {
  }

  /** The event ends a sticky call in one of whose earlier rounds the transform would have changed the value. */
  predicate ChangedBefore(s: State, e: Event)
    requires Enabled(s, e.t, e.a)
  {
    var th := s.threads[e.t];
    th.Modify? && th.sticky && th.changed && UpdateOf(s, e).Some?
  }

  /** A thread comes to notify exactly when its update changed the value, or would have in an earlier round. */
  lemma ChangeIsNotified(s: State, e: Event)
    requires Enabled(s, e.t, e.a) && !Committed(s.threads[e.t])
    ensures Committed(Apply(s, e.t, e.a).threads[e.t]) <==> Apply(s, e.t, e.a).sh.value != s.sh.value || ChangedBefore(s, e)
  {
  }

  /** Such a round is one of this call that did not store: another value was held by then, or the store failed spuriously. */
  lemma {:induction false} ChangedInAnEarlierRound(run: seq<State>, events: seq<Event>, i: nat, t: ThreadId)
    requires IsHistory(run, events) && i < |run| && t < |run[i].threads| && run[i].threads[t].Modify? && run[i].threads[t].changed
    ensures exists k :: 0 <= k < i && WantedChange(run[k], events[k], t, run[i].threads[t].f)
  {
    if i > 0 {
      var k := i - 1;
      assert Happens(run[k], events[k], run[k + 1]);
      if events[k].t != t || (run[k].threads[t].Modify? && run[k].threads[t].changed) {
        ChangedInAnEarlierRound(run, events, k, t);
      } else {
        assert WantedChange(run[k], events[k], t, run[i].threads[t].f);
      }
    }
  }

  ghost predicate WantedChange(s: State, e: Event, t: ThreadId, f: Transform) {
    && e.t == t && e.a.TryModify? && t < |s.threads| && s.threads[t].Modify? && s.threads[t].f == f
    && f(s.threads[t].oldValue).Some? && f(s.threads[t].oldValue).value != s.threads[t].oldValue
  }

  /** The updates up to a point of the run, in the order in which they came to their end. */
  function Updates(run: seq<State>, events: seq<Event>, i: nat): seq<Transform>
    requires i <= |events| && |events| < |run| && forall k :: 0 <= k < i ==> Enabled(run[k], events[k].t, events[k].a)
  {
    if i == 0 then []
    else
      var rest := Updates(run, events, i - 1);
      match UpdateOf(run[i - 1], events[i - 1])
      case Some(f) => rest + [f]
      case None => rest
  }

  /** One transform after the other, none of them declining. */
  function InTurn(v: Value, fs: seq<Transform>): Option<Value> {
    if fs == [] then Some(v)
    else match InTurn(v, fs[..|fs| - 1])
      case Some(w) => fs[|fs| - 1](w)
      case None => None
  }

  /** In every run the value is the result of the updates, one after the other: none is lost or applied in between. */
  lemma {:induction false} UpdatesInTurn(run: seq<State>, events: seq<Event>, i: nat)
    requires IsHistory(run, events) && i <= |events|
    ensures forall k :: 0 <= k < i ==> Enabled(run[k], events[k].t, events[k].a)
    ensures InTurn(run[0].sh.value, Updates(run, events, i)) == Some(run[i].sh.value)
  {
    forall k | 0 <= k < i ensures Enabled(run[k], events[k].t, events[k].a) { assert Happens(run[k], events[k], run[k + 1]); }
    if i > 0 {
      var k := i - 1;
      UpdatesInTurn(run, events, k);
      assert Happens(run[k], events[k], run[k + 1]);
      UpdateIsAtomic(run[k], events[k]);
      var fs := Updates(run, events, k);
      match UpdateOf(run[k], events[k])
      case Some(f) => assert (fs + [f])[..|fs|] == fs;
      case None =>
    }
  }

  /** Left alone, an update comes to its end within two rounds. */
  lemma UpdateEnds(s: State, t: ThreadId)
    requires t < |s.threads| && s.threads[t].Modify?
    ensures var once := Apply(s, t, TryModify(false));
            once.threads[t].Modify? ==> !Apply(once, t, TryModify(false)).threads[t].Modify?
  {
  }

  // ---------------------------------------------------------------- whose status it is

  /** The thread is closing the watch with the code. */
  predicate Closing(th: Thread, code: StatusCode) { (th.CloseLock? || th.CloseLocked? || th.CloseUnlock?) && th.code == code }

  lemma {:induction false} HistoryIsRun(run: seq<State>, events: seq<Event>)
    requires IsHistory(run, events)
    ensures IsRun(run)
  {
    forall i | 0 <= i < |run| - 1 ensures Step(run[i], run[i + 1]) { assert Happens(run[i], events[i], run[i + 1]); }
  }

  /** A code that a thread is closing with was given to its call. */
  lemma {:induction false} CodeWasGiven(run: seq<State>, events: seq<Event>, i: nat, t: ThreadId, code: StatusCode)
    requires IsHistory(run, events) && i < |run| && t < |run[i].threads| && Closing(run[i].threads[t], code)
    ensures exists k :: 0 <= k < i && events[k] == Event(t, StartClose(code))
  {
    if i > 0 {
      var k := i - 1;
      assert Happens(run[k], events[k], run[k + 1]);
      if Closing(run[k].threads[t], code) {
        CodeWasGiven(run, events, k, t, code);
      } else {
        assert events[k] == Event(t, StartClose(code));
      }
    }
  }

  /** Closing happens in the step in which a closing thread releases the lock, and leaves its code as the status. */
  lemma ClosesWithCode(sh: Shared, th: Thread, a: Action)
    requires Allowed(sh, th, a) && ThreadOk(sh, th) && sh.spin.open && !Next(sh, th, a).0.spin.open
    ensures th.CloseUnlock? && FinalStatus(Next(sh, th, a).0.spin) == th.code
  {
    NextEffect(sh, th, a);
  }

  /** The event closes the watch, by a call that was given the code. */
  ghost predicate ClosedBy(run: seq<State>, events: seq<Event>, j: nat, code: StatusCode)
    requires |run| == |events| + 1
  {
    && j < |events| && run[j].sh.spin.open && !run[j + 1].sh.spin.open
    && exists k :: 0 <= k < j && events[k] == Event(events[j].t, StartClose(code))
  }

  /** In every run the status of a closed watch, which every handler gets, is the code given to the call that closed it. */
  lemma {:induction false} StatusIsGiven(run: seq<State>, events: seq<Event>, i: nat)
    requires IsHistory(run, events) && i < |run| && !run[i].sh.spin.open
    ensures exists j :: 0 <= j < i && ClosedBy(run, events, j, FinalStatus(run[i].sh.spin))
    ensures forall k :: 0 <= k < |run[i].sh.delivered| && run[i].sh.delivered[k].outcome.Final?
                        ==> run[i].sh.delivered[k].outcome.status == FinalStatus(run[i].sh.spin)
  {
    HistoryIsRun(run, events);
    RunInv(run, i);
    if i > 0 {
      var k := i - 1;
      assert Happens(run[k], events[k], run[k + 1]);
      if run[k].sh.spin.open {
        StatusIsFirst(run, events, k);
      } else {
        StatusIsGiven(run, events, k);
        StaysClosed(run, k);
        var j :| 0 <= j < k && ClosedBy(run, events, j, FinalStatus(run[k].sh.spin));
        assert ClosedBy(run, events, j, FinalStatus(run[i].sh.spin));
      }
    }
  }

  lemma StatusIsFirst(run: seq<State>, events: seq<Event>, k: nat)
    requires IsHistory(run, events) && k + 1 < |run| && run[k].sh.spin.open && !run[k + 1].sh.spin.open
    ensures ClosedBy(run, events, k, FinalStatus(run[k + 1].sh.spin))
  {
    HistoryIsRun(run, events);
    RunInv(run, k);
    assert Happens(run[k], events[k], run[k + 1]);
    var t := events[k].t;
    assert ThreadOk(run[k].sh, run[k].threads[t]);
    ClosesWithCode(run[k].sh, run[k].threads[t], events[k].a);
    CodeWasGiven(run, events, k, t, run[k].threads[t].code);
  }

  /** A close that was started closes the watch: until then its thread is on its way. */
  lemma {:induction false} CloseTakesEffect(run: seq<State>, events: seq<Event>, k: nat, i: nat)
    requires IsHistory(run, events) && k < i < |run| && events[k].a.StartClose?
    ensures !run[i].sh.spin.open || (events[k].t < |run[i].threads| && Closing(run[i].threads[events[k].t], events[k].a.code))
    decreases i
  {
    var j := i - 1;
    assert Happens(run[j], events[j], run[j + 1]);
    if j > k {
      CloseTakesEffect(run, events, k, j);
      HistoryIsRun(run, events);
      RunInv(run, j);
      assert ThreadOk(run[j].sh, run[j].threads[events[j].t]);
      if run[j].sh.spin.open { NextEffect(run[j].sh, run[j].threads[events[j].t], events[j].a); } else { StaysClosed(run, j); }
    }
  }

  /** A handler that was handed to `async_wait` counts as started from then on. */
  lemma {:induction false} WaitIsStarted(run: seq<State>, events: seq<Event>, k: nat, i: nat)
    requires IsHistory(run, events) && k < i < |run| && events[k].a.StartWait?
    ensures events[k].a.ob.id in run[i].sh.started
    decreases i
  {
    assert Happens(run[i - 1], events[i - 1], run[i - 1 + 1]);
    if k < i - 1 { WaitIsStarted(run, events, k, i - 1); }
  }

  // ---------------------------------------------------------------- additions

  /** The amount a transform adds, whatever the value. */
  function Amount(f: Transform): int { match f(0) case Some(v) => v case None => 0 }

  ghost predicate IsAddition(f: Transform) { forall x :: f(x) == Some(x + Amount(f)) }

  /** Every update that the event starts is an addition. */
  ghost predicate StartsAddition(a: Action) {
    match a
    case StartFetch(op) => IsAddition(Always(op))
    case StartModify(_, f) => IsAddition(f)
    case ResumeModify(_, f) => IsAddition(f)
    case _ => true
  }

  function Started(a: Action): int {
    match a
    case StartFetch(op) => Amount(Always(op))
    case StartModify(_, f) => Amount(f)
    case ResumeModify(_, f) => Amount(f)
    case _ => 0
  }

  function AllStarted(events: seq<Event>): int {
    if events == [] then 0 else AllStarted(events[..|events| - 1]) + Started(events[|events| - 1].a)
  }

  function ToAdd(th: Thread): int { if th.Modify? then Amount(th.f) else 0 }

  function AllToAdd(threads: seq<Thread>): int {
    if threads == [] then 0 else ToAdd(threads[0]) + AllToAdd(threads[1..])
  }

  lemma {:induction false} ToAddUpdate(threads: seq<Thread>, t: nat, th: Thread)
    requires t < |threads|
    ensures AllToAdd(threads[t := th]) == AllToAdd(threads) - ToAdd(threads[t]) + ToAdd(th)
  {
    if t == 0 {
      assert threads[0 := th][1..] == threads[1..];
    } else {
      assert threads[t := th][1..] == threads[1..][t - 1 := th];
      ToAddUpdate(threads[1..], t - 1, th);
    }
  }

  lemma {:induction false} NothingToAdd(threads: seq<Thread>)
    requires forall t :: 0 <= t < |threads| ==> threads[t] == Idle
    ensures AllToAdd(threads) == 0
  {
    if threads != [] { NothingToAdd(threads[1..]); }
  }

  ghost predicate OnlyAdditions(threads: seq<Thread>) {
    forall t :: 0 <= t < |threads| && threads[t].Modify? ==> IsAddition(threads[t].f)
  }

  lemma StepAdds(sh: Shared, th: Thread, a: Action)
    requires Allowed(sh, th, a) && StartsAddition(a) && (th.Modify? ==> IsAddition(th.f))
    ensures var (sh', th') := Next(sh, th, a);
            (th'.Modify? ==> IsAddition(th'.f)) && sh'.value + ToAdd(th') == sh.value + ToAdd(th) + Started(a)
  {
    match a
    case StartFetch(op) =>
      var f := Always(op);
      assert f(sh.value) == Some(sh.value + Amount(f));
    case TryModify(_) => assert th.f(th.oldValue) == Some(th.oldValue + Amount(th.f));
    case _ =>
  }

  /** As long as all updates are additions, the value and what is still to be added account for every amount ever started. */
  lemma {:induction false} AdditionsAddUp(run: seq<State>, events: seq<Event>, i: nat)
    requires IsHistory(run, events) && i <= |events| && forall k :: 0 <= k < |events| ==> StartsAddition(events[k].a)
    ensures OnlyAdditions(run[i].threads)
    ensures run[i].sh.value + AllToAdd(run[i].threads) == run[0].sh.value + AllStarted(events[..i])
  {
    if i == 0 {
      NothingToAdd(run[0].threads);
    } else {
      var k := i - 1;
      AdditionsAddUp(run, events, k);
      assert Happens(run[k], events[k], run[k + 1]);
      var s, e := run[k], events[k];
      StepAdds(s.sh, s.threads[e.t], e.a);
      ToAddUpdate(s.threads, e.t, Next(s.sh, s.threads[e.t], e.a).1);
      assert events[..i][..k] == events[..k];
    }
  }

  /** How many updates were started. */
  function StartedUpdates(events: seq<Event>): nat {
    if events == [] then 0
    else
      var a := events[|events| - 1].a;
      StartedUpdates(events[..|events| - 1]) + if a.StartFetch? || a.StartModify? || a.ResumeModify? then 1 else 0
  }

  ghost predicate StartsIncrement(a: Action) {
    match a
    case StartFetch(op) => forall x :: op(x) == x + 1
    case StartModify(_, f) => forall x :: f(x) == Some(x + 1)
    case ResumeModify(_, f) => forall x :: f(x) == Some(x + 1)
    case _ => true
  }

  lemma {:induction false} IncrementsCount(events: seq<Event>)
    requires forall k :: 0 <= k < |events| ==> StartsIncrement(events[k].a)
    ensures AllStarted(events) == StartedUpdates(events)
  {
    if events != [] { IncrementsCount(events[..|events| - 1]); }
  }

  /** Any number of threads incrementing at the same time: once all have finished, every increment counts. */
  lemma IncrementsAllCount(run: seq<State>, events: seq<Event>)
    requires IsHistory(run, events) && forall k :: 0 <= k < |events| ==> StartsIncrement(events[k].a)
    requires forall t :: 0 <= t < |run[|events|].threads| ==> run[|events|].threads[t] == Idle
    ensures run[|events|].sh.value == run[0].sh.value + StartedUpdates(events)
  {
    forall k | 0 <= k < |events| ensures StartsAddition(events[k].a) { assert StartsIncrement(events[k].a); }
    AdditionsAddUp(run, events, |events|);
    NothingToAdd(run[|events|].threads);
    assert events[..|events|] == events;
    IncrementsCount(events);
  }

  // ---------------------------------------------------------------- where reported values come from

  /** The thread is to report the value, or to apply a transform to it. */
  predicate Uses(th: Thread, v: Value) {
    match th
    case Modify(oldValue, _, _, _) => oldValue == v
    case WaitUnlockChanged(_, _, nowSeen) => nowSeen == v
    case WaitInvoke(_, outcome) => outcome == Changed(v)
    case NotifyLoad(x) => x == v
    case NotifyLock(x) => x == v
    case NotifyLocked(x, _) => x == v
    case NotifyUnlock(x, _, _) => x == v
    case Draining(outcome, _, _) => outcome == Changed(v)
    case _ => false
  }

  lemma NextUses(sh: Shared, th: Thread, a: Action, v: Value)
    requires Allowed(sh, th, a) && Uses(Next(sh, th, a).1, v)
    ensures Uses(th, v) || v == sh.value || v == Next(sh, th, a).0.value || WasReported(sh, v)
  {
  }

  lemma NextReports(sh: Shared, th: Thread, a: Action, v: Value)
    requires Allowed(sh, th, a) && WasReported(Next(sh, th, a).0, v)
    ensures WasReported(sh, v) || Uses(th, v)
  {
    if !a.StartWait? { NextLists(sh, th, a); }
    var delivered := Next(sh, th, a).0.delivered;
    var k :| 0 <= k < |delivered| && delivered[k].outcome == Changed(v);
    if k < |sh.delivered| { assert sh.delivered[k].outcome == Changed(v); }
  }

  /** The watch has had the value. */
  ghost predicate WasHeld(run: seq<State>, i: nat, v: Value)
    requires i < |run|
  {
    exists k :: 0 <= k <= i && run[k].sh.value == v
  }

  /** What is used or reported in `s` was held up to then. */
  ghost predicate UsesHeld(run: seq<State>, i: nat)
    requires i < |run|
  {
    && (forall t, v :: 0 <= t < |run[i].threads| && Uses(run[i].threads[t], v) ==> WasHeld(run, i, v))
    && (forall v :: WasReported(run[i].sh, v) ==> WasHeld(run, i, v))
  }

  lemma HeldLater(run: seq<State>, i: nat, v: Value)
    requires i + 1 < |run| && (WasHeld(run, i, v) || v == run[i].sh.value || v == run[i + 1].sh.value)
    ensures WasHeld(run, i + 1, v)
  {
    if v == run[i + 1].sh.value {
      assert i + 1 <= i + 1;
    } else if v != run[i].sh.value {
      var k :| 0 <= k <= i && run[k].sh.value == v;
      assert k <= i + 1;
    }
  }

  lemma StepUsesHeld(run: seq<State>, i: nat, t: ThreadId, a: Action)
    requires i + 1 < |run| && UsesHeld(run, i) && Enabled(run[i], t, a) && run[i + 1] == Apply(run[i], t, a)
    ensures UsesHeld(run, i + 1)
  {
    var s, s' := run[i], run[i + 1];
    forall u, v | 0 <= u < |s'.threads| && Uses(s'.threads[u], v) ensures WasHeld(run, i + 1, v) {
      if u == t { NextUses(s.sh, s.threads[t], a, v); } else { assert Uses(s.threads[u], v); }
      HeldLater(run, i, v);
    }
    forall v | WasReported(s'.sh, v) ensures WasHeld(run, i + 1, v) {
      NextReports(s.sh, s.threads[t], a, v);
      HeldLater(run, i, v);
    }
  }

  /** In every run, whatever is reported, or given to a transform, is a value that the watch has had. */
  lemma {:induction false} OnlyHeldValues(run: seq<State>, i: nat)
    requires IsRun(run) && i < |run|
    ensures UsesHeld(run, i)
  {
    if i > 0 {
      var k := i - 1;
      OnlyHeldValues(run, k);
      assert Step(run[k], run[k + 1]);
      var t: ThreadId, a: Action :| Enabled(run[k], t, a) && run[k + 1] == Apply(run[k], t, a);
      StepUsesHeld(run, k, t, a);
    }
  }

  // ---------------------------------------------------------------- await_true

  /** What a call of `await_true` has last been given, and at which point of the run. */
  datatype Reading = Reading(at: nat, outcome: Outcome)

  /** A call of `await_not_equal`: the handler that it registered was given `r'`. */
  ghost predicate Awaited(run: seq<State>, r: Reading, r': Reading) {
    && r.outcome.Changed? && r.at <= r'.at < |run|
    && exists k :: && 0 <= k < |run[r'.at].sh.delivered|
                   && run[r'.at].sh.delivered[k] == Delivery(run[r'.at].sh.delivered[k].observer, r'.outcome)
                   && run[r'.at].sh.delivered[k].observer.lastSeen == r.outcome.value
  }

  /** The loop of `await_true`: it goes on as long as it is given values that do not satisfy the predicate. */
  ghost predicate AwaitsTrue(run: seq<State>, pred: Value -> bool, readings: seq<Reading>) {
    && |readings| > 0 && readings[0].at < |run| && readings[0].outcome == Changed(run[readings[0].at].sh.value)
    && forall k :: 0 <= k < |readings| - 1 ==> Awaited(run, readings[k], readings[k + 1]) && !pred(readings[k].outcome.value)
  }

  /**
    What `await_true` is given, and so what it tests and returns: only values that the watch has had,
    or at last a status; and a status only if the watch is closed by then, with that status.
   */
  lemma AwaitTrueIsGiven(run: seq<State>, pred: Value -> bool, readings: seq<Reading>, k: nat)
    requires IsRun(run) && AwaitsTrue(run, pred, readings) && k < |readings|
    ensures var r := readings[k];
            && r.at < |run|
            && (r.outcome.Changed? ==> WasHeld(run, r.at, r.outcome.value))
            && (r.outcome.Final? ==> k == |readings| - 1 && !run[r.at].sh.spin.open && r.outcome.status == FinalStatus(run[r.at].sh.spin))
  {
    if k < |readings| - 1 { assert Awaited(run, readings[k], readings[k + 1]); }
    if k == 0 {
      assert run[readings[0].at].sh.value == readings[0].outcome.value;
    } else {
      assert Awaited(run, readings[k - 1], readings[k - 1 + 1]);
      GivenIsHeld(run, readings[k - 1], readings[k]);
    }
  }

  lemma GivenIsHeld(run: seq<State>, r: Reading, r': Reading)
    requires IsRun(run) && Awaited(run, r, r')
    ensures r'.outcome.Changed? ==> WasHeld(run, r'.at, r'.outcome.value)
    ensures r'.outcome.Final? ==> !run[r'.at].sh.spin.open && r'.outcome.status == FinalStatus(run[r'.at].sh.spin)
  {
    RunInv(run, r'.at);
    OnlyHeldValues(run, r'.at);
    var sh := run[r'.at].sh;
    var k :| 0 <= k < |sh.delivered| && sh.delivered[k].outcome == r'.outcome;
    assert OutcomeOk(sh, sh.delivered[k].outcome);
    if r'.outcome.Changed? { assert WasReported(sh, r'.outcome.value); }
  }

  // ---------------------------------------------------------------- progress

  /** Let the scheduled threads take one access each; a thread that cannot is skipped. */
  function Exec(s: State, schedule: seq<ThreadId>): State
    decreases |schedule|
  {
    if schedule == [] then s
    else if Enabled(s, schedule[0], Advance) then Exec(Apply(s, schedule[0], Advance), schedule[1..])
    else Exec(s, schedule[1..])
  }

  ghost predicate WasDelivered(s: State, h: HandlerId) {
    exists k :: 0 <= k < |s.sh.delivered| && s.sh.delivered[k].observer.id == h
  }

  ghost predicate CanDeliver(s: State, h: HandlerId) {
    exists schedule :: WasDelivered(Exec(s, schedule), h)
  }

  lemma AfterStep(s: State, t: ThreadId, h: HandlerId)
    requires Enabled(s, t, Advance) && CanDeliver(Apply(s, t, Advance), h)
    ensures CanDeliver(s, h)
  {
    var rest :| WasDelivered(Exec(Apply(s, t, Advance), rest), h);
    assert ([t] + rest)[1..] == rest;
    assert WasDelivered(Exec(s, [t] + rest), h);
  }

  /** Steps left before a thread that took the list starts invoking handlers. */
  function TakenRank(th: Thread): nat {
    match th
    case NotifyUnlock(_, _, _) => 1
    case CloseUnlock(_, _, _) => 2
    case CloseReadFinal(_) => 1
    case _ => 0
  }

  lemma {:induction false} TakenIsDelivered(s: State, t: ThreadId, i: nat, h: HandlerId)
    requires At(s, h, InThread(t, i)) && !Registering(s.threads[t])
    ensures CanDeliver(s, h)
    decreases TakenRank(s.threads[t]), if s.threads[t].Draining? then i - s.threads[t].next else 0
  {
    var s' := Apply(s, t, Advance);
    if s.threads[t].Draining? && s.threads[t].next == i {
      assert s'.sh.delivered[|s.sh.delivered|].observer.id == h;
      assert WasDelivered(Exec(s', []), h);
    } else {
      TakenIsDelivered(s', t, i, h);
    }
    AfterStep(s, t, h);
  }

  /** Steps left before the list is taken, given the thread that moves next. */
  function ListedRank(th: Thread): nat {
    match th
    case NotifyLocked(_, _) => 1
    case CloseLocked(_, _) => 1
    case NotifyLock(_) => 2
    case NotifyLoad(_) => 3
    case WaitLocked(_, _) => 6
    case WaitUnchanged(_, _) => 5
    case _ => 4
  }

  /** A mover that does not take the list keeps it in place and gets closer to its being taken. */
  lemma MoverAdvances(sh: Shared, th: Thread)
    requires ThreadOk(sh, th) && SharedOk(sh) && |sh.observers| > 0
    requires if sh.spin.locked then Holds(th) else Committed(th)
    ensures Allowed(sh, th, Advance)
    ensures var (sh', th') := Next(sh, th, Advance);
            if th.NotifyLocked? then th' == NotifyUnlock(th.newValue, th.prior, sh.observers)
            else if th.CloseLocked? then th'.CloseUnlock? && th'.local == sh.observers
            else && sh'.value == sh.value && sh.observers <= sh'.observers
                 && (sh'.spin.locked ==> Holds(th'))
                 && (sh'.spin.locked || Committed(th') ==> ListedRank(th') < ListedRank(th))
                 && (!sh'.spin.locked && !Committed(th') ==> ListedRank(th) > 3)
  {
  }

  /**
    An out-of-date handler in the list is delivered by letting threads already under way go on: the
    current holder leaves, and the committed notifier locks, takes the list and invokes it.
   */
  lemma {:induction false} OutOfDateIsDelivered(s: State, k: nat, mover: ThreadId)
    requires Inv(s) && k < |s.sh.observers| && s.sh.observers[k].lastSeen != s.sh.value
    requires mover < |s.threads|
    requires if s.sh.spin.locked then Holds(s.threads[mover]) else Committed(s.threads[mover])
    ensures CanDeliver(s, s.sh.observers[k].id)
    decreases ListedRank(s.threads[mover])
  {
    var h := s.sh.observers[k].id;
    MoverAdvances(s.sh, s.threads[mover]);
    var s' := Apply(s, mover, Advance);
    StepInv(s, mover, Advance);
    if s.threads[mover].NotifyLocked? || s.threads[mover].CloseLocked? {
      assert At(s', h, InThread(mover, k));
      TakenIsDelivered(s', mover, k, h);
    } else {
      assert s'.sh.observers[k] == s.sh.observers[k];
      var u := NextMover(s', k, mover);
      OutOfDateIsDelivered(s', k, u);
    }
    AfterStep(s, mover, h);
  }

  lemma NextMover(s: State, k: nat, mover: ThreadId) returns (u: ThreadId)
    requires Inv(s) && k < |s.sh.observers| && s.sh.observers[k].lastSeen != s.sh.value
    requires mover < |s.threads| && (s.sh.spin.locked ==> Holds(s.threads[mover]))
    ensures u < |s.threads|
    ensures if s.sh.spin.locked then Holds(s.threads[u]) else Committed(s.threads[u])
    ensures s.sh.spin.locked || Committed(s.threads[mover]) ==> u == mover
    ensures !s.sh.spin.locked ==> ListedRank(s.threads[u]) <= 3
  {
    if s.sh.spin.locked || Committed(s.threads[mover]) {
      u := mover;
    } else {
      u :| 0 <= u < |s.threads| && Committed(s.threads[u]);
    }
  }

  /** Progress, over every run: an out-of-date handler can always still be delivered. */
  lemma WakeupIsDeliverable(run: seq<State>, i: nat, k: nat)
    requires IsRun(run) && i < |run|
    requires k < |run[i].sh.observers| && run[i].sh.observers[k].lastSeen != run[i].sh.value
    ensures CanDeliver(run[i], run[i].sh.observers[k].id)
  {
    RunInv(run, i);
    if run[i].sh.spin.locked {
      var t :| 0 <= t < |run[i].threads| && Holds(run[i].threads[t]);
      OutOfDateIsDelivered(run[i], k, t);
    } else {
      var u :| 0 <= u < |run[i].threads| && Committed(run[i].threads[u]);
      OutOfDateIsDelivered(run[i], k, u);
    }
  }

  // ---------------------------------------------------------------- every operation comes to its end

  /** How a thread under way goes on. */
  function Onward(th: Thread): Action { if th.Modify? then TryModify(false) else Advance }

  /** The accesses a thread has before it, if no other moves. */
  function Rank(sh: Shared, th: Thread): nat {
    match th
    case Idle => 0
    case WaitFirstLoad(_) => 7
    case WaitLock(_) => 6
    case WaitLocked(_, _) => 5
    case WaitUnchanged(_, _) => 2
    case WaitUnlock(_) => 1
    case WaitUnlockChanged(_, _, _) => 2
    case WaitUnlockClosed(_, _) => 3
    case WaitReadFinal(_) => 2
    case WaitInvoke(_, _) => 1
    case Modify(oldValue, _, _, _) => |sh.observers| + (if oldValue == sh.value then 7 else 8)
    case NotifyLoad(_) => |sh.observers| + 6
    case NotifyLock(_) => |sh.observers| + 5
    case NotifyLocked(_, _) => |sh.observers| + 4
    case NotifyUnlock(_, _, local) => |local| + 2
    case CloseLock(_) => |sh.observers| + 6
    case CloseLocked(_, _) => |sh.observers| + 5
    case CloseUnlock(_, _, local) => |local| + 4
    case CloseReadFinal(local) => |local| + 3
    case Draining(_, local, next) => if next < |local| then |local| - next + 1 else 1
  }

  /** The lock is free, or the thread has it. */
  predicate Unhindered(sh: Shared, th: Thread) { sh.spin.locked ==> Holds(th) }

  lemma GoesNearer(sh: Shared, th: Thread)
    requires !th.Idle? && Unhindered(sh, th)
    ensures Allowed(sh, th, Onward(th))
    ensures var (sh', th') := Next(sh, th, Onward(th)); Rank(sh', th') < Rank(sh, th) && Unhindered(sh', th')
  {
  }

  function Busy(threads: seq<Thread>): nat {
    if threads == [] then 0 else (if threads[0].Idle? then 0 else 1) + Busy(threads[1..])
  }

  lemma {:induction false} BusyUpdate(threads: seq<Thread>, t: nat, th: Thread)
    requires t < |threads| && !threads[t].Idle?
    ensures Busy(threads[t := th]) == if th.Idle? then Busy(threads) - 1 else Busy(threads)
  {
    if t == 0 {
      assert threads[0 := th][1..] == threads[1..];
    } else {
      assert threads[t := th][1..] == threads[1..][t - 1 := th];
      BusyUpdate(threads[1..], t - 1, th);
    }
  }

  ghost predicate AtRest(s: State) { forall t :: 0 <= t < |s.threads| ==> s.threads[t].Idle? }

  ghost predicate OngoingStep(s: State, s': State) {
    exists t :: 0 <= t < |s.threads| && Enabled(s, t, Onward(s.threads[t])) && !s.threads[t].Idle? && s' == Apply(s, t, Onward(s.threads[t]))
  }

  /** A path of steps of operations under way. */
  ghost predicate GoesOn(path: seq<State>, s: State) {
    |path| > 0 && path[0] == s && forall i :: 0 <= i < |path| - 1 ==> OngoingStep(path[i], path[i + 1])
  }

  lemma PathCons(s: State, rest: seq<State>)
    requires |rest| > 0 && GoesOn(rest, rest[0]) && OngoingStep(s, rest[0])
    ensures GoesOn([s] + rest, s)
  {
    var path := [s] + rest;
    forall i | 0 <= i < |path| - 1 ensures OngoingStep(path[i], path[i + 1]) { assert i > 0 ==> path[i] == rest[i - 1] && path[i + 1] == rest[i]; }
  }

  /** One thread after the other goes on to its end, the holder of the lock first. */
  lemma {:induction false} EndsFrom(s: State, t: ThreadId) returns (path: seq<State>)
    requires t < |s.threads| && Unhindered(s.sh, s.threads[t])
    ensures GoesOn(path, s) && AtRest(path[|path| - 1])
    decreases Busy(s.threads), if s.threads[t].Idle? then 1 else 0, Rank(s.sh, s.threads[t])
  {
    var th := s.threads[t];
    if th.Idle? {
      if AtRest(s) {
        path := [s];
      } else {
        var u :| 0 <= u < |s.threads| && !s.threads[u].Idle?;
        path := EndsFrom(s, u);
      }
    } else {
      GoesNearer(s.sh, th);
      var s' := Apply(s, t, Onward(th));
      BusyUpdate(s.threads, t, s'.threads[t]);
      var rest := EndsFrom(s', t);
      PathCons(s, rest);
      path := [s] + rest;
    }
  }

  /** From every reachable state the operations under way can all come to their ends, without any other being started. */
  lemma OperationsEnd(run: seq<State>, i: nat) returns (path: seq<State>)
    requires IsRun(run) && i < |run|
    ensures GoesOn(path, run[i]) && AtRest(path[|path| - 1])
  {
    RunInv(run, i);
    var s := run[i];
    if s.sh.spin.locked {
      var t :| 0 <= t < |s.threads| && Holds(s.threads[t]);
      path := EndsFrom(s, t);
    } else if |s.threads| > 0 {
      path := EndsFrom(s, 0);
    } else {
      path := [s];
    }
  }

  // ---------------------------------------------------------------- a wait left alone

  /** The next access of a thread that nothing disturbs. */
  function Once(m: (Shared, Thread)): (Shared, Thread) { if m.1.Idle? || m.1.Modify? then m else NextAdvance(m.0, m.1) }

  function Alone(m: (Shared, Thread), n: nat): (Shared, Thread)
    decreases n
  {
    if n == 0 then m else Alone(Once(m), n - 1)
  }

  lemma AloneSix(m: (Shared, Thread))
    ensures Alone(m, 6) == Once(Once(Once(Once(Once(Once(m))))))
  {
    var m1 := Once(m);
    var m2 := Once(m1);
    var m3 := Once(m2);
    assert Alone(m, 6) == Alone(m1, 5) == Alone(m2, 4) == Alone(m3, 3) == Once(Once(Once(m3)));
  }

  /**
    A wait that is not disturbed is given the value if it is another than the one last seen, closed or not; otherwise
    the status if the watch is closed; otherwise it joins the list.
   */
  lemma WaitAlone(sh: Shared, ob: Observer)
    requires !sh.spin.locked
    ensures var (sh', th') := Alone((sh, WaitFirstLoad(ob)), 6);
            && th'.Idle?
            && (sh.value != ob.lastSeen ==> sh' == Deliver(sh, ob, Changed(sh.value)))
            && (sh.value == ob.lastSeen && !sh.spin.open ==> sh' == Deliver(sh, ob, Final(FinalStatus(sh.spin))))
            && (sh.value == ob.lastSeen && sh.spin.open ==> sh' == sh.(observers := sh.observers + [ob], spin := sh.spin.(waiting := true)))
  {
    AloneSix((sh, WaitFirstLoad(ob)));
    if sh.value == ob.lastSeen {
      var prior := sh.spin;
      assert Once(Once((sh, WaitFirstLoad(ob)))) == (Lock(sh), WaitLocked(ob, prior));
      if prior.open {
        assert Once(Once((Lock(sh), WaitLocked(ob, prior)))) == (Lock(sh).(observers := sh.observers + [ob]), WaitUnlock(prior.(waiting := true)));
      } else {
        assert Once(Once((Lock(sh), WaitLocked(ob, prior)))) == (sh.(spin := Unlocked(prior)), WaitReadFinal(ob));
      }
    }
  }

  // ---------------------------------------------------------------- which values can be reported

  ghost predicate Reported(s: State, ob: Observer, v: Value) {
    exists k :: 0 <= k < |s.sh.delivered| && s.sh.delivered[k] == Delivery(ob, Changed(v))
  }

  /** Without any further change of the value, letting threads that are under way go on can make the watch report `v` to the handler. */
  ghost predicate CanReport(s: State, ob: Observer, v: Value) {
    exists schedule :: Reported(Exec(s, schedule), ob, v)
  }

  /** The thread holds the lock and takes the list next. */
  predicate Takes(th: Thread) { th.NotifyLocked? || th.CloseLocked? }

  predicate NoOtherTakes(threads: seq<Thread>, u: ThreadId) {
    forall t :: 0 <= t < |threads| && t != u ==> !Takes(threads[t])
  }

  /** A notifier of `v` that can still come to the list before anyone else takes it. */
  predicate WillBring(s: State, u: ThreadId, v: Value) {
    && u < |s.threads| && Committed(s.threads[u]) && s.threads[u].newValue == v
    && NoOtherTakes(s.threads, u)
  }

  lemma AfterReportStep(s: State, t: ThreadId, ob: Observer, v: Value)
    requires Enabled(s, t, Advance) && CanReport(Apply(s, t, Advance), ob, v)
    ensures CanReport(s, ob, v)
  {
    var rest :| Reported(Exec(Apply(s, t, Advance), rest), ob, v);
    assert ([t] + rest)[1..] == rest;
    assert Reported(Exec(s, [t] + rest), ob, v);
  }

  /** The thread has taken the handler and will report `v` to it. */
  predicate WillReport(th: Thread, i: nat, ob: Observer, v: Value) {
    match th
    case NotifyUnlock(newValue, _, local) => i < |local| && local[i] == ob && newValue == v
    case Draining(outcome, local, next) => next <= i < |local| && local[i] == ob && outcome == Changed(v)
    case _ => false
  }

  lemma {:induction false} TakenIsReported(s: State, t: ThreadId, i: nat, ob: Observer, v: Value)
    requires t < |s.threads| && WillReport(s.threads[t], i, ob, v)
    ensures CanReport(s, ob, v)
    decreases TakenRank(s.threads[t]), if s.threads[t].Draining? then i - s.threads[t].next else 0
  {
    var s' := Apply(s, t, Advance);
    if s.threads[t].Draining? && s.threads[t].next == i {
      assert s'.sh.delivered[|s.sh.delivered|] == Delivery(ob, Changed(v));
      assert Reported(Exec(s', []), ob, v);
    } else {
      TakenIsReported(s', t, i, ob, v);
    }
    AfterReportStep(s, t, ob, v);
  }

  /** The holder, if any, leaves without taking the list; then the notifier takes it. */
  lemma {:induction false} BringerReports(s: State, k: nat, u: ThreadId, mover: ThreadId)
    requires Inv(s) && k < |s.sh.observers| && u < |s.threads| && Committed(s.threads[u]) && NoOtherTakes(s.threads, u)
    requires mover < |s.threads| && if s.sh.spin.locked then Holds(s.threads[mover]) else mover == u
    ensures CanReport(s, s.sh.observers[k], s.threads[u].newValue)
    decreases ListedRank(s.threads[mover])
  {
    var ob, v := s.sh.observers[k], s.threads[u].newValue;
    MoverAdvances(s.sh, s.threads[mover]);
    var s' := Apply(s, mover, Advance);
    StepInv(s, mover, Advance);
    if s.threads[mover].NotifyLocked? {
      TakenIsReported(s', u, k, ob, v);
    } else {
      assert s'.sh.observers[k] == ob;
      BringerKept(s, u, mover);
      BringerReports(s', k, u, if s'.sh.spin.locked then mover else u);
    }
    AfterReportStep(s, mover, ob, v);
  }

  /** An advance creates no notifier and no other taker. */
  lemma BringerKept(s: State, u: ThreadId, mover: ThreadId)
    requires Inv(s) && |s.sh.observers| > 0 && u < |s.threads| && Committed(s.threads[u]) && NoOtherTakes(s.threads, u)
    requires mover < |s.threads| && !s.threads[mover].NotifyLocked? && (if s.sh.spin.locked then Holds(s.threads[mover]) else mover == u)
    ensures Enabled(s, mover, Advance)
    ensures var s' := Apply(s, mover, Advance);
            && Committed(s'.threads[u]) && s'.threads[u].newValue == s.threads[u].newValue && NoOtherTakes(s'.threads, u)
            && (s'.sh.spin.locked ==> Holds(s'.threads[mover]))
            && ListedRank(s'.threads[if s'.sh.spin.locked then mover else u]) < ListedRank(s.threads[mover])
  {
    MoverAdvances(s.sh, s.threads[mover]);
    var s' := Apply(s, mover, Advance);
    forall t | 0 <= t < |s'.threads| && t != u ensures !Takes(s'.threads[t]) {
      assert t != mover ==> s'.threads[t] == s.threads[t] && !Takes(s.threads[t]);
      assert t == mover ==> s.sh.spin.locked && Holds(s.threads[mover]) && !Takes(s.threads[mover]);
    }
  }

  /** The observer itself, not only its id, is at the place. */
  predicate ObserverAt(s: State, ob: Observer, p: Place) {
    match p
    case InThread(t, i) => t < |s.threads| && !Registering(s.threads[t]) && Carries(s.threads[t], i, ob.id) && s.threads[t].local[i] == ob
    case Listed(i) => i < |s.sh.observers| && s.sh.observers[i] == ob
    case Delivered(k) => k < |s.sh.delivered| && s.sh.delivered[k].observer == ob
  }

  /** Where the handler is, `v` can still be, or has been, reported to it. */
  ghost predicate Possible(s: State, ob: Observer, v: Value, p: Place) {
    match p
    case InThread(t, i) => t < |s.threads| && WillReport(s.threads[t], i, ob, v)
    case Listed(_) => exists u :: WillBring(s, u, v)
    case Delivered(k) => k < |s.sh.delivered| && s.sh.delivered[k].outcome == Changed(v)
  }

  /** Going on moves the observer as it moves its id. */
  lemma ObserverMoves(s: State, t: ThreadId, ob: Observer, p: Place)
    requires Enabled(s, t, Advance) && ObserverAt(s, ob, p)
    ensures ObserverAt(Apply(s, t, Advance), ob, Moved(s.sh, s.threads[t], t, p))
  {
  }

  /** A notifier of `v` after an advance was one before. */
  lemma NoNewBringer(s: State, t: ThreadId, u: ThreadId, v: Value)
    requires Enabled(s, t, Advance) && !Takes(s.threads[t]) && WillBring(Apply(s, t, Advance), u, v)
    ensures WillBring(s, u, v)
  {
    var s' := Apply(s, t, Advance);
    forall w | 0 <= w < |s.threads| && w != u ensures !Takes(s.threads[w]) {
      assert w != t ==> s'.threads[w] == s.threads[w] && !Takes(s'.threads[w]);
    }
  }

  /** A thread that takes the list was alone in holding the lock. */
  lemma TakerBrings(s: State, t: ThreadId)
    requires Exclusive(s) && t < |s.threads| && s.threads[t].NotifyLocked?
    ensures WillBring(s, t, s.threads[t].newValue)
  {
    assert Holds(s.threads[t]);
    forall w | 0 <= w < |s.threads| && w != t ensures !Takes(s.threads[w]) {
      assert Takes(s.threads[w]) ==> Holds(s.threads[w]);
    }
  }

  /** What cannot be reported does not become possible by going on. */
  lemma StaysImpossible(s: State, t: ThreadId, ob: Observer, v: Value, p: Place)
    requires Inv(s) && Enabled(s, t, Advance) && ObserverAt(s, ob, p) && !Possible(s, ob, v, p)
    ensures !Possible(Apply(s, t, Advance), ob, v, Moved(s.sh, s.threads[t], t, p))
  {
    if p.Listed? {
      if s.threads[t].NotifyLocked? {
        TakerBrings(s, t);
      } else if !s.threads[t].CloseLocked? {
        var s' := Apply(s, t, Advance);
        if u :| WillBring(s', u, v) { NoNewBringer(s, t, u, v); }
      }
    }
  }

  lemma {:induction false} ImpossibleIsNotReported(s: State, schedule: seq<ThreadId>, ob: Observer, v: Value, p: Place)
    requires Inv(s) && OnePlace(s) && ObserverAt(s, ob, p) && !Possible(s, ob, v, p)
    ensures !Reported(Exec(s, schedule), ob, v)
    decreases |schedule|
  {
    if |schedule| == 0 {
      forall k | 0 <= k < |s.sh.delivered| ensures s.sh.delivered[k] != Delivery(ob, Changed(v)) {
        assert At(s, ob.id, p);
        assert s.sh.delivered[k].observer == ob ==> At(s, ob.id, Delivered(k));
      }
    } else if Enabled(s, schedule[0], Advance) {
      var t := schedule[0];
      StaysImpossible(s, t, ob, v, p);
      ObserverMoves(s, t, ob, p);
      StepInv(s, t, Advance);
      StepOnePlace(s, t, Advance);
      ImpossibleIsNotReported(Apply(s, t, Advance), schedule[1..], ob, v, Moved(s.sh, s.threads[t], t, p));
    } else {
      ImpossibleIsNotReported(s, schedule[1..], ob, v, p);
    }
  }

  /**
    Exactly which values a listed handler can be given without any further change of the value, in
    every reachable state: those of a notifier past its change, if nobody else holds the lock to take
    the list.
   */
  lemma ReportableValues(run: seq<State>, i: nat, k: nat, v: Value)
    requires IsRun(run) && i < |run| && k < |run[i].sh.observers|
    ensures CanReport(run[i], run[i].sh.observers[k], v) <==> exists u :: WillBring(run[i], u, v)
  {
    RunInv(run, i);
    var s, ob := run[i], run[i].sh.observers[k];
    if u :| WillBring(s, u, v) {
      if s.sh.spin.locked {
        var h :| 0 <= h < |s.threads| && Holds(s.threads[h]);
        BringerReports(s, k, u, h);
      } else {
        BringerReports(s, k, u, u);
      }
    } else {
      forall schedule ensures !Reported(Exec(s, schedule), ob, v) {
        ImpossibleIsNotReported(s, schedule, ob, v, Listed(k));
      }
    }
  }

  /**
    `async_wait` is documented to report a value other than `last_seen`.  Without any further change of
    the value, it can report exactly that one if and only if a notifier of it is still on its way to the
    list.
   */
  lemma StaleReport(run: seq<State>, i: nat, k: nat)
    requires IsRun(run) && i < |run| && k < |run[i].sh.observers|
    ensures var ob := run[i].sh.observers[k];
            CanReport(run[i], ob, ob.lastSeen) <==> exists u :: WillBring(run[i], u, ob.lastSeen)
  {
    ReportableValues(run, i, k, run[i].sh.observers[k].lastSeen);
  }

  /** The promise holds for handlers that `async_wait` invokes itself: in every run they get another value, or a final status. */
  lemma OwnThreadReportsChange(run: seq<State>, i: nat, t: ThreadId)
    requires IsRun(run) && i < |run| && t < |run[i].threads| && run[i].threads[t].WaitInvoke?
    ensures Enabled(run[i], t, Advance)
    ensures var d := Apply(run[i], t, Advance).sh.delivered;
            && d == run[i].sh.delivered + [Delivery(run[i].threads[t].ob, run[i].threads[t].outcome)]
            && d[|d| - 1].outcome != Changed(d[|d| - 1].observer.lastSeen)
  {
    RunInv(run, i);
    assert ThreadOk(run[i].sh, run[i].threads[t]);
  }

  // ---------------------------------------------------------------- what is not promised

  lemma Extend(run: seq<State>, t: ThreadId, a: Action)
    requires IsRun(run) && Enabled(run[|run| - 1], t, a)
    ensures IsRun(run + [Apply(run[|run| - 1], t, a)])
  {
    var longer := run + [Apply(run[|run| - 1], t, a)];
    forall i | 0 <= i < |longer| - 1
      ensures Step(longer[i], longer[i + 1])
    {
      assert i < |run| - 1 ==> Step(run[i], run[i + 1]);
    }
  }

  lemma Take(run: seq<State>, t: ThreadId, a: Action) returns (longer: seq<State>)
    requires IsRun(run) && Enabled(run[|run| - 1], t, a)
    ensures IsRun(longer) && |longer| == |run| + 1 && longer[|run|] == Apply(run[|run| - 1], t, a)
  {
    Extend(run, t, a);
    longer := run + [Apply(run[|run| - 1], t, a)];
  }

  /** One thread has changed the value to 1 but not yet looked for waiters; another waits on 1. */
  const Late: State :=
    State(Shared(1, Spin(false, true, true, false, false), [Observer(0, 1)], {0}, []), [NotifyLoad(1), Idle])

  lemma LateIsReachable() returns (run: seq<State>)
    ensures IsRun(run) && run[|run| - 1] == Late
  {
    run := [State(Shared(0, Spin(false, true, false, false, false), [], {}, []), [Idle, Idle])];
    run := Take(run, 0, StartFetch(_ => 1));
    run := Take(run, 1, StartWait(Observer(0, 1)));
    run := Take(run, 1, Advance);
    run := Take(run, 1, Advance);
    run := Take(run, 1, Advance);
    run := Take(run, 1, Advance);
    run := Take(run, 1, Advance);
  }

  /** The slow notifier has taken the list. */
  const Taken: State :=
    State(Shared(1, Spin(true, true, true, false, false), [], {0}, []),
          [NotifyUnlock(1, Spin(false, true, true, false, false), [Observer(0, 1)]), Idle])

  lemma TakenIsReachable() returns (run: seq<State>)
    ensures IsRun(run) && run[|run| - 1] == Taken
  {
    run := LateIsReachable();
    run := Take(run, 0, Advance);
    run := Take(run, 0, Advance);
    run := Take(run, 0, Advance);
  }

  /** It does happen: a run in which a waiter is given the value it had already seen. */
  lemma StaleDelivery() returns (run: seq<State>)
    ensures IsRun(run)
    ensures run[|run| - 1].sh.delivered == [Delivery(Observer(0, 1), Changed(1))]
  {
    run := TakenIsReachable();
    run := Take(run, 0, Advance);
    run := Take(run, 0, Advance);
  }
}
