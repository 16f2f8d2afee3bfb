/**
  `Task`: one task's state word, raced by the thread that runs it, the thread that signals its
  `await`, stack-trace dumpers, and threads that register completion handlers.

  Each agent advances by one atomic access at a time; a run is any interleaving.  A continuation is a
  token: `self` says `self_` holds it, `sched` says `scheduler_` holds the caller's.
 */
module TaskState {

  type HandlerId = nat
  type ThreadId = nat

  /** The run-state bits of `state_` (the two sleep-timer bits are left out). */
  datatype RunBits = RunBits(need: bool, have: bool, susp: bool, term: bool, trace: bool)

  /** The whole word, as the compare-and-swap loops see it. */
  datatype Word = Word(run: RunBits, handlersLock: bool, handlersClosed: bool)

  predicate IsRunning(b: RunBits) { !b.susp }

  predicate IsReady(b: RunBits) { b.susp && !b.term && b.need == b.have && !b.trace }

  predicate IsTerminal(b: RunBits) { b.susp && b.term }

  /** The handler of the current `await`: not made, not yet passed on, outstanding, or called. */
  datatype Signal = NoSignal | Unissued | Pending | Fired

  /** Where the task's own code stands. */
  datatype Code = Entry | Body | AwaitCalling | AwaitYield

  /** The thread that has the task: constructor, executor, trampoline, task body. */
  datatype OwnAt = Ctor | Post | Activated | Resumed | Running | Exited | AfterRun

  /** `try_dump_stack_trace` once it has set the trace bit. */
  datatype DumpAt = Resume | InTask | Back | Clear(observed: Word)

  /** `run_completion_handlers`. */
  datatype CompleteAt = Checks | AwaitLock | Close | Take | Unlock(local: seq<HandlerId>) | Invoke(local: seq<HandlerId>, next: nat)

  /** `call_when_done`. */
  datatype RegisterAt = Test | TakeLock | Locked(prior: Word) | Retry | Pushed | InvokeNow

  datatype Thread =
    | Idle
    | Own(own: OwnAt)
    | ScheduleCas(observed: Word)
    | DumpCas(observed: Word)
    | Dump(dump: DumpAt)
    | Complete(done: CompleteAt)
    | Register(reg: RegisterAt, h: HandlerId)

  /** What scheduling touches. */
  datatype Core = Core(
    run: RunBits,
    self: bool,
    sched: bool,
    posted: nat,
    code: Code,
    signal: Signal,
    fired: bool,
    traced: bool,
    suspends: nat,
    schedules: nat,
    panic: bool)

  /** The completion-handler list with its two bits, and what became of the handlers. */
  datatype Handlers = Handlers(lock: bool, closed: bool, list: seq<HandlerId>, started: set<HandlerId>, invoked: seq<HandlerId>)

  datatype Shared = Shared(core: Core, hs: Handlers)

  datatype State = State(sh: Shared, threads: seq<Thread>)

  /** The effect of one step: the shared state and where the thread goes. */
  datatype Move = Move(sh: Shared, th: Thread)

  datatype BodyAction = BeginAwait | IssueHandler | YieldInAwait | Yield | ReturnFromAwait | Terminate

  datatype Action =
    | InBody(act: BodyAction)
    | TakeActivation
    | Repost
    | FireSignal
    | StartDump
    | StartRegister(h: HandlerId)
    | Advance(spurious: bool)

  function WordOf(sh: Shared): Word { Word(sh.core.run, sh.hs.lock, sh.hs.closed) }

  function Check(c: Core, cond: bool): Core { if cond then c else c.(panic := true) }

  predicate BodyAllowed(c: Core, act: BodyAction) {
    match act
    case BeginAwait => c.code == Body
    case IssueHandler => c.code == AwaitCalling && c.signal == Unissued
    case YieldInAwait => c.code == AwaitCalling && c.signal != Unissued
    case Yield => c.code == Body || c.code == AwaitCalling
    case ReturnFromAwait => c.code == AwaitYield
    case Terminate => c.code == Body
  }

  predicate Allowed(sh: Shared, th: Thread, a: Action) {
    match a
    case InBody(act) => th == Own(Running) && BodyAllowed(sh.core, act)
    case TakeActivation => th.Idle? && sh.core.posted > 0
    case Repost => th == Own(Activated)
    case FireSignal => th.Idle? && sh.core.signal == Pending
    case StartDump => th.Idle?
    case StartRegister(h) => th.Idle? && h !in sh.hs.started
    case Advance(_) => !th.Idle? && th != Own(Running)
  }

  function Next(sh: Shared, th: Thread, a: Action): Move
    requires Allowed(sh, th, a)
  {
    match a
    case InBody(act) => NextBody(sh, act)
    case TakeActivation => Move(sh.(core := sh.core.(posted := sh.core.posted - 1)), Own(Activated))
    case Repost => Move(sh, Own(Post))
    case FireSignal => HandleEvent(sh, sh.core.(signal := Fired, fired := true, run := sh.core.run.(have := true)))
    case StartDump => Move(sh, DumpCas(WordOf(sh)))
    case StartRegister(h) => Move(sh.(hs := sh.hs.(started := sh.hs.started + {h})), Register(Test, h))
    case Advance(spurious) =>
      match th
      case Own(at) => NextOwner(sh, at)
      case ScheduleCas(observed) => NextSchedule(sh, observed, spurious)
      case DumpCas(observed) => NextDumpCas(sh, observed, spurious)
      case Dump(at) => NextDump(sh, at, spurious)
      case Complete(at) => NextComplete(sh, at)
      case Register(at, h) => NextRegister(sh, at, h)
  }

  /** The task's own code: `await_impl`, `yield`, preemption, and leaving the body function. */
  function NextBody(sh: Shared, act: BodyAction): Move
    requires BodyAllowed(sh.core, act)
  {
    var c := sh.core;
    match act
    case BeginAwait =>
      Move(sh.(core := Check(c, !c.run.have)
                         .(run := c.run.(need := true), code := AwaitCalling, signal := Unissued, fired := false)),
           Own(Running))
    case IssueHandler => Move(sh.(core := c.(signal := Pending)), Own(Running))
    case YieldInAwait => Move(sh.(core := SwitchOut(c).(code := AwaitYield)), Own(AfterRun))
    case Yield => Move(sh.(core := SwitchOut(c)), Own(AfterRun))
    case ReturnFromAwait => Move(sh.(core := Check(c, c.fired).(code := Body)), Own(Running))
    case Terminate => Move(sh.(core := c.(sched := false, run := c.run.(term := true))), Own(Exited))
  }

  /** `yield_impl` gives control back: the task's continuation ends up in `self_`. */
  function SwitchOut(c: Core): Core { Check(c, c.sched).(sched := false, self := true) }

  function SwitchIn(c: Core): Core { Check(c, c.self).(self := false, sched := true) }

  /** `handle_event`, once its fetch_or has led to `c`. */
  function HandleEvent(sh: Shared, c: Core): Move {
    if IsReady(c.run) then Move(sh.(core := c), ScheduleCas(Word(c.run, sh.hs.lock, sh.hs.closed)))
    else if IsTerminal(c.run) then Move(sh.(core := Check(c, !c.self && !c.sched)), Complete(Checks))
    else Move(sh.(core := c), Idle)
  }

  function NextOwner(sh: Shared, at: OwnAt): Move
    requires at != Running
  {
    var c := sh.core;
    match at
    case Ctor =>
      HandleEvent(sh, c.(signal := Fired, suspends := c.suspends + 1, run := c.run.(susp := true, have := true)))
    case Post => Move(sh.(core := c.(posted := c.posted + 1)), Idle)
    case Activated => Move(sh.(core := SwitchIn(c)), Own(Resumed))
    case Resumed =>
      if c.code == Entry then Move(sh.(core := c.(code := Body)), Own(Running))
      else if c.run.trace then Move(sh.(core := SwitchOut(c.(traced := true))), Own(AfterRun))
      else Move(sh, Own(Running))
    case Exited => Move(sh, Own(AfterRun))
    case AfterRun =>
      HandleEvent(sh, c.(suspends := if c.run.term then c.suspends else c.suspends + 1, run := c.run.(susp := true)))
  }

  /** The loop of `schedule_to_run`; a successful CAS un-suspends the task and uses up its signal. */
  function NextSchedule(sh: Shared, observed: Word, spurious: bool): Move {
    var c := sh.core;
    if !IsReady(observed.run) then Move(sh, Idle)
    else if WordOf(sh) == observed && !spurious then
      Move(sh.(core := Check(c, IsReady(observed.run) && c.self)
                         .(run := observed.run.(susp := false, need := false, have := false), signal := NoSignal,
                           schedules := c.schedules + 1)),
           Own(Post))
    else Move(sh, ScheduleCas(WordOf(sh)))
  }

  function NextDumpCas(sh: Shared, observed: Word, spurious: bool): Move {
    if IsRunning(observed.run) || IsReady(observed.run) || IsTerminal(observed.run) || observed.run.trace then Move(sh, Idle)
    else if WordOf(sh) == observed && !spurious then
      Move(sh.(core := sh.core.(run := observed.run.(trace := true))), Dump(Resume))
    else Move(sh, DumpCas(WordOf(sh)))
  }

  function NextDump(sh: Shared, at: DumpAt, spurious: bool): Move {
    var c := sh.core;
    match at
    case Resume => Move(sh.(core := SwitchIn(c)), Dump(InTask))
    case InTask =>
      if c.run.trace then Move(sh.(core := SwitchOut(c.(traced := true))), Dump(Back))
      else Move(sh.(core := c.(panic := true)), Dump(Back))
    case Back => Move(sh.(core := Check(c, c.traced).(traced := false)), Dump(Clear(WordOf(sh))))
    case Clear(observed) =>
      var target := observed.run.(trace := false, susp := true);
      if WordOf(sh) != observed || spurious then Move(sh, Dump(Clear(WordOf(sh))))
      else if IsReady(target) then
        Move(sh.(core := Check(c, !IsTerminal(target)).(run := target)), ScheduleCas(observed.(run := target)))
      else Move(sh.(core := Check(c, !IsTerminal(target)).(run := target)), Idle)
  }

  function NextComplete(sh: Shared, at: CompleteAt): Move {
    var c, hs := sh.core, sh.hs;
    match at
    case Checks => Move(sh.(core := Check(c, IsTerminal(c.run) && !c.sched && !c.self)), Complete(AwaitLock))
    case AwaitLock =>
      if hs.lock then Move(sh, Complete(AwaitLock)) else Move(sh.(hs := hs.(lock := true)), Complete(Close))
    case Close => Move(Shared(Check(c, !hs.closed), hs.(closed := true)), Complete(Take))
    case Take => Move(sh.(hs := hs.(list := [])), Complete(Unlock(hs.list)))
    case Unlock(local) => Move(sh.(hs := hs.(lock := false)), Complete(Invoke(local, 0)))
    case Invoke(local, next) =>
      if next < |local| then Move(sh.(hs := Invoked(hs, local[next])), Complete(Invoke(local, next + 1)))
      else Move(sh, Idle)
  }

  function NextRegister(sh: Shared, at: RegisterAt, h: HandlerId): Move {
    var hs := sh.hs;
    match at
    case Test => if IsTerminal(sh.core.run) then Move(sh, Register(InvokeNow, h)) else Move(sh, Register(TakeLock, h))
    case TakeLock =>
      if hs.lock then Move(sh, Register(TakeLock, h))
      else Move(sh.(hs := hs.(lock := true)), Register(Locked(WordOf(sh)), h))
    case Locked(prior) =>
      if IsTerminal(prior.run) || prior.handlersClosed then Move(sh, Register(Retry, h))
      else Move(sh.(hs := hs.(list := hs.list + [h])), Register(Pushed, h))
    case Retry => Move(sh.(hs := hs.(lock := false)), Register(Test, h))
    case Pushed => Move(sh.(hs := hs.(lock := false)), Idle)
    case InvokeNow => Move(sh.(hs := Invoked(hs, h)), Idle)
  }

  function Invoked(hs: Handlers, h: HandlerId): Handlers { hs.(invoked := hs.invoked + [h]) }

  predicate Enabled(s: State, t: ThreadId, a: Action) {
    t < |s.threads| && Allowed(s.sh, s.threads[t], a)
  }

  function Apply(s: State, t: ThreadId, a: Action): State
    requires Enabled(s, t, a)
  {
    var m := Next(s.sh, s.threads[t], a);
    State(m.sh, s.threads[t := m.th])
  }

  /** Thread 0 is in the constructor, about to send the first signal. */
  ghost predicate Init(s: State) {
    && s.sh.core == Core(RunBits(true, false, false, false, false), true, false, 0, Entry, Unissued, false, false, 0, 0, false)
    && s.sh.hs == Handlers(false, false, [], {}, [])
    && |s.threads| > 0 && s.threads[0] == Own(Ctor)
    && forall t :: 0 < t < |s.threads| ==> s.threads[t] == Idle
  }

  ghost predicate Step(s: State, s': State) {
    exists t, a :: Enabled(s, t, a) && s' == Apply(s, t, a)
  }

  ghost predicate IsRun(run: seq<State>) {
    && |run| > 0 && Init(run[0])
    && forall i :: 0 <= i < |run| - 1 ==> Step(run[i], run[i + 1])
  }

  // ---------------------------------------------------------------- roles

  /** The thread that has the task while it is not suspended. */
  predicate Owns(th: Thread) { th.Own? }

  predicate Schedules(th: Thread) { th.ScheduleCas? }

  predicate Dumps(th: Thread) { th.Dump? }

  predicate HoldsHandlers(th: Thread) {
    || (th.Complete? && (th.done.Close? || th.done.Take? || th.done.Unlock?))
    || (th.Register? && (th.reg.Locked? || th.reg.Retry? || th.reg.Pushed?))
  }

  predicate WillClose(th: Thread) { th.Complete? && (th.done.Checks? || th.done.AwaitLock? || th.done.Close?) }

  predicate OwnFlag(c: Core) { !c.run.susp && c.posted == 0 }

  predicate CloseFlag(sh: Shared) { IsTerminal(sh.core.run) && !sh.hs.closed }

  /** Exactly one thread has the role while `flag` is set, and none otherwise. */
  ghost predicate Exclusive(role: Thread -> bool, flag: bool, threads: seq<Thread>) {
    && (forall t :: 0 <= t < |threads| && role(threads[t]) ==> flag)
    && (forall t, u :: 0 <= t < |threads| && 0 <= u < |threads| && role(threads[t]) && role(threads[u]) ==> t == u)
    && (flag ==> exists t :: 0 <= t < |threads| && role(threads[t]))
  }

  /** The flag moves only together with the role. */
  predicate Follows(had: bool, flag: bool, has: bool, flag': bool) {
    && (had == has ==> flag == flag')
    && (!had && has ==> !flag && flag')
    && (had && !has ==> !flag')
  }

  lemma ExclusiveStep(role: Thread -> bool, flag: bool, threads: seq<Thread>, t: ThreadId, flag': bool, th': Thread)
    requires t < |threads| && Exclusive(role, flag, threads) && Follows(role(threads[t]), flag, role(th'), flag')
    ensures Exclusive(role, flag', threads[t := th'])
  {
    var threads' := threads[t := th'];
    if role(th') {
      assert role(threads'[t]);
    } else if flag {
      var h :| 0 <= h < |threads| && role(threads[h]);
      assert h != t ==> role(threads'[h]);
    }
  }

  // ---------------------------------------------------------------- the invariant

  ghost predicate CoreOk(c: Core) {
    && !c.panic
    && c.posted <= 1
    && (c.run.susp ==> c.posted == 0)
    && (c.posted == 1 ==> c.self && !c.sched && !c.run.term && c.signal == NoSignal)
    && (c.run.trace ==> c.run.susp && !c.run.term)
    && (c.run.susp && !c.run.trace ==> !c.sched && c.self == !c.run.term)
    && (c.run.need <==> c.signal != NoSignal)
    && (c.run.have <==> c.signal == Fired)
    && (c.run.term ==> c.signal == NoSignal)
    && (c.code == Entry ==> !c.run.term && !c.run.trace && c.signal != Pending && (c.run.susp ==> IsReady(c.run)))
    && (c.code == Body ==> c.signal == NoSignal)
    && (c.signal == Unissued ==> c.code == AwaitCalling || c.code == Entry)
    && (c.code == AwaitCalling || c.code == AwaitYield ==> (c.signal == NoSignal || c.signal == Fired ==> c.fired))
    && c.suspends == c.schedules + (if c.run.susp && !c.run.term then 1 else 0)
  }

  ghost predicate HandlersOk(hs: Handlers, terminal: bool) {
    && (hs.closed ==> terminal)
    && (hs.closed && !hs.lock ==> |hs.list| == 0)
    && (|hs.invoked| > 0 ==> terminal)
  }

  ghost predicate SharedOk(sh: Shared) { CoreOk(sh.core) && HandlersOk(sh.hs, IsTerminal(sh.core.run)) }

  ghost predicate OwnOk(c: Core, at: OwnAt) {
    match at
    case Ctor => c.self && !c.sched && c.code == Entry && c.signal == Unissued && !c.run.term
    case Post => c.self && !c.sched && !c.run.term && !c.run.need
    case Activated => c.self && !c.sched && !c.run.term && !c.run.need
    case Resumed => !c.self && c.sched && !c.run.term && !c.run.need
    case Running => !c.self && c.sched && !c.run.term && c.code != Entry && (c.code == AwaitYield ==> c.signal == NoSignal)
    case Exited => !c.self && !c.sched && c.run.term && c.code == Body
    case AfterRun => !c.sched && c.self == !c.run.term && c.code != Entry
  }

  ghost predicate DumpOk(c: Core, at: DumpAt) {
    match at
    case Resume => c.self && !c.sched
    case InTask => !c.self && c.sched
    case Back => c.self && !c.sched && c.traced
    case Clear(_) => c.self && !c.sched
  }

  ghost predicate CompleteOk(hs: Handlers, terminal: bool, at: CompleteAt) {
    match at
    case Take => hs.closed
    case Unlock(_) => hs.closed && |hs.list| == 0
    case Invoke(local, next) => terminal && next <= |local|
    case _ => terminal && !hs.closed
  }

  ghost predicate RegisterOk(hs: Handlers, terminal: bool, at: RegisterAt) {
    match at
    case Locked(prior) => prior.handlersClosed == hs.closed && (prior.handlersClosed ==> |hs.list| == 0)
    case Retry => hs.closed ==> |hs.list| == 0
    case Pushed => !hs.closed
    case InvokeNow => terminal
    case _ => true
  }

  /** What a thread relies on, together with the flags of its roles. */
  ghost predicate ThreadOk(sh: Shared, th: Thread) {
    && (HoldsHandlers(th) ==> sh.hs.lock)
    && match th
       case Own(at) => OwnFlag(sh.core) && OwnOk(sh.core, at)
       case ScheduleCas(observed) => IsReady(sh.core.run) && IsReady(observed.run)
       case Dump(at) => sh.core.run.trace && DumpOk(sh.core, at)
       case Complete(at) => CompleteOk(sh.hs, IsTerminal(sh.core.run), at)
       case Register(at, _) => RegisterOk(sh.hs, IsTerminal(sh.core.run), at)
       case _ => true
  }

  ghost predicate Roles(s: State) {
    && Exclusive(Owns, OwnFlag(s.sh.core), s.threads)
    && Exclusive(Schedules, IsReady(s.sh.core.run), s.threads)
    && Exclusive(Dumps, s.sh.core.run.trace, s.threads)
    && Exclusive(HoldsHandlers, s.sh.hs.lock, s.threads)
    && Exclusive(WillClose, CloseFlag(s.sh), s.threads)
  }

  ghost predicate Inv(s: State) {
    && Roles(s) && SharedOk(s.sh)
    && forall t :: 0 <= t < |s.threads| ==> ThreadOk(s.sh, s.threads[t])
  }

  lemma InitInv(s: State)
    requires Init(s)
    ensures Inv(s)
  {
    assert Owns(s.threads[0]);
  }

  /** Each role is gained and lost together with its flag. */
  predicate RolesFollow(sh: Shared, th: Thread, m: Move) {
    && Follows(Owns(th), OwnFlag(sh.core), Owns(m.th), OwnFlag(m.sh.core))
    && Follows(Schedules(th), IsReady(sh.core.run), Schedules(m.th), IsReady(m.sh.core.run))
    && Follows(Dumps(th), sh.core.run.trace, Dumps(m.th), m.sh.core.run.trace)
    && Follows(HoldsHandlers(th), sh.hs.lock, HoldsHandlers(m.th), m.sh.hs.lock)
    && Follows(WillClose(th), CloseFlag(sh), WillClose(m.th), CloseFlag(m.sh))
  }

  /** What one step leaves behind. */
  ghost predicate Kept(sh: Shared, th: Thread, m: Move) {
    SharedOk(m.sh) && ThreadOk(m.sh, m.th) && RolesFollow(sh, th, m)
  }

  lemma BodyShared(sh: Shared, act: BodyAction)
    requires SharedOk(sh) && ThreadOk(sh, Own(Running)) && BodyAllowed(sh.core, act)
    ensures SharedOk(NextBody(sh, act).sh)
  {
  }

  lemma BodyThread(sh: Shared, act: BodyAction)
    requires SharedOk(sh) && ThreadOk(sh, Own(Running)) && BodyAllowed(sh.core, act)
    ensures ThreadOk(NextBody(sh, act).sh, NextBody(sh, act).th)
  {
  }

  lemma BodyRoles(sh: Shared, act: BodyAction)
    requires SharedOk(sh) && ThreadOk(sh, Own(Running)) && BodyAllowed(sh.core, act)
    ensures RolesFollow(sh, Own(Running), NextBody(sh, act))
  {
  }

  lemma BodyKept(sh: Shared, act: BodyAction)
    requires SharedOk(sh) && ThreadOk(sh, Own(Running)) && BodyAllowed(sh.core, act)
    ensures Kept(sh, Own(Running), NextBody(sh, act))
  {
    BodyShared(sh, act);
    BodyThread(sh, act);
    BodyRoles(sh, act);
  }

  lemma OwnerShared(sh: Shared, at: OwnAt)
    requires SharedOk(sh) && ThreadOk(sh, Own(at)) && at != Running
    ensures SharedOk(NextOwner(sh, at).sh)
  {
  }

  lemma OwnerThread(sh: Shared, at: OwnAt)
    requires SharedOk(sh) && ThreadOk(sh, Own(at)) && at != Running
    ensures ThreadOk(NextOwner(sh, at).sh, NextOwner(sh, at).th)
  {
  }

  lemma OwnerRoles(sh: Shared, at: OwnAt)
    requires SharedOk(sh) && ThreadOk(sh, Own(at)) && at != Running
    ensures RolesFollow(sh, Own(at), NextOwner(sh, at))
  {
  }

  lemma OwnerKept(sh: Shared, at: OwnAt)
    requires SharedOk(sh) && ThreadOk(sh, Own(at)) && at != Running
    ensures Kept(sh, Own(at), NextOwner(sh, at))
  {
    OwnerShared(sh, at);
    OwnerThread(sh, at);
    OwnerRoles(sh, at);
  }

  lemma ScheduleKept(sh: Shared, observed: Word, spurious: bool)
    requires SharedOk(sh) && ThreadOk(sh, ScheduleCas(observed))
    ensures Kept(sh, ScheduleCas(observed), NextSchedule(sh, observed, spurious))
  {
  }

  lemma DumpCasKept(sh: Shared, observed: Word, spurious: bool)
    requires SharedOk(sh)
    ensures Kept(sh, DumpCas(observed), NextDumpCas(sh, observed, spurious))
  {
  }

  lemma DumpShared(sh: Shared, at: DumpAt, spurious: bool)
    requires SharedOk(sh) && ThreadOk(sh, Dump(at))
    ensures SharedOk(NextDump(sh, at, spurious).sh)
  {
  }

  lemma DumpThread(sh: Shared, at: DumpAt, spurious: bool)
    requires SharedOk(sh) && ThreadOk(sh, Dump(at))
    ensures ThreadOk(NextDump(sh, at, spurious).sh, NextDump(sh, at, spurious).th)
  {
  }

  lemma DumpRoles(sh: Shared, at: DumpAt, spurious: bool)
    requires SharedOk(sh) && ThreadOk(sh, Dump(at))
    ensures RolesFollow(sh, Dump(at), NextDump(sh, at, spurious))
  {
  }

  lemma DumpKept(sh: Shared, at: DumpAt, spurious: bool)
    requires SharedOk(sh) && ThreadOk(sh, Dump(at))
    ensures Kept(sh, Dump(at), NextDump(sh, at, spurious))
  {
    DumpShared(sh, at, spurious);
    DumpThread(sh, at, spurious);
    DumpRoles(sh, at, spurious);
  }

  lemma CompleteKept(sh: Shared, at: CompleteAt)
    requires SharedOk(sh) && ThreadOk(sh, Complete(at))
    ensures Kept(sh, Complete(at), NextComplete(sh, at))
  {
  }

  lemma RegisterShared(sh: Shared, at: RegisterAt, h: HandlerId)
    requires SharedOk(sh) && ThreadOk(sh, Register(at, h))
    ensures SharedOk(NextRegister(sh, at, h).sh)
  {
  }

  lemma RegisterThread(sh: Shared, at: RegisterAt, h: HandlerId)
    requires SharedOk(sh) && ThreadOk(sh, Register(at, h))
    ensures ThreadOk(NextRegister(sh, at, h).sh, NextRegister(sh, at, h).th)
  {
  }

  lemma RegisterRoles(sh: Shared, at: RegisterAt, h: HandlerId)
    requires SharedOk(sh) && ThreadOk(sh, Register(at, h))
    ensures RolesFollow(sh, Register(at, h), NextRegister(sh, at, h))
  {
  }

  lemma RegisterKept(sh: Shared, at: RegisterAt, h: HandlerId)
    requires SharedOk(sh) && ThreadOk(sh, Register(at, h))
    ensures Kept(sh, Register(at, h), NextRegister(sh, at, h))
  {
    RegisterShared(sh, at, h);
    RegisterThread(sh, at, h);
    RegisterRoles(sh, at, h);
  }

  lemma AdvanceKept(sh: Shared, th: Thread, spurious: bool)
    requires SharedOk(sh) && ThreadOk(sh, th) && Allowed(sh, th, Advance(spurious))
    ensures Kept(sh, th, Next(sh, th, Advance(spurious)))
  {
    match th
    case Own(at) => OwnerKept(sh, at);
    case ScheduleCas(observed) => ScheduleKept(sh, observed, spurious);
    case DumpCas(observed) => DumpCasKept(sh, observed, spurious);
    case Dump(at) => DumpKept(sh, at, spurious);
    case Complete(at) => CompleteKept(sh, at);
    case Register(at, h) => RegisterKept(sh, at, h);
  }

  lemma StartShared(sh: Shared, th: Thread, a: Action)
    requires SharedOk(sh) && ThreadOk(sh, th) && Allowed(sh, th, a) && !a.Advance? && !a.InBody?
    ensures SharedOk(Next(sh, th, a).sh)
  {
  }

  lemma StartThread(sh: Shared, th: Thread, a: Action)
    requires SharedOk(sh) && ThreadOk(sh, th) && Allowed(sh, th, a) && !a.Advance? && !a.InBody?
    ensures ThreadOk(Next(sh, th, a).sh, Next(sh, th, a).th)
  {
  }

  lemma StartRoles(sh: Shared, th: Thread, a: Action)
    requires SharedOk(sh) && ThreadOk(sh, th) && Allowed(sh, th, a) && !a.Advance? && !a.InBody?
    ensures RolesFollow(sh, th, Next(sh, th, a))
  {
  }

  lemma StartKept(sh: Shared, th: Thread, a: Action)
    requires SharedOk(sh) && ThreadOk(sh, th) && Allowed(sh, th, a) && !a.Advance? && !a.InBody?
    ensures Kept(sh, th, Next(sh, th, a))
  {
    StartShared(sh, th, a);
    StartThread(sh, th, a);
    StartRoles(sh, th, a);
  }

  predicate Compatible(th: Thread, other: Thread) {
    && !(Owns(th) && Owns(other)) && !(Schedules(th) && Schedules(other)) && !(Dumps(th) && Dumps(other))
    && !(HoldsHandlers(th) && HoldsHandlers(other)) && !(WillClose(th) && WillClose(other))
  }

  /** No step disturbs what another thread relies on. */
  lemma NextKeepsOther(sh: Shared, th: Thread, a: Action, other: Thread)
    requires SharedOk(sh) && ThreadOk(sh, th) && Allowed(sh, th, a) && ThreadOk(sh, other) && Compatible(th, other)
    ensures ThreadOk(Next(sh, th, a).sh, other)
  {
    if other.Complete? || other.Register? { NextKeepsHandler(sh, th, a, other); } else { NextKeepsTask(sh, th, a, other); }
  }

  lemma NextKeepsHandler(sh: Shared, th: Thread, a: Action, other: Thread)
    requires SharedOk(sh) && ThreadOk(sh, th) && Allowed(sh, th, a) && ThreadOk(sh, other) && Compatible(th, other)
    requires other.Complete? || other.Register?
    ensures ThreadOk(Next(sh, th, a).sh, other)
  {
  }

  lemma NextKeepsTask(sh: Shared, th: Thread, a: Action, other: Thread)
    requires SharedOk(sh) && ThreadOk(sh, th) && Allowed(sh, th, a) && ThreadOk(sh, other) && Compatible(th, other)
    requires !other.Complete? && !other.Register?
    ensures ThreadOk(Next(sh, th, a).sh, other)
  {
  }

  lemma NextKept(sh: Shared, th: Thread, a: Action)
    requires SharedOk(sh) && ThreadOk(sh, th) && Allowed(sh, th, a)
    ensures Kept(sh, th, Next(sh, th, a))
  {
    match a
    case InBody(act) => BodyKept(sh, act);
    case Advance(spurious) => AdvanceKept(sh, th, spurious);
    case _ => StartKept(sh, th, a);
  }

  lemma OthersKept(s: State, t: ThreadId, a: Action, u: ThreadId)
    requires Inv(s) && Enabled(s, t, a) && u < |s.threads| && u != t
    ensures ThreadOk(Next(s.sh, s.threads[t], a).sh, s.threads[u])
  {
    NextKeepsOther(s.sh, s.threads[t], a, s.threads[u]);
  }

  lemma StepInv(s: State, t: ThreadId, a: Action)
    requires Inv(s) && Enabled(s, t, a)
    ensures Inv(Apply(s, t, a))
  {
    var s' := Apply(s, t, a);
    NextKept(s.sh, s.threads[t], a);
    RolesStep(s, t, Next(s.sh, s.threads[t], a));
    forall u | 0 <= u < |s'.threads|
      ensures ThreadOk(s'.sh, s'.threads[u])
    {
      if u != t { OthersKept(s, t, a, u); }
    }
  }

  lemma RolesStep(s: State, t: ThreadId, m: Move)
    requires t < |s.threads| && Roles(s) && RolesFollow(s.sh, s.threads[t], m)
    ensures Roles(State(m.sh, s.threads[t := m.th]))
  {
    ExclusiveStep(Owns, OwnFlag(s.sh.core), s.threads, t, OwnFlag(m.sh.core), m.th);
    ExclusiveStep(Schedules, IsReady(s.sh.core.run), s.threads, t, IsReady(m.sh.core.run), m.th);
    ExclusiveStep(Dumps, s.sh.core.run.trace, s.threads, t, m.sh.core.run.trace, m.th);
    ExclusiveStep(HoldsHandlers, s.sh.hs.lock, s.threads, t, m.sh.hs.lock, m.th);
    ExclusiveStep(WillClose, CloseFlag(s.sh), s.threads, t, CloseFlag(m.sh), m.th);
  }

  // ---------------------------------------------------------------- one place per completion handler

  /** A completion handler is with a thread, in the list, or invoked. */
  datatype Place = InThread(t: ThreadId, i: nat) | Listed(i: nat) | Done(k: nat)

  predicate Carries(th: Thread, i: nat, h: HandlerId) {
    match th
    case Register(at, g) => !at.Pushed? && i == 0 && g == h
    case Complete(Unlock(local)) => i < |local| && local[i] == h
    case Complete(Invoke(local, next)) => next <= i < |local| && local[i] == h
    case _ => false
  }

  predicate At(s: State, h: HandlerId, p: Place) {
    match p
    case InThread(t, i) => t < |s.threads| && Carries(s.threads[t], i, h)
    case Listed(i) => i < |s.sh.hs.list| && s.sh.hs.list[i] == h
    case Done(k) => k < |s.sh.hs.invoked| && s.sh.hs.invoked[k] == h
  }

  /** Exactly the handlers ever passed to `call_when_done` have a place, and none has two. */
  ghost predicate OnePlace(s: State) {
    && (forall h :: h in s.sh.hs.started ==> exists p :: At(s, h, p))
    && (forall h, p :: At(s, h, p) ==> h in s.sh.hs.started)
    && (forall h, p, q :: At(s, h, p) && At(s, h, q) ==> p == q)
  }

  predicate Pushes(th: Thread) {
    th.Register? && th.reg.Locked? && !IsTerminal(th.reg.prior.run) && !th.reg.prior.handlersClosed
  }

  function Moved(hs: Handlers, th: Thread, t: ThreadId, p: Place): Place {
    if Pushes(th) && p == InThread(t, 0) then Listed(|hs.list|)
    else if th == Complete(Take) && p.Listed? then InThread(t, p.i)
    else if th.Register? && th.reg.InvokeNow? && p == InThread(t, 0) then Done(|hs.invoked|)
    else if th.Complete? && th.done.Invoke? && p == InThread(t, th.done.next) then Done(|hs.invoked|)
    else p
  }

  function MovedFrom(hs: Handlers, th: Thread, t: ThreadId, p: Place): Place {
    if Pushes(th) && p == Listed(|hs.list|) then InThread(t, 0)
    else if th == Complete(Take) && p.InThread? && p.t == t then Listed(p.i)
    else if th.Register? && th.reg.InvokeNow? && p == Done(|hs.invoked|) then InThread(t, 0)
    else if th.Complete? && th.done.Invoke? && p == Done(|hs.invoked|) then InThread(t, th.done.next)
    else p
  }

  /** Steps outside the handler code leave the handlers alone. */
  lemma CoreStepKeepsHandlers(sh: Shared, th: Thread, a: Action)
    requires Allowed(sh, th, a) && !a.StartRegister? && !th.Register? && !th.Complete?
    ensures Next(sh, th, a).sh.hs == sh.hs
    ensures forall i, h :: !Carries(th, i, h) && !Carries(Next(sh, th, a).th, i, h)
  {
  }

  lemma MoveForward(s: State, t: ThreadId, a: Action, h: HandlerId, p: Place)
    requires Enabled(s, t, a) && !a.StartRegister? && At(s, h, p)
    ensures At(Apply(s, t, a), h, Moved(s.sh.hs, s.threads[t], t, p))
  {
    var th := s.threads[t];
    if th.Register? {
      RegisterMoves(s.sh, th.reg, th.h);
    } else if th.Complete? {
      CompleteMoves(s.sh, th.done);
    } else {
      CoreStepKeepsHandlers(s.sh, th, a);
    }
  }

  lemma MoveBackward(s: State, t: ThreadId, a: Action, h: HandlerId, p: Place)
    requires Enabled(s, t, a) && !a.StartRegister? && At(Apply(s, t, a), h, p)
    ensures var q := MovedFrom(s.sh.hs, s.threads[t], t, p);
            At(s, h, q) && Moved(s.sh.hs, s.threads[t], t, q) == p
  {
    var th := s.threads[t];
    if th.Register? {
      RegisterMoves(s.sh, th.reg, th.h);
    } else if th.Complete? {
      CompleteMoves(s.sh, th.done);
    } else {
      CoreStepKeepsHandlers(s.sh, th, a);
    }
  }

  lemma RegisterMoves(sh: Shared, at: RegisterAt, h: HandlerId)
    ensures var m, th := NextRegister(sh, at, h), Register(at, h);
            && m.sh.hs.list == (if Pushes(th) then sh.hs.list + [h] else sh.hs.list)
            && m.sh.hs.invoked == (if at.InvokeNow? then sh.hs.invoked + [h] else sh.hs.invoked)
            && (if Pushes(th) || at.InvokeNow? || at.Pushed? then forall i, g :: !Carries(m.th, i, g)
                else forall i, g :: Carries(m.th, i, g) == Carries(th, i, g))
  {
  }

  lemma CompleteMoves(sh: Shared, at: CompleteAt)
    ensures var m, th := NextComplete(sh, at), Complete(at);
            && m.sh.hs.list == (if at.Take? then [] else sh.hs.list)
            && (at.Take? ==> m.th == Complete(Unlock(sh.hs.list)))
            && (!at.Take? && !at.Invoke? ==> forall i, g :: Carries(m.th, i, g) == Carries(th, i, g))
            && (!at.Invoke? ==> m.sh.hs.invoked == sh.hs.invoked)
            && (at.Invoke? ==> m == if at.next < |at.local|
                                    then Move(sh.(hs := Invoked(sh.hs, at.local[at.next])), Complete(Invoke(at.local, at.next + 1)))
                                    else Move(sh, Idle))
  {
  }

  lemma StepOnePlace(s: State, t: ThreadId, a: Action)
    requires OnePlace(s) && Enabled(s, t, a)
    ensures OnePlace(Apply(s, t, a))
  {
    var s' := Apply(s, t, a);
    if a.StartRegister? {
      StartOnePlace(s, t, a);
    } else {
      forall h | h in s.sh.hs.started
        ensures exists p :: At(s', h, p)
      {
        var p :| At(s, h, p);
        MoveForward(s, t, a, h, p);
      }
      forall h, p | At(s', h, p)
        ensures h in s.sh.hs.started
      {
        MoveBackward(s, t, a, h, p);
      }
      forall h, p, q | At(s', h, p) && At(s', h, q)
        ensures p == q
      {
        MoveBackward(s, t, a, h, p);
        MoveBackward(s, t, a, h, q);
      }
      StartedKept(s.sh, s.threads[t], a);
    }
  }

  lemma StartedKept(sh: Shared, th: Thread, a: Action)
    requires Allowed(sh, th, a) && !a.StartRegister?
    ensures Next(sh, th, a).sh.hs.started == sh.hs.started
  {
  }

  lemma StartOnePlace(s: State, t: ThreadId, a: Action)
    requires OnePlace(s) && Enabled(s, t, a) && a.StartRegister?
    ensures OnePlace(Apply(s, t, a))
  {
    var s' := Apply(s, t, a);
    forall h, p | At(s', h, p)
      ensures if h == a.h then p == InThread(t, 0) else At(s, h, p)
    {
      assert p.InThread? && p.t != t ==> s'.threads[p.t] == s.threads[p.t];
      assert h == a.h && p != InThread(t, 0) ==> At(s, h, p);
    }
    forall h | h in s'.sh.hs.started
      ensures exists p :: At(s', h, p)
    {
      if h == a.h {
        assert At(s', h, InThread(t, 0));
      } else {
        var p :| At(s, h, p);
        assert At(s', h, p);
      }
    }
  }

  // ---------------------------------------------------------------- results over every run

  lemma {:induction false} RunInv(run: seq<State>, i: nat)
    requires IsRun(run) && i < |run|
    ensures Inv(run[i]) && OnePlace(run[i])
  {
    if i == 0 {
      InitInv(run[0]);
    } else {
      RunInv(run, i - 1);
      assert Step(run[i - 1], run[i - 1 + 1]);
      var t: ThreadId, a: Action :| Enabled(run[i - 1], t, a) && run[i] == Apply(run[i - 1], t, a);
      StepInv(run[i - 1], t, a);
      StepOnePlace(run[i - 1], t, a);
    }
  }

  /** Every suspension gets exactly one successful schedule CAS, and no check in the code ever fails. */
  lemma OneSchedulePerSuspension(run: seq<State>, i: nat)
    requires IsRun(run) && i < |run|
    ensures !run[i].sh.core.panic
    ensures var c := run[i].sh.core;
            c.suspends == c.schedules + if c.run.susp && !c.run.term then 1 else 0
  {
    RunInv(run, i);
  }

  /** A ready state has exactly one thread committed to scheduling it, and it will not give up. */
  lemma ReadyIsCommitted(run: seq<State>, i: nat)
    requires IsRun(run) && i < |run|
    ensures IsReady(run[i].sh.core.run)
            <==> exists t :: 0 <= t < |run[i].threads| && run[i].threads[t].ScheduleCas?
    ensures forall t, u :: 0 <= t < |run[i].threads| && 0 <= u < |run[i].threads| ==>
              (run[i].threads[t].ScheduleCas? && run[i].threads[u].ScheduleCas? ==> t == u)
    ensures forall t :: 0 <= t < |run[i].threads| && run[i].threads[t].ScheduleCas?
                        ==> IsReady(run[i].threads[t].observed.run)
  {
    RunInv(run, i);
    var s := run[i];
    assert forall t :: 0 <= t < |s.threads| ==> Schedules(s.threads[t]) == s.threads[t].ScheduleCas?;
  }

  /** The continuation has one owner: a posted activation, the thread that runs it, a dumper, or nobody while suspended. */
  lemma OneOwner(run: seq<State>, i: nat, t: ThreadId, u: ThreadId)
    requires IsRun(run) && i < |run| && t < |run[i].threads| && u < |run[i].threads|
    ensures run[i].threads[t].Own? && run[i].threads[u].Own? ==> t == u
    ensures run[i].threads[t].Own? ==> run[i].sh.core.posted == 0 && !run[i].sh.core.run.susp
    ensures run[i].threads[t].Own? ==> !run[i].threads[u].Dump?
    ensures run[i].threads[t].Dump? && run[i].threads[u].Dump? ==> t == u
    ensures run[i].threads[t].Dump? ==> run[i].sh.core.posted == 0 && run[i].sh.core.run.susp
    ensures run[i].sh.core.posted <= 1
  {
    RunInv(run, i);
    var s := run[i];
    assert ThreadOk(s.sh, s.threads[t]) && ThreadOk(s.sh, s.threads[u]);
    assert Owns(s.threads[t]) == s.threads[t].Own? && Owns(s.threads[u]) == s.threads[u].Own?;
    assert Dumps(s.threads[t]) == s.threads[t].Dump? && Dumps(s.threads[u]) == s.threads[u].Dump?;
  }

  /** No completion handler runs twice, and none before the task is terminal. */
  lemma HandlersRunOnceAfterTheEnd(run: seq<State>, i: nat, k: nat, l: nat)
    requires IsRun(run) && i < |run| && k < |run[i].sh.hs.invoked| && l < |run[i].sh.hs.invoked|
    ensures IsTerminal(run[i].sh.core.run)
    ensures run[i].sh.hs.invoked[k] == run[i].sh.hs.invoked[l] ==> k == l
  {
    RunInv(run, i);
    assert At(run[i], run[i].sh.hs.invoked[k], Done(k)) && At(run[i], run[i].sh.hs.invoked[l], Done(l));
  }

  /** When a terminal task's threads have all finished, every registered handler has run. */
  lemma NoHandlerIsStranded(run: seq<State>, i: nat, h: HandlerId)
    requires IsRun(run) && i < |run| && h in run[i].sh.hs.started && IsTerminal(run[i].sh.core.run)
    requires forall t :: 0 <= t < |run[i].threads| ==> run[i].threads[t] == Idle
    ensures exists k :: 0 <= k < |run[i].sh.hs.invoked| && run[i].sh.hs.invoked[k] == h
  {
    RunInv(run, i);
    var s := run[i];
    assert forall t :: 0 <= t < |s.threads| ==> !WillClose(s.threads[t]) && !HoldsHandlers(s.threads[t]);
    var p :| At(s, h, p);
  }

  /** A committed scheduler, left alone, takes the task out of suspension within two accesses. */
  lemma CommittedSchedulerSucceeds(run: seq<State>, i: nat, t: ThreadId)
    requires IsRun(run) && i < |run| && t < |run[i].threads| && run[i].threads[t].ScheduleCas?
    ensures var once := Apply(run[i], t, Advance(false));
            || once.threads[t] == Own(Post)
            || (Enabled(once, t, Advance(false)) && Apply(once, t, Advance(false)).threads[t] == Own(Post))
  {
    RunInv(run, i);
    assert ThreadOk(run[i].sh, run[i].threads[t]);
  }

  // ---------------------------------------------------------------- only its own end makes a task terminal

  ghost predicate TakesStep(s: State, a: Action, s': State) { exists t :: Enabled(s, t, a) && s' == Apply(s, t, a) }

  /** Neither the end nor the place of the task's code is touched. */
  predicate SameCode(c: Core, c': Core) { c'.run.term == c.run.term && c'.code == c.code }

  lemma EventKeepsCode(sh: Shared, c: Core)
    ensures SameCode(c, HandleEvent(sh, c).sh.core)
  {
  }

  /** Only the first resumption moves the code, from its entry into the body. */
  predicate OwnerCode(c: Core, at: OwnAt, c': Core) {
    c'.run.term == c.run.term && c'.code == if at == Resumed && c.code == Entry then Body else c.code
  }

  lemma OwnerKeepsCode(sh: Shared, at: OwnAt)
    requires at != Running
    ensures OwnerCode(sh.core, at, NextOwner(sh, at).sh.core)
  {
    var c := sh.core;
    match at
    case Ctor => EventKeepsCode(sh, c.(signal := Fired, suspends := c.suspends + 1, run := c.run.(susp := true, have := true)));
    case AfterRun =>
      EventKeepsCode(sh, c.(suspends := if c.run.term then c.suspends else c.suspends + 1, run := c.run.(susp := true)));
    case _ =>
  }

  lemma SchedulersKeepCode(sh: Shared, observed: Word, spurious: bool)
    ensures SameCode(sh.core, NextSchedule(sh, observed, spurious).sh.core)
    ensures SameCode(sh.core, NextDumpCas(sh, observed, spurious).sh.core)
  {
  }

  lemma DumpersKeepCode(sh: Shared, at: DumpAt, spurious: bool)
    ensures SameCode(sh.core, NextDump(sh, at, spurious).sh.core)
  {
  }

  lemma HandlersKeepCode(sh: Shared, at: CompleteAt, reg: RegisterAt, h: HandlerId)
    ensures SameCode(sh.core, NextComplete(sh, at).sh.core) && SameCode(sh.core, NextRegister(sh, reg, h).sh.core)
  {
  }

  lemma AdvanceKeepsCode(sh: Shared, th: Thread, spurious: bool)
    requires Allowed(sh, th, Advance(spurious))
    ensures var c := Next(sh, th, Advance(spurious)).sh.core;
            if th.Own? then OwnerCode(sh.core, th.own, c) else SameCode(sh.core, c)
  {
    match th
    case Own(at) => OwnerKeepsCode(sh, at);
    case ScheduleCas(observed) => SchedulersKeepCode(sh, observed, spurious);
    case DumpCas(observed) => SchedulersKeepCode(sh, observed, spurious);
    case Dump(at) => DumpersKeepCode(sh, at, spurious);
    case Complete(at) => HandlersKeepCode(sh, at, Test, 0);
    case Register(at, h) => HandlersKeepCode(sh, Checks, at, h);
  }

  lemma StartKeepsCode(sh: Shared, th: Thread, a: Action)
    requires Allowed(sh, th, a) && !a.Advance? && !a.InBody?
    ensures SameCode(sh.core, Next(sh, th, a).sh.core)
  {
    if a.FireSignal? { EventKeepsCode(sh, sh.core.(signal := Fired, fired := true, run := sh.core.run.(have := true))); }
  }

  /** The end of the body, and nothing else, makes a task terminal, for good. */
  lemma NextTerm(sh: Shared, th: Thread, a: Action)
    requires Allowed(sh, th, a)
    ensures Next(sh, th, a).sh.core.run.term <==> sh.core.run.term || a == InBody(Terminate)
  {
    match a
    case Advance(spurious) => AdvanceKeepsCode(sh, th, spurious);
    case InBody(act) => BodyTerm(sh, act);
    case _ => StartKeepsCode(sh, th, a);
  }

  lemma BodyTerm(sh: Shared, act: BodyAction)
    requires BodyAllowed(sh.core, act)
    ensures NextBody(sh, act).sh.core.run.term <==> sh.core.run.term || act == Terminate
  {
    match act
    case BeginAwait =>
    case IssueHandler =>
    case YieldInAwait =>
    case Yield =>
    case ReturnFromAwait =>
    case Terminate =>
  }

  /** In every run a task is terminal only if its body has come to its end. */
  lemma {:induction false} TerminalIsItsOwnEnd(run: seq<State>, i: nat)
    requires IsRun(run) && i < |run| && run[i].sh.core.run.term
    ensures exists k :: 0 <= k < i && TakesStep(run[k], InBody(Terminate), run[k + 1])
  {
    if i > 0 {
      var k := i - 1;
      assert Step(run[k], run[k + 1]);
      var t: ThreadId, a: Action :| Enabled(run[k], t, a) && run[k + 1] == Apply(run[k], t, a);
      NextTerm(run[k].sh, run[k].threads[t], a);
      if run[k].sh.core.run.term {
        TerminalIsItsOwnEnd(run, k);
      } else {
        assert TakesStep(run[k], InBody(Terminate), run[k + 1]);
      }
    }
  }

  // ---------------------------------------------------------------- a task that is not waiting goes on

  datatype Turn = Turn(t: ThreadId, a: Action)

  /** What threads under way and the executor do by themselves. */
  predicate GoesOn(a: Action) { a == Advance(false) || a == TakeActivation }

  /** Takes the turns in order; one that is not possible is skipped. */
  function Exec(s: State, turns: seq<Turn>): State
    decreases |turns|
  {
    if turns == [] then s
    else if GoesOn(turns[0].a) && Enabled(s, turns[0].t, turns[0].a) then Exec(Apply(s, turns[0].t, turns[0].a), turns[1..])
    else Exec(s, turns[1..])
  }

  /** Some thread runs the task's code, at `code`. */
  ghost predicate Runs(s: State, code: Code) {
    s.sh.core.code == code && !s.sh.core.panic && exists t :: 0 <= t < |s.threads| && s.threads[t] == Own(Running)
  }

  ghost predicate CanRun(s: State, code: Code) { exists turns :: Runs(Exec(s, turns), code) }

  lemma AfterTurn(s: State, t: ThreadId, a: Action, code: Code)
    requires GoesOn(a) && Enabled(s, t, a) && CanRun(Apply(s, t, a), code)
    ensures CanRun(s, code)
  {
    var rest :| Runs(Exec(Apply(s, t, a), rest), code);
    assert ([Turn(t, a)] + rest)[1..] == rest;
    assert Runs(Exec(s, [Turn(t, a)] + rest), code);
  }

  /** Where the code is found when it goes on. */
  function CodeOn(code: Code): Code { if code == Entry then Body else code }

  /** Nothing the task waits for is outstanding. */
  predicate NotWaiting(c: Core) { !c.run.term && (c.signal == NoSignal || c.signal == Fired) }

  lemma RunningRuns(s: State, t: ThreadId)
    requires Inv(s) && t < |s.threads| && s.threads[t] == Own(Running)
    ensures CanRun(s, s.sh.core.code)
  {
    assert Runs(Exec(s, []), s.sh.core.code);
  }

  lemma ResumedRuns(s: State, t: ThreadId)
    requires Inv(s) && t < |s.threads| && s.threads[t] == Own(Resumed)
    ensures CanRun(s, CodeOn(s.sh.core.code))
  {
    assert ThreadOk(s.sh, s.threads[t]);
    StepInv(s, t, Advance(false));
    RunningRuns(Apply(s, t, Advance(false)), t);
    AfterTurn(s, t, Advance(false), CodeOn(s.sh.core.code));
  }

  lemma ActivatedRuns(s: State, t: ThreadId)
    requires Inv(s) && t < |s.threads| && s.threads[t] == Own(Activated)
    ensures CanRun(s, CodeOn(s.sh.core.code))
  {
    StepInv(s, t, Advance(false));
    ResumedRuns(Apply(s, t, Advance(false)), t);
    AfterTurn(s, t, Advance(false), CodeOn(s.sh.core.code));
  }

  /** A posted activation needs a thread of the executor to take it. */
  lemma PostedRuns(s: State, t: ThreadId)
    requires Inv(s) && t < |s.threads| && s.threads[t].Idle? && s.sh.core.posted > 0
    ensures CanRun(s, CodeOn(s.sh.core.code))
  {
    StepInv(s, t, TakeActivation);
    ActivatedRuns(Apply(s, t, TakeActivation), t);
    AfterTurn(s, t, TakeActivation, CodeOn(s.sh.core.code));
  }

  lemma PostRuns(s: State, t: ThreadId)
    requires Inv(s) && t < |s.threads| && s.threads[t] == Own(Post)
    ensures CanRun(s, CodeOn(s.sh.core.code))
  {
    StepInv(s, t, Advance(false));
    PostedRuns(Apply(s, t, Advance(false)), t);
    AfterTurn(s, t, Advance(false), CodeOn(s.sh.core.code));
  }

  lemma ScheduledRuns(s: State, t: ThreadId)
    requires Inv(s) && t < |s.threads| && s.threads[t].ScheduleCas?
    ensures CanRun(s, CodeOn(s.sh.core.code))
    decreases WordOf(s.sh) != s.threads[t].observed
  {
    assert ThreadOk(s.sh, s.threads[t]);
    var s' := Apply(s, t, Advance(false));
    StepInv(s, t, Advance(false));
    if WordOf(s.sh) == s.threads[t].observed { PostRuns(s', t); } else { ScheduledRuns(s', t); }
    AfterTurn(s, t, Advance(false), CodeOn(s.sh.core.code));
  }

  lemma SuspendedRuns(s: State, t: ThreadId)
    requires Inv(s) && t < |s.threads| && s.threads[t] == Own(AfterRun) && NotWaiting(s.sh.core)
    ensures CanRun(s, CodeOn(s.sh.core.code))
  {
    assert ThreadOk(s.sh, s.threads[t]);
    StepInv(s, t, Advance(false));
    ScheduledRuns(Apply(s, t, Advance(false)), t);
    AfterTurn(s, t, Advance(false), CodeOn(s.sh.core.code));
  }

  function DumpRank(sh: Shared, at: DumpAt): nat {
    match at
    case Resume => 5
    case InTask => 4
    case Back => 3
    case Clear(observed) => if WordOf(sh) == observed then 1 else 2
  }

  lemma DumpStep(sh: Shared, at: DumpAt)
    requires SharedOk(sh) && ThreadOk(sh, Dump(at)) && NotWaiting(sh.core)
    ensures var m := NextDump(sh, at, false);
            && NotWaiting(m.sh.core) && m.sh.core.code == sh.core.code
            && if m.th.Dump? then DumpRank(m.sh, m.th.dump) < DumpRank(sh, at) else m.th.ScheduleCas?
  {
  }

  /** A stack-trace dumper hands the task on. */
  lemma DumpedRuns(s: State, t: ThreadId)
    requires Inv(s) && t < |s.threads| && s.threads[t].Dump? && NotWaiting(s.sh.core)
    ensures CanRun(s, CodeOn(s.sh.core.code))
    decreases DumpRank(s.sh, s.threads[t].dump)
  {
    assert ThreadOk(s.sh, s.threads[t]);
    DumpStep(s.sh, s.threads[t].dump);
    var s' := Apply(s, t, Advance(false));
    StepInv(s, t, Advance(false));
    if s'.threads[t].Dump? { DumpedRuns(s', t); } else { ScheduledRuns(s', t); }
    AfterTurn(s, t, Advance(false), CodeOn(s.sh.core.code));
  }

  lemma OwnedRuns(s: State, t: ThreadId)
    requires Inv(s) && t < |s.threads| && s.threads[t].Own? && NotWaiting(s.sh.core)
    ensures CanRun(s, CodeOn(s.sh.core.code))
  {
    assert ThreadOk(s.sh, s.threads[t]);
    match s.threads[t].own
    case Post => PostRuns(s, t);
    case Activated => ActivatedRuns(s, t);
    case Resumed => ResumedRuns(s, t);
    case Running => RunningRuns(s, t);
    case AfterRun => SuspendedRuns(s, t);
    case _ =>
  }

  /**
    In every reachable state, a task that is not terminal and waits for nothing goes on where it was:
    whoever has it, the threads under way bring it back to running, given a thread for a posted activation.
   */
  lemma TaskGoesOn(run: seq<State>, i: nat)
    requires IsRun(run) && i < |run| && NotWaiting(run[i].sh.core)
    requires run[i].sh.core.posted > 0 ==> exists t :: 0 <= t < |run[i].threads| && run[i].threads[t].Idle?
    ensures CanRun(run[i], CodeOn(run[i].sh.core.code))
  {
    RunInv(run, i);
    var s := run[i];
    if s.sh.core.posted > 0 {
      var t :| 0 <= t < |s.threads| && s.threads[t].Idle?;
      PostedRuns(s, t);
    } else if !s.sh.core.run.susp {
      var t :| 0 <= t < |s.threads| && Owns(s.threads[t]);
      OwnedRuns(s, t);
    } else if s.sh.core.run.trace {
      var t :| 0 <= t < |s.threads| && Dumps(s.threads[t]);
      DumpedRuns(s, t);
    } else {
      var t :| 0 <= t < |s.threads| && Schedules(s.threads[t]);
      ScheduledRuns(s, t);
    }
  }

  /** A task that yields is not over: it goes on with its body. */
  lemma YieldGoesOn(run: seq<State>, i: nat, t: ThreadId)
    requires IsRun(run) && i < |run| && Enabled(run[i], t, InBody(Yield)) && run[i].sh.core.code == Body
    ensures var s := Apply(run[i], t, InBody(Yield)); !s.sh.core.run.term && CanRun(s, Body)
  {
    RunInv(run, i);
    assert ThreadOk(run[i].sh, run[i].threads[t]);
    StepInv(run[i], t, InBody(Yield));
    SuspendedRuns(Apply(run[i], t, InBody(Yield)), t);
  }

  /** A task in an await comes back from it once it was signalled: it goes on in the await, and the check there passes. */
  lemma SignalledAwaitReturns(run: seq<State>, i: nat, t: ThreadId)
    requires IsRun(run) && i < |run| && run[i].sh.core.code == AwaitYield && Enabled(run[i], t, FireSignal)
    ensures var s := Apply(run[i], t, FireSignal); CanRun(s, AwaitYield)
  {
    RunInv(run, i);
    var s := Apply(run[i], t, FireSignal);
    StepInv(run[i], t, FireSignal);
    assert ThreadOk(run[i].sh, run[i].threads[t]);
    if s.threads[t].ScheduleCas? {
      ScheduledRuns(s, t);
    } else if !s.sh.core.run.susp {
      SignalledWhileOwned(s, t);
    } else {
      var u :| 0 <= u < |s.threads| && Dumps(s.threads[u]);
      DumpedRuns(s, u);
    }
  }

  lemma SignalledWhileOwned(s: State, t: ThreadId)
    requires Inv(s) && t < |s.threads| && s.threads[t].Idle? && !s.sh.core.run.susp && NotWaiting(s.sh.core) && s.sh.core.code == AwaitYield
    ensures CanRun(s, AwaitYield)
  {
    if s.sh.core.posted > 0 {
      PostedRuns(s, t);
    } else {
      var u :| 0 <= u < |s.threads| && Owns(s.threads[u]);
      OwnedRuns(s, u);
    }
  }

  /** Back in the await, the task returns to its body. */
  lemma AwaitEnds(run: seq<State>, i: nat, t: ThreadId)
    requires IsRun(run) && i < |run| && t < |run[i].threads| && run[i].threads[t] == Own(Running) && run[i].sh.core.code == AwaitYield
    ensures Enabled(run[i], t, InBody(ReturnFromAwait))
    ensures var s := Apply(run[i], t, InBody(ReturnFromAwait)); Runs(s, Body)
  {
    RunInv(run, i);
    assert ThreadOk(run[i].sh, run[i].threads[t]);
    var s := Apply(run[i], t, InBody(ReturnFromAwait));
    StepInv(run[i], t, InBody(ReturnFromAwait));
    assert s.threads[t] == Own(Running);
  }

  /** The step hands out the handler, and it is not called before `i`. */
  ghost predicate IssuedAt(run: seq<State>, k: nat, i: nat)
    requires k < i < |run|
  {
    TakesStep(run[k], InBody(IssueHandler), run[k + 1]) && forall j :: k < j <= i ==> run[j].sh.core.signal == Pending
  }

  /** A handler that can be called was handed out before, and not called since. */
  lemma {:induction false} PendingWasIssued(run: seq<State>, i: nat)
    requires IsRun(run) && i < |run| && run[i].sh.core.signal == Pending
    ensures exists k :: 0 <= k < i && IssuedAt(run, k, i)
  {
    if i > 0 {
      var k := i - 1;
      assert Step(run[k], run[k + 1]);
      var t: ThreadId, a: Action :| Enabled(run[k], t, a) && run[i] == Apply(run[k], t, a);
      if run[k].sh.core.signal == Pending {
        PendingWasIssued(run, k);
        var j :| 0 <= j < k && IssuedAt(run, j, k);
        assert IssuedAt(run, j, i);
      } else {
        IssuedOnly(run[k].sh, run[k].threads[t], a);
        assert IssuedAt(run, k, i);
      }
    }
  }

  lemma OwnerIssuesNothing(sh: Shared, at: OwnAt)
    requires at != Running
    ensures NextOwner(sh, at).sh.core.signal == Pending ==> sh.core.signal == Pending
  {
  }

  lemma OthersIssueNothing(sh: Shared, observed: Word, at: DumpAt, spurious: bool)
    ensures NextSchedule(sh, observed, spurious).sh.core.signal == Pending ==> sh.core.signal == Pending
    ensures NextDumpCas(sh, observed, spurious).sh.core.signal == Pending ==> sh.core.signal == Pending
    ensures NextDump(sh, at, spurious).sh.core.signal == Pending ==> sh.core.signal == Pending
  {
  }

  lemma HandlersIssueNothing(sh: Shared, at: CompleteAt, reg: RegisterAt, h: HandlerId)
    ensures NextComplete(sh, at).sh.core.signal == sh.core.signal
    ensures NextRegister(sh, reg, h).sh.core.signal == sh.core.signal
  {
  }

  lemma IssuedOnly(sh: Shared, th: Thread, a: Action)
    requires Allowed(sh, th, a) && sh.core.signal != Pending && Next(sh, th, a).sh.core.signal == Pending
    ensures a == InBody(IssueHandler)
  {
    if a.Advance? {
      match th
      case Own(at) => OwnerIssuesNothing(sh, at);
      case ScheduleCas(observed) => OthersIssueNothing(sh, observed, Resume, a.spurious);
      case DumpCas(observed) => OthersIssueNothing(sh, observed, Resume, a.spurious);
      case Dump(at) => OthersIssueNothing(sh, WordOf(sh), at, a.spurious);
      case Complete(at) => HandlersIssueNothing(sh, at, Test, 0);
      case Register(at, h) => HandlersIssueNothing(sh, Checks, at, h);
    }
  }

  // ---------------------------------------------------------------- every operation comes to its end

  /** The thread is idle or runs the task's code. */
  predicate Settled(th: Thread) { th.Idle? || th == Own(Running) }

  function TestRank(terminal: bool): nat { if terminal then 2 else 4 }

  function RegisterRank(terminal: bool, at: RegisterAt): nat {
    match at
    case Test => TestRank(terminal)
    case TakeLock => if terminal then 5 else 3
    case Locked(prior) => if IsTerminal(prior.run) || prior.handlersClosed then TestRank(terminal) + 2 else 2
    case Retry => TestRank(terminal) + 1
    case Pushed => 1
    case InvokeNow => 1
  }

  function CompleteRank(list: nat, at: CompleteAt): nat {
    match at
    case Checks => list + 6
    case AwaitLock => list + 5
    case Close => list + 4
    case Take => list + 3
    case Unlock(local) => |local| + 2
    case Invoke(local, next) => if next < |local| then |local| - next + 1 else 1
  }

  function OwnRank(list: nat, at: OwnAt): nat {
    match at
    case Ctor => 4
    case Post => 1
    case Activated => 2
    case Resumed => 1
    case Running => 0
    case Exited => list + 9
    case AfterRun => list + 8
  }

  /** The accesses a thread has before it, if no other moves. */
  function Rank(sh: Shared, th: Thread): nat {
    match th
    case Idle => 0
    case Own(at) => OwnRank(|sh.hs.list|, at)
    case ScheduleCas(observed) => if WordOf(sh) == observed then 2 else 3
    case DumpCas(observed) => if WordOf(sh) == observed then 9 else 10
    case Dump(at) => DumpRank(sh, at) + 3
    case Complete(at) => CompleteRank(|sh.hs.list|, at)
    case Register(at, _) => RegisterRank(IsTerminal(sh.core.run), at)
  }

  /** The lock of the handler list is free, or the thread has it. */
  predicate Unhindered(sh: Shared, th: Thread) { sh.hs.lock ==> HoldsHandlers(th) }

  predicate Nearer(sh: Shared, th: Thread, m: Move) { Rank(m.sh, m.th) < Rank(sh, th) && Unhindered(m.sh, m.th) }

  lemma OwnerNearer(sh: Shared, at: OwnAt)
    requires at != Running && SharedOk(sh) && ThreadOk(sh, Own(at)) && !sh.hs.lock
    ensures Nearer(sh, Own(at), NextOwner(sh, at))
  {
  }

  lemma DumpersNearer(sh: Shared, at: DumpAt, observed: Word)
    requires SharedOk(sh) && !sh.hs.lock
    ensures ThreadOk(sh, Dump(at)) ==> Nearer(sh, Dump(at), NextDump(sh, at, false))
    ensures Nearer(sh, DumpCas(observed), NextDumpCas(sh, observed, false))
    ensures ThreadOk(sh, ScheduleCas(observed)) ==> Nearer(sh, ScheduleCas(observed), NextSchedule(sh, observed, false))
  {
  }

  lemma HandlersNearer(sh: Shared, at: CompleteAt, reg: RegisterAt, h: HandlerId)
    requires SharedOk(sh)
    ensures ThreadOk(sh, Complete(at)) && Unhindered(sh, Complete(at)) ==> Nearer(sh, Complete(at), NextComplete(sh, at))
    ensures ThreadOk(sh, Register(reg, h)) && Unhindered(sh, Register(reg, h)) ==> Nearer(sh, Register(reg, h), NextRegister(sh, reg, h))
  {
  }

  lemma GoesNearer(sh: Shared, th: Thread)
    requires !Settled(th) && SharedOk(sh) && ThreadOk(sh, th) && Unhindered(sh, th)
    ensures Allowed(sh, th, Advance(false)) && Nearer(sh, th, Next(sh, th, Advance(false)))
  {
    match th
    case Own(at) => OwnerNearer(sh, at);
    case ScheduleCas(observed) => DumpersNearer(sh, Resume, observed);
    case DumpCas(observed) => DumpersNearer(sh, Resume, observed);
    case Dump(at) => DumpersNearer(sh, at, WordOf(sh));
    case Complete(at) => HandlersNearer(sh, at, Test, 0);
    case Register(at, h) => HandlersNearer(sh, Checks, at, h);
  }

  function Busy(threads: seq<Thread>): nat {
    if threads == [] then 0 else (if Settled(threads[0]) then 0 else 1) + Busy(threads[1..])
  }

  lemma {:induction false} BusyUpdate(threads: seq<Thread>, t: nat, th: Thread)
    requires t < |threads| && !Settled(threads[t])
    ensures Busy(threads[t := th]) == if Settled(th) then Busy(threads) - 1 else Busy(threads)
  {
    if t == 0 {
      assert threads[0 := th][1..] == threads[1..];
    } else {
      assert threads[t := th][1..] == threads[1..][t - 1 := th];
      BusyUpdate(threads[1..], t - 1, th);
    }
  }

  ghost predicate AllSettled(s: State) { forall t :: 0 <= t < |s.threads| ==> Settled(s.threads[t]) }

  /** Takes turns in which threads under way go on. */
  ghost predicate Leads(s: State, s': State) { exists turns :: OnlyAdvances(turns) && Exec(s, turns) == s' }

  predicate OnlyAdvances(turns: seq<Turn>) { forall i :: 0 <= i < |turns| ==> turns[i].a == Advance(false) }

  lemma LeadsFirst(s: State, t: ThreadId, s': State)
    requires Enabled(s, t, Advance(false)) && Leads(Apply(s, t, Advance(false)), s')
    ensures Leads(s, s')
  {
    var rest :| OnlyAdvances(rest) && Exec(Apply(s, t, Advance(false)), rest) == s';
    var turns := [Turn(t, Advance(false))] + rest;
    assert turns[1..] == rest;
    assert OnlyAdvances(turns) && Exec(s, turns) == s';
  }

  /** What going on keeps. */
  ghost predicate KeepsEnd(s: State, s': State) {
    && Inv(s') && OnePlace(s') && s'.sh.hs.started == s.sh.hs.started
    && (IsTerminal(s.sh.core.run) ==> IsTerminal(s'.sh.core.run))
  }

  lemma StaysTerminal(s: State, t: ThreadId)
    requires Inv(s) && Enabled(s, t, Advance(false)) && IsTerminal(s.sh.core.run)
    ensures IsTerminal(Apply(s, t, Advance(false)).sh.core.run)
  {
    assert ThreadOk(s.sh, s.threads[t]);
  }

  lemma StartedStays(sh: Shared, th: Thread)
    requires Allowed(sh, th, Advance(false))
    ensures Next(sh, th, Advance(false)).sh.hs.started == sh.hs.started
  {
  }

  lemma AdvanceKeepsEnd(s: State, t: ThreadId)
    requires Inv(s) && OnePlace(s) && Enabled(s, t, Advance(false))
    ensures KeepsEnd(s, Apply(s, t, Advance(false)))
  {
    StepInv(s, t, Advance(false));
    StepOnePlace(s, t, Advance(false));
    StartedStays(s.sh, s.threads[t]);
    if IsTerminal(s.sh.core.run) { StaysTerminal(s, t); }
  }

  /** One thread after the other goes on until it is settled, the holder of the lock first. */
  lemma {:induction false} EndsFrom(s: State, t: ThreadId) returns (s': State)
    requires Inv(s) && OnePlace(s) && t < |s.threads| && Unhindered(s.sh, s.threads[t])
    ensures Leads(s, s') && AllSettled(s') && KeepsEnd(s, s')
    decreases Busy(s.threads), if Settled(s.threads[t]) then 1 else 0, Rank(s.sh, s.threads[t])
  {
    var th := s.threads[t];
    assert ThreadOk(s.sh, th);
    if Settled(th) {
      if AllSettled(s) {
        s' := s;
        assert OnlyAdvances([]) && Exec(s, []) == s;
      } else {
        var u :| 0 <= u < |s.threads| && !Settled(s.threads[u]);
        s' := EndsFrom(s, u);
      }
    } else {
      GoesNearer(s.sh, th);
      var next := Apply(s, t, Advance(false));
      BusyUpdate(s.threads, t, next.threads[t]);
      AdvanceKeepsEnd(s, t);
      s' := EndsFrom(next, t);
      LeadsFirst(s, t, s');
    }
  }

  /** From every reachable state all operations under way can come to their ends; only the task's code may be left running. */
  lemma OperationsEnd(run: seq<State>, i: nat) returns (s': State)
    requires IsRun(run) && i < |run|
    ensures Leads(run[i], s') && AllSettled(s') && KeepsEnd(run[i], s')
  {
    RunInv(run, i);
    StartHasThreads(run, i);
    var s := run[i];
    if s.sh.hs.lock {
      var t :| 0 <= t < |s.threads| && HoldsHandlers(s.threads[t]);
      s' := EndsFrom(s, t);
    } else {
      s' := EndsFrom(s, 0);
    }
  }

  lemma {:induction false} StartHasThreads(run: seq<State>, i: nat)
    requires IsRun(run) && i < |run|
    ensures |run[i].threads| > 0
  {
    if i > 0 {
      StartHasThreads(run, i - 1);
      assert Step(run[i - 1], run[i - 1 + 1]);
    }
  }

  lemma StartedGrows(s: State, t: ThreadId, a: Action)
    requires Enabled(s, t, a)
    ensures s.sh.hs.started <= Apply(s, t, a).sh.hs.started
    ensures a.StartRegister? ==> a.h in Apply(s, t, a).sh.hs.started
  {
    if !a.StartRegister? { StartedKept(s.sh, s.threads[t], a); }
  }

  lemma StepStarted(s: State, s': State)
    requires Step(s, s')
    ensures s.sh.hs.started <= s'.sh.hs.started
  {
    var t: ThreadId, a: Action :| Enabled(s, t, a) && s' == Apply(s, t, a);
    StartedGrows(s, t, a);
  }

  lemma RegisterStarts(s: State, s': State, h: HandlerId)
    requires TakesStep(s, StartRegister(h), s')
    ensures h in s'.sh.hs.started
  {
    var t :| Enabled(s, t, StartRegister(h)) && s' == Apply(s, t, StartRegister(h));
    StartedGrows(s, t, StartRegister(h));
  }

  ghost predicate StartedOnlyGrows(run: seq<State>) {
    forall i :: 0 <= i < |run| - 1 ==> run[i].sh.hs.started <= run[i + 1].sh.hs.started
  }

  lemma RunStarted(run: seq<State>)
    requires IsRun(run)
    ensures StartedOnlyGrows(run)
  {
    forall i | 0 <= i < |run| - 1 ensures run[i].sh.hs.started <= run[i + 1].sh.hs.started { StepStarted(run[i], run[i + 1]); }
  }

  lemma {:induction false} StaysStarted(run: seq<State>, k: nat, i: nat)
    requires StartedOnlyGrows(run) && k <= i < |run|
    ensures run[k].sh.hs.started <= run[i].sh.hs.started
    decreases i
  {
    if k < i {
      StaysStarted(run, k, i - 1);
      assert run[i - 1].sh.hs.started <= run[i - 1 + 1].sh.hs.started;
    }
  }

  /** A handler whose registration was started counts as started. */
  lemma RegisteredIsStarted(run: seq<State>, k: nat, i: nat, h: HandlerId)
    requires IsRun(run) && k < i < |run| && TakesStep(run[k], StartRegister(h), run[k + 1])
    ensures h in run[i].sh.hs.started
  {
    RegisterStarts(run[k], run[k + 1], h);
    RunStarted(run);
    StaysStarted(run, k + 1, i);
  }

  /** Once the task is terminal, every handler that was registered, before or after, can be run, and is then run once. */
  lemma HandlersAreRun(run: seq<State>, k: nat, i: nat, h: HandlerId) returns (s': State)
    requires IsRun(run) && k < i < |run| && TakesStep(run[k], StartRegister(h), run[k + 1]) && IsTerminal(run[i].sh.core.run)
    ensures Leads(run[i], s') && multiset(s'.sh.hs.invoked)[h] == 1
  {
    RegisteredIsStarted(run, k, i, h);
    s' := OperationsEnd(run, i);
    forall t | 0 <= t < |s'.threads| ensures s'.threads[t].Idle? && !WillClose(s'.threads[t]) && !HoldsHandlers(s'.threads[t]) {
      assert ThreadOk(s'.sh, s'.threads[t]);
    }
    InvokedOnce(s', h);
  }

  lemma InvokedOnce(s: State, h: HandlerId)
    requires Inv(s) && OnePlace(s) && IsTerminal(s.sh.core.run) && h in s.sh.hs.started
    requires forall t :: 0 <= t < |s.threads| ==> s.threads[t].Idle? && !WillClose(s.threads[t]) && !HoldsHandlers(s.threads[t])
    ensures multiset(s.sh.hs.invoked)[h] == 1
  {
    var p :| At(s, h, p);
    var invoked := s.sh.hs.invoked;
    forall l: nat | l < |invoked| && l != p.k ensures invoked[l] != h { assert At(s, h, Done(l)) == (invoked[l] == h); }
    OnlyAt(invoked, p.k);
  }

  lemma OnlyAt(s: seq<HandlerId>, k: nat)
    requires k < |s| && forall l :: 0 <= l < |s| && l != k ==> s[l] != s[k]
    ensures multiset(s)[s[k]] == 1
  {
    assert s == s[..k] + [s[k]] + s[k + 1..];
    assert s[k] !in s[..k] && s[k] !in s[k + 1..];
  }

  /** A stack-trace dump that is left alone gets the trace of a task that is suspended and not about to go on, and of no other. */
  lemma DumpAlone(run: seq<State>, i: nat, t: ThreadId)
    requires IsRun(run) && i < |run| && Enabled(run[i], t, StartDump)
    ensures var b, s := run[i].sh.core.run, Apply(Apply(run[i], t, StartDump), t, Advance(false));
            if b.susp && !IsReady(b) && !b.term && !b.trace
            then s.threads[t] == Dump(Resume) && Apply(Apply(s, t, Advance(false)), t, Advance(false)).sh.core.traced
            else s.sh == run[i].sh && s.threads[t].Idle?
  {
    RunInv(run, i);
  }
}
