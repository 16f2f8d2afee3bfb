/**
  `Queue` over the ticket `Mutex`: any number of producers and consumers, interleaved at every atomic
  operation.

  A producer checks that the queue is open, inserts its items under the lock and then raises the
  pending count; a consumer first lowers the count and then removes an item under the lock.
 */
module QueueOverMutex {

  type ThreadId = nat
  type Item = int

  /** What a thread takes the lock for, and what it then has taken out. */
  datatype Job = Insert(items: seq<Item>) | Remove | Removed(item: Item)

  datatype Thread =
    | Idle
    /** About to take a ticket. */
    | Enter(job: Job)
    /** In the loop that waits for the ticket's turn. */
    | Await(job: Job, ticket: nat)
    /** Has the lock and has not touched the items. */
    | Inside(job: Job, ticket: nat)
    /** Has the lock and is done with the items. */
    | Leave(job: Job, ticket: nat)
    /** About to raise the pending count. */
    | Notify(count: nat)
    /** A check of the source has failed. */
    | Panicked

  datatype Shared = Shared(
    pending: nat,
    open: bool,
    nextTicket: nat,
    currentTicket: nat,
    items: seq<Item>,
    /** History: everything inserted and everything removed, and who took which ticket. */
    inserted: seq<Item>,
    removed: seq<Item>,
    line: seq<ThreadId>)

  datatype State = State(sh: Shared, threads: seq<Thread>)

  datatype Action =
    | StartPush(items: seq<Item>)
    | StartPop
    | Close
    /** The waiting loop is given a value that the current ticket has had; it may be out of date. */
    | Observe(seen: nat)
    | Advance

  datatype Move = Move(sh: Shared, th: Thread)

  // ---------------------------------------------------------------- one atomic step

  predicate Allowed(sh: Shared, th: Thread, a: Action) {
    match a
    case StartPush(_) => th.Idle?
    case StartPop => th.Idle?
    case Close => th.Idle?
    case Observe(seen) => th.Await? && seen <= sh.currentTicket
    case Advance => !th.Idle? && !th.Await? && !th.Panicked?
  }

  function Next(sh: Shared, t: ThreadId, th: Thread, a: Action): Move
    requires Allowed(sh, th, a)
  {
    match a
    case StartPush(items) => Move(sh, if sh.open then Enter(Insert(items)) else Idle)
    case StartPop => if sh.pending > 0 then Move(sh.(pending := sh.pending - 1), Enter(Remove)) else Move(sh, Idle)
    case Close => Move(sh.(open := false), Idle)
    case Observe(seen) =>
      Move(sh, if seen < th.ticket then th else if seen == th.ticket then Inside(th.job, th.ticket) else Panicked)
    case Advance => NextAdvance(sh, t, th)
  }

  function NextAdvance(sh: Shared, t: ThreadId, th: Thread): Move
    requires !th.Idle? && !th.Await? && !th.Panicked?
  {
    match th
    case Enter(job) => Move(sh.(nextTicket := sh.nextTicket + 1, line := sh.line + [t]), Await(job, sh.nextTicket))
    case Inside(job, ticket) =>
      (match job
       case Insert(items) => Move(sh.(items := sh.items + items, inserted := sh.inserted + items), Leave(job, ticket))
       case _ =>
         if sh.items == [] then Move(sh, Panicked)
         else Move(sh.(items := sh.items[1..], removed := sh.removed + [sh.items[0]]), Leave(Removed(sh.items[0]), ticket)))
    case Leave(job, _) =>
      Move(sh.(currentTicket := sh.currentTicket + 1), if job.Insert? then Notify(|job.items|) else Idle)
    case Notify(count) => Move(sh.(pending := sh.pending + count), Idle)
  }

  predicate Enabled(s: State, t: ThreadId, a: Action) { t < |s.threads| && Allowed(s.sh, s.threads[t], a) }

  function Apply(s: State, t: ThreadId, a: Action): State
    requires Enabled(s, t, a)
  {
    var m := Next(s.sh, t, s.threads[t], a);
    State(m.sh, s.threads[t := m.th])
  }

  // ---------------------------------------------------------------- runs

  predicate Initial(s: State) {
    s.sh == Shared(0, true, 0, 0, [], [], [], []) && forall t :: 0 <= t < |s.threads| ==> s.threads[t].Idle?
  }

  ghost predicate AtRest(s: State) { forall t :: 0 <= t < |s.threads| ==> s.threads[t].Idle? }

  ghost predicate Step(s: State, s': State) {
    exists t: ThreadId, a: Action :: Enabled(s, t, a) && s' == Apply(s, t, a)
  }

  ghost predicate IsRun(run: seq<State>) {
    |run| > 0 && Initial(run[0]) && forall i :: 0 <= i < |run| - 1 ==> Step(run[i], run[i + 1])
  }

  // ---------------------------------------------------------------- the invariant

  /** Inserted items a thread has yet to announce, and announced items it has yet to remove. */
  function Owed(th: Thread): nat {
    match th
    case Enter(job) => if job.Insert? then 0 else 1
    case Await(job, _) => if job.Insert? then 0 else 1
    case Inside(job, _) => if job.Insert? then 0 else 1
    case Leave(job, _) => if job.Insert? then |job.items| else 0
    case Notify(count) => count
    case _ => 0
  }

  function Total(threads: seq<Thread>): nat {
    if threads == [] then 0 else Owed(threads[0]) + Total(threads[1..])
  }

  lemma {:induction false} TotalUpdate(threads: seq<Thread>, t: nat, th: Thread)
    requires t < |threads|
    ensures Total(threads[t := th]) + Owed(threads[t]) == Total(threads) + Owed(th)
  {
    if t == 0 {
      assert threads[0 := th][1..] == threads[1..];
    } else {
      assert threads[t := th][1..] == threads[1..][t - 1 := th];
      TotalUpdate(threads[1..], t - 1, th);
    }
  }

  lemma {:induction false} OwedInTotal(threads: seq<Thread>, t: nat)
    requires t < |threads|
    ensures Owed(threads[t]) <= Total(threads)
  {
    if t > 0 { OwedInTotal(threads[1..], t - 1); }
  }

  predicate HasTicket(th: Thread) { th.Await? || th.Inside? || th.Leave? }
  predicate Holds(th: Thread) { th.Inside? || th.Leave? }

  /** The deque holds the pending items, those not yet announced and those already claimed. */
  ghost predicate Counted(s: State) { |s.sh.items| == s.sh.pending + Total(s.threads) }

  ghost predicate InOrder(sh: Shared) { sh.inserted == sh.removed + sh.items }

  /** `k` has been given out and not been served yet. */
  predicate Waiting(sh: Shared, k: nat) { sh.currentTicket <= k < sh.nextTicket }

  ghost predicate TicketOk(sh: Shared, t: ThreadId, th: Thread) {
    && (HasTicket(th) ==> Waiting(sh, th.ticket) && th.ticket < |sh.line| && sh.line[th.ticket] == t)
    && (Holds(th) ==> th.ticket == sh.currentTicket)
    && !th.Panicked?
  }

  /** The threads in line, in the order in which they took their tickets. */
  ghost predicate InLine(s: State) {
    && |s.sh.line| == s.sh.nextTicket && s.sh.currentTicket <= s.sh.nextTicket
    && (forall t :: 0 <= t < |s.threads| ==> TicketOk(s.sh, t, s.threads[t]))
    && forall k: nat :: Waiting(s.sh, k) ==> Served(s.threads, s.sh.line[k], k)
  }

  predicate Served(threads: seq<Thread>, t: ThreadId, k: nat) {
    t < |threads| && HasTicket(threads[t]) && threads[t].ticket == k
  }

  ghost predicate Inv(s: State) { Counted(s) && InOrder(s.sh) && InLine(s) }

  lemma {:induction false} InitialTotal(threads: seq<Thread>)
    requires forall t :: 0 <= t < |threads| ==> threads[t].Idle?
    ensures Total(threads) == 0
  {
    if threads != [] { InitialTotal(threads[1..]); }
  }

  lemma InitialInv(s: State)
    requires Initial(s)
    ensures Inv(s)
  {
    InitialTotal(s.threads);
  }

  /** What one step does to the count, if it does not fail. */
  lemma MoveCounts(sh: Shared, t: ThreadId, th: Thread, a: Action)
    requires Allowed(sh, th, a) && !Next(sh, t, th, a).th.Panicked?
    ensures var m := Next(sh, t, th, a);
            |m.sh.items| + sh.pending + Owed(th) == |sh.items| + m.sh.pending + Owed(m.th)
  {
  }

  lemma MoveKeepsOrder(sh: Shared, t: ThreadId, th: Thread, a: Action)
    requires Allowed(sh, th, a) && InOrder(sh)
    ensures InOrder(Next(sh, t, th, a).sh)
  {
    if th.Inside? && a.Advance? {
      if th.job.Insert? {
        assert sh.removed + (sh.items + th.job.items) == sh.removed + sh.items + th.job.items;
      } else if |sh.items| > 0 {
        assert sh.removed + [sh.items[0]] + sh.items[1..] == sh.removed + sh.items;
      }
    }
  }

  /** The waiting loop never sees a ticket beyond its own, and whoever claimed an item finds one. */
  lemma NoPanic(s: State, t: ThreadId, a: Action)
    requires Inv(s) && Enabled(s, t, a)
    ensures !Apply(s, t, a).threads[t].Panicked?
  {
    assert TicketOk(s.sh, t, s.threads[t]);
    OwedInTotal(s.threads, t);
  }

  /** Tickets of threads that do not move. */
  lemma OthersKeepTickets(s: State, t: ThreadId, a: Action, u: ThreadId)
    requires InLine(s) && Enabled(s, t, a) && u < |s.threads| && u != t
    ensures TicketOk(Apply(s, t, a).sh, u, s.threads[u])
  {
    assert TicketOk(s.sh, t, s.threads[t]) && TicketOk(s.sh, u, s.threads[u]);
  }

  lemma MoverKeepsTicket(s: State, t: ThreadId, a: Action)
    requires Inv(s) && Enabled(s, t, a)
    ensures TicketOk(Apply(s, t, a).sh, t, Apply(s, t, a).threads[t])
  {
    assert TicketOk(s.sh, t, s.threads[t]);
    NoPanic(s, t, a);
  }

  lemma LineStep(s: State, t: ThreadId, a: Action)
    requires Inv(s) && Enabled(s, t, a)
    ensures InLine(Apply(s, t, a))
  {
    var s' := Apply(s, t, a);
    assert TicketOk(s.sh, t, s.threads[t]);
    forall u | 0 <= u < |s'.threads| ensures TicketOk(s'.sh, u, s'.threads[u]) {
      if u == t { MoverKeepsTicket(s, t, a); } else { OthersKeepTickets(s, t, a, u); }
    }
    forall k: nat | Waiting(s'.sh, k) ensures Served(s'.threads, s'.sh.line[k], k) {
      assert Waiting(s.sh, k) ==> Served(s.threads, s.sh.line[k], k);
    }
  }

  /** Every step of every thread keeps the invariant. */
  lemma StepInv(s: State, t: ThreadId, a: Action)
    requires Inv(s) && Enabled(s, t, a)
    ensures Inv(Apply(s, t, a))
  {
    NoPanic(s, t, a);
    MoveCounts(s.sh, t, s.threads[t], a);
    MoveKeepsOrder(s.sh, t, s.threads[t], a);
    TotalUpdate(s.threads, t, Next(s.sh, t, s.threads[t], a).th);
    LineStep(s, t, a);
  }

  lemma {:induction false} RunInv(run: seq<State>, i: nat)
    requires IsRun(run) && i < |run|
    ensures Inv(run[i])
  {
    if i == 0 {
      InitialInv(run[0]);
    } else {
      RunInv(run, i - 1);
      assert Step(run[i - 1], run[i]);
      var t: ThreadId, a: Action :| Enabled(run[i - 1], t, a) && run[i] == Apply(run[i - 1], t, a);
      StepInv(run[i - 1], t, a);
    }
  }

  // ---------------------------------------------------------------- what every run promises

  /** No check fails: an acquired pop always finds an item, and the waiting loop ends at its own ticket. */
  lemma NeverPanics(run: seq<State>, i: nat, t: ThreadId)
    requires IsRun(run) && i < |run| && t < |run[i].threads|
    ensures !run[i].threads[t].Panicked?
  {
    RunInv(run, i);
    assert TicketOk(run[i].sh, t, run[i].threads[t]);
  }

  /** Items leave in the order in which they were inserted; none is lost, duplicated or invented. */
  lemma FirstInFirstOut(run: seq<State>, i: nat)
    requires IsRun(run) && i < |run|
    ensures run[i].sh.inserted == run[i].sh.removed + run[i].sh.items
    ensures |run[i].sh.items| == run[i].sh.pending + Total(run[i].threads)
  {
    RunInv(run, i);
  }

  /** When no operation is under way, the pending count is the number of items in the queue. */
  lemma CountAtRest(run: seq<State>, i: nat)
    requires IsRun(run) && i < |run| && AtRest(run[i])
    ensures run[i].sh.pending == |run[i].sh.items|
  {
    RunInv(run, i);
    InitialTotal(run[i].threads);
  }

  /** The lock has one holder, and nobody with an earlier ticket is still waiting. */
  lemma ServedInTicketOrder(run: seq<State>, i: nat, t: ThreadId, u: ThreadId)
    requires IsRun(run) && i < |run| && t < |run[i].threads| && u < |run[i].threads|
    requires Holds(run[i].threads[t]) && HasTicket(run[i].threads[u]) && t != u
    ensures !Holds(run[i].threads[u]) && run[i].threads[t].ticket < run[i].threads[u].ticket
  {
    RunInv(run, i);
    assert TicketOk(run[i].sh, t, run[i].threads[t]) && TicketOk(run[i].sh, u, run[i].threads[u]);
  }

  /** While anyone is in line, the thread whose turn it is holds the lock or gets it by looking. */
  lemma SomeoneIsServed(run: seq<State>, i: nat)
    requires IsRun(run) && i < |run| && run[i].sh.currentTicket < run[i].sh.nextTicket
    ensures exists t :: && 0 <= t < |run[i].threads| && HasTicket(run[i].threads[t])
                        && (Holds(run[i].threads[t]) ||
                            (Enabled(run[i], t, Observe(run[i].sh.currentTicket)) &&
                             Holds(Apply(run[i], t, Observe(run[i].sh.currentTicket)).threads[t])))
  {
    RunInv(run, i);
    var s := run[i];
    assert Waiting(s.sh, s.sh.currentTicket);
    var t := s.sh.line[s.sh.currentTicket];
    assert Served(s.threads, t, s.sh.currentTicket);
  }

  lemma StepGrows(s: State, s': State)
    requires Step(s, s')
    ensures s.sh.inserted <= s'.sh.inserted && s.sh.removed <= s'.sh.removed
  {
  }

  lemma PrefixTrans(x: seq<Item>, y: seq<Item>, z: seq<Item>)
    requires x <= y <= z
    ensures x <= z
  {
  }

  /** The histories only grow, so what has been removed is forever the first part of what was inserted. */
  lemma {:induction false} RemovedIsFirstPart(run: seq<State>, i: nat, j: nat)
    requires IsRun(run) && i <= j < |run|
    ensures run[i].sh.inserted <= run[j].sh.inserted && run[i].sh.removed <= run[j].sh.removed
    ensures run[i].sh.removed <= run[j].sh.inserted
    decreases j
  {
    if i == j {
      FirstInFirstOut(run, i);
    } else {
      RemovedIsFirstPart(run, i, j - 1);
      StepGrows(run[j - 1], run[j]);
      PrefixTrans(run[i].sh.inserted, run[j - 1].sh.inserted, run[j].sh.inserted);
      PrefixTrans(run[i].sh.removed, run[j - 1].sh.removed, run[j].sh.removed);
      PrefixTrans(run[i].sh.removed, run[j - 1].sh.inserted, run[j].sh.inserted);
    }
  }

  // ---------------------------------------------------------------- which pushes and pops these are

  datatype Event = Event(t: ThreadId, a: Action)

  ghost predicate Happens(s: State, e: Event, s': State) { Enabled(s, e.t, e.a) && s' == Apply(s, e.t, e.a) }

  /** A run, with who did what. */
  ghost predicate IsHistory(run: seq<State>, events: seq<Event>) {
    && |run| == |events| + 1 && Initial(run[0])
    && forall i :: 0 <= i < |events| ==> Happens(run[i], events[i], run[i + 1])
  }

  lemma HistoryIsRun(run: seq<State>, events: seq<Event>)
    requires IsHistory(run, events)
    ensures IsRun(run)
  {
    forall i | 0 <= i < |run| - 1 ensures Step(run[i], run[i + 1]) { assert Happens(run[i], events[i], run[i + 1]); }
  }

  predicate Closed(events: seq<Event>) { exists k :: 0 <= k < |events| && events[k].a.Close? }

  /** The item lists of the pushes that came before the first close. */
  function Accepted(events: seq<Event>): seq<seq<Item>> {
    if events == [] then []
    else
      var (last, before) := (events[|events| - 1], events[..|events| - 1]);
      if last.a.StartPush? && !Closed(before) then Accepted(before) + [last.a.items] else Accepted(before)
  }

  predicate Has(job: Job, list: seq<Item>) { job.Insert? && job.items == list }

  /** Whether the thread is on its way to insert this item list. */
  predicate InHand(th: Thread, list: seq<Item>) {
    match th
    case Enter(job) => Has(job, list)
    case Await(job, _) => Has(job, list)
    case Inside(job, _) => Has(job, list)
    case _ => false
  }

  function One(b: bool): nat { if b then 1 else 0 }

  /** How many threads are. */
  function Carriers(threads: seq<Thread>, list: seq<Item>): nat {
    if threads == [] then 0 else One(InHand(threads[0], list)) + Carriers(threads[1..], list)
  }

  lemma {:induction false} CarriersUpdate(threads: seq<Thread>, t: nat, th: Thread, list: seq<Item>)
    requires t < |threads|
    ensures Carriers(threads[t := th], list) + One(InHand(threads[t], list)) == Carriers(threads, list) + One(InHand(th, list))
  {
    if t == 0 {
      assert threads[0 := th][1..] == threads[1..];
    } else {
      assert threads[t := th][1..] == threads[1..][t - 1 := th];
      CarriersUpdate(threads[1..], t - 1, th, list);
    }
  }

  lemma {:induction false} NoCarriers(threads: seq<Thread>, list: seq<Item>)
    requires forall t :: 0 <= t < |threads| ==> threads[t].Idle?
    ensures Carriers(threads, list) == 0
  {
    if threads != [] { NoCarriers(threads[1..], list); }
  }

  /** How often the list is among the lists. */
  function Times(lists: seq<seq<Item>>, list: seq<Item>): nat { multiset(lists)[list] }

  lemma SameTimes(xs: seq<seq<Item>>, ys: seq<seq<Item>>)
    requires forall list :: Times(xs, list) == Times(ys, list)
    ensures multiset(xs) == multiset(ys)
  {
    forall list ensures multiset(xs)[list] == multiset(ys)[list] { assert Times(xs, list) == Times(ys, list); }
  }

  lemma TimesSnoc(lists: seq<seq<Item>>, last: seq<Item>, list: seq<Item>)
    ensures Times(lists + [last], list) == Times(lists, list) + One(last == list)
  {
  }

  function Flatten(blocks: seq<seq<Item>>): seq<Item> {
    if blocks == [] then [] else Flatten(blocks[..|blocks| - 1]) + blocks[|blocks| - 1]
  }

  lemma FlattenSnoc(blocks: seq<seq<Item>>, block: seq<Item>)
    ensures Flatten(blocks + [block]) == Flatten(blocks) + block
  {
    assert (blocks + [block])[..|blocks|] == blocks;
  }

  /** Of the accepted pushes of this item list, those that are not among the blocks have yet to be inserted. */
  predicate Accounted(s: State, events: seq<Event>, blocks: seq<seq<Item>>, list: seq<Item>) {
    Times(Accepted(events), list) == Times(blocks, list) + Carriers(s.threads, list)
  }

  predicate OpenMeans(sh: Shared, events: seq<Event>) { sh.open <==> !Closed(events) }

  lemma ClosedSnoc(events: seq<Event>, e: Event)
    ensures Closed(events + [e]) <==> Closed(events) || e.a.Close?
  {
    var more := events + [e];
    assert more[|events|] == e;
    if Closed(events) {
      var k :| 0 <= k < |events| && events[k].a.Close?;
      assert more[k].a.Close?;
    }
  }

  lemma AcceptedSnoc(events: seq<Event>, e: Event)
    ensures Accepted(events + [e]) ==
            if e.a.StartPush? && !Closed(events) then Accepted(events) + [e.a.items] else Accepted(events)
  {
    assert (events + [e])[..|events|] == events;
  }

  /** The block that a step inserts, if it does. */
  function Block(s: State, e: Event): seq<seq<Item>>
    requires Enabled(s, e.t, e.a)
  {
    var th := s.threads[e.t];
    if e.a.Advance? && th.Inside? && th.job.Insert? then [th.job.items] else []
  }

  /** The item lists of the pushes, in the order in which they were inserted. */
  function Blocks(run: seq<State>, events: seq<Event>, i: nat): seq<seq<Item>>
    requires i <= |events| < |run| && forall k :: 0 <= k < i ==> Enabled(run[k], events[k].t, events[k].a)
  {
    if i == 0 then [] else Blocks(run, events, i - 1) + Block(run[i - 1], events[i - 1])
  }

  predicate Accepts(sh: Shared, a: Action, list: seq<Item>) { a.StartPush? && sh.open && a.items == list }

  /** What one step does to the item lists in hand. */
  lemma MoveCarries(sh: Shared, t: ThreadId, th: Thread, a: Action, list: seq<Item>)
    requires Allowed(sh, th, a) && !Next(sh, t, th, a).th.Panicked?
    ensures One(InHand(Next(sh, t, th, a).th, list)) + One(a.Advance? && th.Inside? && Has(th.job, list))
            == One(InHand(th, list)) + One(Accepts(sh, a, list))
  {
  }

  lemma TimesBlock(s: State, e: Event, blocks: seq<seq<Item>>, list: seq<Item>)
    requires Enabled(s, e.t, e.a)
    ensures Times(blocks + Block(s, e), list)
            == Times(blocks, list) + One(e.a.Advance? && s.threads[e.t].Inside? && Has(s.threads[e.t].job, list))
  {
    if Block(s, e) == [] { assert blocks + [] == blocks; } else { TimesSnoc(blocks, s.threads[e.t].job.items, list); }
  }

  lemma TimesAccepted(sh: Shared, e: Event, events: seq<Event>, list: seq<Item>)
    requires OpenMeans(sh, events)
    ensures Times(Accepted(events + [e]), list) == Times(Accepted(events), list) + One(Accepts(sh, e.a, list))
  {
    AcceptedSnoc(events, e);
    if e.a.StartPush? && sh.open { TimesSnoc(Accepted(events), e.a.items, list); }
  }

  lemma StepAccounts(s: State, e: Event, events: seq<Event>, blocks: seq<seq<Item>>, list: seq<Item>)
    requires Inv(s) && Enabled(s, e.t, e.a) && Accounted(s, events, blocks, list) && OpenMeans(s.sh, events)
    ensures Accounted(Apply(s, e.t, e.a), events + [e], blocks + Block(s, e), list)
  {
    NoPanic(s, e.t, e.a);
    MoveCarries(s.sh, e.t, s.threads[e.t], e.a, list);
    CarriersUpdate(s.threads, e.t, Next(s.sh, e.t, s.threads[e.t], e.a).th, list);
    TimesAccepted(s.sh, e, events, list);
    TimesBlock(s, e, blocks, list);
  }

  lemma StepInserts(s: State, e: Event, blocks: seq<seq<Item>>)
    requires Enabled(s, e.t, e.a) && s.sh.inserted == Flatten(blocks)
    ensures Apply(s, e.t, e.a).sh.inserted == Flatten(blocks + Block(s, e))
  {
    if Block(s, e) == [] { assert blocks + [] == blocks; } else { FlattenSnoc(blocks, s.threads[e.t].job.items); }
  }

  lemma StepOpen(s: State, e: Event, events: seq<Event>)
    requires Enabled(s, e.t, e.a) && OpenMeans(s.sh, events)
    ensures OpenMeans(Apply(s, e.t, e.a).sh, events + [e])
  {
    ClosedSnoc(events, e);
  }

  lemma HistorySnoc(events: seq<Event>, i: nat)
    requires i < |events|
    ensures events[..i + 1] == events[..i] + [events[i]]
  {
  }

  /** The queue is open until the first close. */
  lemma {:induction false} OpenUntilClosed(run: seq<State>, events: seq<Event>, i: nat)
    requires IsHistory(run, events) && i <= |events|
    ensures OpenMeans(run[i].sh, events[..i])
  {
    if i > 0 {
      OpenUntilClosed(run, events, i - 1);
      assert Happens(run[i - 1], events[i - 1], run[i]);
      StepOpen(run[i - 1], events[i - 1], events[..i - 1]);
      HistorySnoc(events, i - 1);
    }
  }

  lemma EventsEnabled(run: seq<State>, events: seq<Event>, i: nat)
    requires IsHistory(run, events) && i <= |events|
    ensures forall k :: 0 <= k < i ==> Enabled(run[k], events[k].t, events[k].a)
  {
    forall k | 0 <= k < i ensures Enabled(run[k], events[k].t, events[k].a) { assert Happens(run[k], events[k], run[k + 1]); }
  }

  /** What has been inserted are the item lists of pushes, each whole and in its given order, nothing in between. */
  lemma {:induction false} PushesAreWhole(run: seq<State>, events: seq<Event>, i: nat)
    requires IsHistory(run, events) && i <= |events|
    ensures forall k :: 0 <= k < i ==> Enabled(run[k], events[k].t, events[k].a)
    ensures run[i].sh.inserted == Flatten(Blocks(run, events, i))
  {
    EventsEnabled(run, events, i);
    if i > 0 {
      PushesAreWhole(run, events, i - 1);
      assert Happens(run[i - 1], events[i - 1], run[i]);
      StepInserts(run[i - 1], events[i - 1], Blocks(run, events, i - 1));
    }
  }

  /** These are the pushes before the close, each once, except those on their way, and no push after it. */
  lemma {:induction false} PushesAreInserted(run: seq<State>, events: seq<Event>, i: nat, list: seq<Item>)
    requires IsHistory(run, events) && i <= |events|
    ensures forall k :: 0 <= k < i ==> Enabled(run[k], events[k].t, events[k].a)
    ensures Accounted(run[i], events[..i], Blocks(run, events, i), list)
  {
    EventsEnabled(run, events, i);
    if i == 0 {
      NoCarriers(run[0].threads, list);
    } else {
      PushesAreInserted(run, events, i - 1, list);
      OpenUntilClosed(run, events, i - 1);
      HistoryIsRun(run, events);
      RunInv(run, i - 1);
      assert Happens(run[i - 1], events[i - 1], run[i]);
      StepAccounts(run[i - 1], events[i - 1], events[..i - 1], Blocks(run, events, i - 1), list);
      HistorySnoc(events, i - 1);
    }
  }

  /** With no operation under way, the pushes before the close, in some order, are what was taken out and what is in the queue. */
  lemma NothingIsLost(run: seq<State>, events: seq<Event>, i: nat)
    requires IsHistory(run, events) && i <= |events| && AtRest(run[i])
    ensures exists blocks :: multiset(blocks) == multiset(Accepted(events[..i])) && run[i].sh.removed + run[i].sh.items == Flatten(blocks)
  {
    EventsEnabled(run, events, i);
    var blocks := Blocks(run, events, i);
    forall list ensures Times(blocks, list) == Times(Accepted(events[..i]), list) {
      PushesAreInserted(run, events, i, list);
      NoCarriers(run[i].threads, list);
    }
    SameTimes(blocks, Accepted(events[..i]));
    HistoryIsRun(run, events);
    FirstInFirstOut(run, i);
    PushesAreWhole(run, events, i);
  }

  // ---------------------------------------------------------------- what a pop returns

  /** What the thread returns to its caller with the event, if it is the end of a pop that got an item. */
  function Returned(s: State, e: Event): seq<Item>
    requires Enabled(s, e.t, e.a)
  {
    var th := s.threads[e.t];
    if e.a.Advance? && th.Leave? && th.job.Removed? then [th.job.item] else []
  }

  /** Everything that pops have returned, in the order of their ends. */
  function AllReturned(run: seq<State>, events: seq<Event>, i: nat): seq<Item>
    requires i <= |events| < |run| && forall k :: 0 <= k < i ==> Enabled(run[k], events[k].t, events[k].a)
  {
    if i == 0 then [] else AllReturned(run, events, i - 1) + Returned(run[i - 1], events[i - 1])
  }

  predicate Carries(th: Thread) { th.Leave? && th.job.Removed? }

  /** The item that the holder of the lock has taken out and not yet returned. */
  function Taken(threads: seq<Thread>): seq<Item> {
    if threads == [] then [] else (if Carries(threads[0]) then [threads[0].job.item] else []) + Taken(threads[1..])
  }

  lemma {:induction false} NothingTaken(threads: seq<Thread>)
    requires forall t :: 0 <= t < |threads| ==> !Carries(threads[t])
    ensures Taken(threads) == []
  {
    if threads != [] { NothingTaken(threads[1..]); }
  }

  lemma {:induction false} OneTaken(threads: seq<Thread>, t: ThreadId)
    requires t < |threads| && Carries(threads[t]) && forall u :: 0 <= u < |threads| && u != t ==> !Carries(threads[u])
    ensures Taken(threads) == [threads[t].job.item]
  {
    if t == 0 { NothingTaken(threads[1..]); } else { OneTaken(threads[1..], t - 1); }
  }

  lemma {:induction false} SameTaken(threads: seq<Thread>, t: ThreadId, th: Thread)
    requires t < |threads| && !Carries(threads[t]) && !Carries(th)
    ensures Taken(threads[t := th]) == Taken(threads)
  {
    if t == 0 {
      assert threads[0 := th][1..] == threads[1..];
    } else {
      assert threads[t := th][1..] == threads[1..][t - 1 := th];
      SameTaken(threads[1..], t - 1, th);
    }
  }

  lemma OneHolder(s: State, t: ThreadId, u: ThreadId)
    requires InLine(s) && t < |s.threads| && u < |s.threads| && Holds(s.threads[t]) && u != t
    ensures !Holds(s.threads[u])
  {
    assert TicketOk(s.sh, t, s.threads[t]) && TicketOk(s.sh, u, s.threads[u]);
  }

  lemma LeaveReturns(s: State, t: ThreadId)
    requires Inv(s) && t < |s.threads| && Carries(s.threads[t])
    ensures Taken(s.threads) == [s.threads[t].job.item] && Taken(s.threads[t := Idle]) == []
  {
    forall u | 0 <= u < |s.threads| && u != t ensures !Carries(s.threads[u]) { OneHolder(s, t, u); }
    OneTaken(s.threads, t);
    NothingTaken(s.threads[t := Idle]);
  }

  lemma RemoveTakes(s: State, t: ThreadId, th: Thread)
    requires Inv(s) && t < |s.threads| && s.threads[t].Inside? && Carries(th)
    ensures Taken(s.threads) == [] && Taken(s.threads[t := th]) == [th.job.item]
  {
    forall u | 0 <= u < |s.threads| && u != t ensures !Carries(s.threads[u]) { OneHolder(s, t, u); }
    NothingTaken(s.threads);
    OneTaken(s.threads[t := th], t);
  }

  lemma StepReturns(s: State, e: Event, returned: seq<Item>)
    requires Inv(s) && Enabled(s, e.t, e.a) && s.sh.removed == returned + Taken(s.threads)
    ensures Apply(s, e.t, e.a).sh.removed == returned + Returned(s, e) + Taken(Apply(s, e.t, e.a).threads)
  {
    var th, th' := s.threads[e.t], Next(s.sh, e.t, s.threads[e.t], e.a).th;
    NoPanic(s, e.t, e.a);
    if Carries(th) {
      LeaveReturns(s, e.t);
    } else if Carries(th') {
      RemoveTakes(s, e.t, th');
    } else {
      SameTaken(s.threads, e.t, th');
      assert returned + [] == returned;
    }
  }

  /** What pops return, in the order of their ends, is what was removed, up to the item that the holder of the lock is about to return. */
  lemma {:induction false} PopsReturnInOrder(run: seq<State>, events: seq<Event>, i: nat)
    requires IsHistory(run, events) && i <= |events|
    ensures forall k :: 0 <= k < i ==> Enabled(run[k], events[k].t, events[k].a)
    ensures run[i].sh.removed == AllReturned(run, events, i) + Taken(run[i].threads)
  {
    EventsEnabled(run, events, i);
    if i == 0 {
      NothingTaken(run[0].threads);
    } else {
      PopsReturnInOrder(run, events, i - 1);
      HistoryIsRun(run, events);
      RunInv(run, i - 1);
      assert Happens(run[i - 1], events[i - 1], run[i]);
      StepReturns(run[i - 1], events[i - 1], AllReturned(run, events, i - 1));
    }
  }

  /** A pop has lowered the count and has yet to take out its item. */
  predicate Claims(th: Thread) { (th.Enter? || th.Await? || th.Inside?) && !th.job.Insert? }

  function Claimants(threads: seq<Thread>): nat {
    if threads == [] then 0 else One(Claims(threads[0])) + Claimants(threads[1..])
  }

  lemma {:induction false} ClaimantsUpdate(threads: seq<Thread>, t: nat, th: Thread)
    requires t < |threads|
    ensures Claimants(threads[t := th]) + One(Claims(threads[t])) == Claimants(threads) + One(Claims(th))
  {
    if t == 0 {
      assert threads[0 := th][1..] == threads[1..];
    } else {
      assert threads[t := th][1..] == threads[1..][t - 1 := th];
      ClaimantsUpdate(threads[1..], t - 1, th);
    }
  }

  lemma {:induction false} NoClaimants(threads: seq<Thread>)
    requires forall t :: 0 <= t < |threads| ==> threads[t].Idle?
    ensures Claimants(threads) == 0
  {
    if threads != [] { NoClaimants(threads[1..]); }
  }

  /** The pops that found the count above zero. */
  function Successes(run: seq<State>, events: seq<Event>, i: nat): nat
    requires i <= |events| < |run|
  {
    if i == 0 then 0 else Successes(run, events, i - 1) + One(events[i - 1].a.StartPop? && run[i - 1].sh.pending > 0)
  }

  lemma MoveClaims(sh: Shared, t: ThreadId, th: Thread, a: Action)
    requires Allowed(sh, th, a) && !Next(sh, t, th, a).th.Panicked?
    ensures |Next(sh, t, th, a).sh.removed| + One(Claims(Next(sh, t, th, a).th))
            == |sh.removed| + One(Claims(th)) + One(a.StartPop? && sh.pending > 0)
  {
  }

  /** Each of them takes out one item, and no other pop does. */
  lemma {:induction false} PopsTakeOne(run: seq<State>, events: seq<Event>, i: nat)
    requires IsHistory(run, events) && i <= |events|
    ensures Successes(run, events, i) == |run[i].sh.removed| + Claimants(run[i].threads)
  {
    if i == 0 {
      NoClaimants(run[0].threads);
    } else {
      var s, e := run[i - 1], events[i - 1];
      PopsTakeOne(run, events, i - 1);
      HistoryIsRun(run, events);
      RunInv(run, i - 1);
      assert Happens(s, e, run[i]);
      NoPanic(s, e.t, e.a);
      MoveClaims(s.sh, e.t, s.threads[e.t], e.a);
      ClaimantsUpdate(s.threads, e.t, Next(s.sh, e.t, s.threads[e.t], e.a).th);
    }
  }

  // ---------------------------------------------------------------- every operation comes to its end

  /** The steps that a thread has before it. */
  function Steps(th: Thread): nat {
    match th
    case Enter(_) => 5
    case Await(_, _) => 4
    case Inside(_, _) => 3
    case Leave(_, _) => 2
    case Notify(_) => 1
    case _ => 0
  }

  function AllSteps(threads: seq<Thread>): nat {
    if threads == [] then 0 else Steps(threads[0]) + AllSteps(threads[1..])
  }

  lemma {:induction false} StepsUpdate(threads: seq<Thread>, t: nat, th: Thread)
    requires t < |threads|
    ensures AllSteps(threads[t := th]) + Steps(threads[t]) == AllSteps(threads) + Steps(th)
  {
    if t == 0 {
      assert threads[0 := th][1..] == threads[1..];
    } else {
      assert threads[t := th][1..] == threads[1..][t - 1 := th];
      StepsUpdate(threads[1..], t - 1, th);
    }
  }

  predicate Ongoing(a: Action) { a.Advance? || a.Observe? }

  lemma WhoseTurn(s: State) returns (t: ThreadId, a: Action)
    requires Inv(s) && s.sh.currentTicket < s.sh.nextTicket
    ensures t < |s.threads| && HasTicket(s.threads[t]) && s.threads[t].ticket == s.sh.currentTicket
    ensures a == if s.threads[t].Await? then Observe(s.sh.currentTicket) else Advance
  {
    assert Waiting(s.sh, s.sh.currentTicket);
    t := s.sh.line[s.sh.currentTicket];
    assert Served(s.threads, t, s.sh.currentTicket);
    a := if s.threads[t].Await? then Observe(s.sh.currentTicket) else Advance;
  }

  /** A thread under way can go on: it or, if it waits for the lock, the thread whose turn it is. */
  lemma SomeoneGoesOn(s: State) returns (t: ThreadId, a: Action)
    requires Inv(s) && !AtRest(s)
    ensures Enabled(s, t, a) && Ongoing(a) && AllSteps(Apply(s, t, a).threads) < AllSteps(s.threads)
  {
    t :| 0 <= t < |s.threads| && !s.threads[t].Idle?;
    assert TicketOk(s.sh, t, s.threads[t]);
    a := Advance;
    if s.threads[t].Await? { t, a := WhoseTurn(s); }
    NoPanic(s, t, a);
    StepsUpdate(s.threads, t, Next(s.sh, t, s.threads[t], a).th);
  }

  /** A path of steps of operations under way. */
  ghost predicate GoesOn(path: seq<State>, s: State) {
    && |path| > 0 && path[0] == s
    && forall i :: 0 <= i < |path| - 1 ==> OngoingStep(path[i], path[i + 1])
  }

  ghost predicate OngoingStep(s: State, s': State) {
    exists e: Event :: Ongoing(e.a) && Happens(s, e, s')
  }

  lemma {:induction false} EndsFrom(s: State) returns (path: seq<State>)
    requires Inv(s)
    ensures GoesOn(path, s) && AtRest(path[|path| - 1]) && |path| <= AllSteps(s.threads) + 1
    decreases AllSteps(s.threads)
  {
    if AtRest(s) {
      path := [s];
    } else {
      var t, a := SomeoneGoesOn(s);
      var s' := Apply(s, t, a);
      StepInv(s, t, a);
      var rest := EndsFrom(s');
      path := [s] + rest;
      assert Happens(s, Event(t, a), s');
      forall i | 0 <= i < |path| - 1 ensures OngoingStep(path[i], path[i + 1]) {
        assert i > 0 ==> path[i] == rest[i - 1] && path[i + 1] == rest[i];
      }
    }
  }

  /** From every reachable state the operations under way can all come to their ends, without any other being started. */
  lemma OperationsEnd(run: seq<State>, i: nat) returns (path: seq<State>)
    requires IsRun(run) && i < |run|
    ensures GoesOn(path, run[i]) && AtRest(path[|path| - 1]) && |path| <= AllSteps(run[i].threads) + 1
  {
    RunInv(run, i);
    path := EndsFrom(run[i]);
  }
}
