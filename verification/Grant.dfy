/**
  `Grant` and `Grant::Issuer`: a pool of a counted resource and the claims on it, used by any number
  of threads, interleaved at every atomic operation.
 */
module GrantPool {

  type ThreadId = nat
  type GrantId = nat

  /** `attached` is false once the grant was moved from; `gone` once its destructor has started. */
  datatype Grant = Grant(size: nat, attached: bool, gone: bool)

  /** An operation between two of its atomic steps, with the amount it has in hand. */
  datatype Thread =
    | Idle
    /** `recycle`, called from `grow` and `spend_all`. */
    | Recycle(count: nat)
    /** `transfer_impl` has lowered its source and has not made the new grant yet. */
    | Transferred(count: nat)
    /** `subsume` has emptied its argument. */
    | Subsuming(into: GrantId, count: nat)
    /** `swap` has emptied `b` and is about to store in `a`. */
    | SwapFirst(a: GrantId, b: GrantId, count: nat)
    /** `swap` has stored in `a` and is about to store in `b`. */
    | SwapSecond(b: GrantId, count: nat)

  /** History: `overwritten` by the last store of swaps, and `abandoned` in grants destroyed without an issuer. */
  datatype Pool = Pool(total: nat, available: nat, closed: bool, overwritten: nat, abandoned: nat) {
    function Lost(): nat { overwritten + abandoned }
  }

  datatype Shared = Shared(pool: Pool, grants: seq<Grant>)

  datatype State = State(sh: Shared, threads: seq<Thread>)

  datatype Action =
    | Issue(count: nat)
    | Spend(g: GrantId, count: nat)
    /** `spend_all`, also as the first part of `revoke`. */
    | SpendAll(g: GrantId)
    | Subsume(into: GrantId, from: GrantId)
    | Swap(a: GrantId, b: GrantId)
    | Grow(count: nat)
    | Close
    | Move(from: GrantId)
    | Destroy(g: GrantId)
    | Advance

  datatype Effect = Effect(sh: Shared, th: Thread)

  // ---------------------------------------------------------------- one atomic step

  predicate Live(sh: Shared, g: GrantId) { g < |sh.grants| && !sh.grants[g].gone }

  /** The grant is one that the operation under way will still store in. */
  predicate Targets(th: Thread, g: GrantId) {
    match th
    case Subsuming(into, _) => g == into
    case SwapFirst(a, b, _) => g == a || g == b
    case SwapSecond(b, _) => g == b
    case _ => false
  }

  predicate Untouched(threads: seq<Thread>, g: GrantId) {
    forall t :: 0 <= t < |threads| ==> !Targets(threads[t], g)
  }

  /** What the callers owe: live grants, and no move or destruction of a grant in use. */
  predicate Allowed(s: State, t: ThreadId, a: Action) {
    && t < |s.threads|
    && (a.Advance? <==> !s.threads[t].Idle?)
    && match a
       case Spend(g, _) => Live(s.sh, g)
       case SpendAll(g) => Live(s.sh, g)
       case Subsume(into, from) => Live(s.sh, into) && Live(s.sh, from) && (s.sh.grants[from].attached ==> s.sh.grants[into].attached)
       case Swap(x, y) => Live(s.sh, x) && Live(s.sh, y)
       case Move(from) => Live(s.sh, from) && Untouched(s.threads, from)
       case Destroy(g) => Live(s.sh, g) && Untouched(s.threads, g)
       case Advance => TargetsLive(s.sh, s.threads[t])
       case _ => true
  }

  predicate TargetsLive(sh: Shared, th: Thread) {
    match th
    case Subsuming(into, _) => Live(sh, into)
    case SwapFirst(a, b, _) => Live(sh, a) && Live(sh, b)
    case SwapSecond(b, _) => Live(sh, b)
    case _ => true
  }

  function SetSize(sh: Shared, g: GrantId, size: nat): Shared
    requires g < |sh.grants|
  {
    sh.(grants := sh.grants[g := sh.grants[g].(size := size)])
  }

  function Add(sh: Shared, grant: Grant): Shared { sh.(grants := sh.grants + [grant]) }

  function Start(sh: Shared, a: Action): Effect
    requires !a.Advance?
    requires a.Spend? || a.SpendAll? || a.Destroy? ==> Live(sh, a.g)
    requires a.Subsume? ==> Live(sh, a.into) && Live(sh, a.from)
    requires a.Swap? ==> Live(sh, a.a) && Live(sh, a.b)
    requires a.Move? ==> Live(sh, a.from)
  {
    match a
    case Issue(count) =>
      if count <= sh.pool.available
      then Effect(sh.(pool := sh.pool.(available := sh.pool.available - count)), Transferred(count))
      else Effect(sh, Idle)
    case Spend(g, count) =>
      if sh.grants[g].attached && count <= sh.grants[g].size
      then Effect(SetSize(sh, g, sh.grants[g].size - count), Transferred(count))
      else Effect(sh, Idle)
    case SpendAll(g) => if sh.grants[g].attached then Effect(SetSize(sh, g, 0), Recycle(sh.grants[g].size)) else Effect(sh, Idle)
    case Subsume(into, from) =>
      if sh.grants[from].attached then Effect(SetSize(sh, from, 0), Subsuming(into, sh.grants[from].size)) else Effect(sh, Idle)
    case Swap(x, y) =>
      var swapped := sh.(grants := sh.grants[x := sh.grants[x].(attached := sh.grants[y].attached)]
                                            [y := sh.grants[y].(attached := sh.grants[x].attached)]);
      Effect(SetSize(swapped, y, 0), SwapFirst(x, y, sh.grants[y].size))
    case Grow(count) => Effect(sh.(pool := sh.pool.(total := sh.pool.total + count)), Recycle(count))
    case Close => Effect(sh.(pool := sh.pool.(closed := true)), Idle)
    case Move(from) =>
      Effect(Add(sh.(grants := sh.grants[from := Grant(0, false, false)]), sh.grants[from]), Idle)
    case Destroy(g) =>
      var victim := sh.grants[g];
      var sh' := sh.(grants := sh.grants[g := Grant(0, victim.attached, true)]);
      if victim.attached then Effect(sh', Recycle(victim.size))
      else Effect(sh'.(pool := sh.pool.(abandoned := sh.pool.abandoned + victim.size)), Idle)
  }

  function Continue(sh: Shared, th: Thread): Effect
    requires !th.Idle? && TargetsLive(sh, th)
  {
    match th
    case Recycle(count) => Effect(sh.(pool := sh.pool.(available := sh.pool.available + count)), Idle)
    case Transferred(count) => Effect(Add(sh, Grant(count, true, false)), Idle)
    case Subsuming(into, count) => Effect(SetSize(sh, into, sh.grants[into].size + count), Idle)
    case SwapFirst(a, b, count) => Effect(SetSize(sh, a, count), SwapSecond(b, sh.grants[a].size))
    case SwapSecond(b, count) =>
      Effect(SetSize(sh.(pool := sh.pool.(overwritten := sh.pool.overwritten + sh.grants[b].size)), b, count), Idle)
  }

  function Next(s: State, t: ThreadId, a: Action): Effect
    requires Allowed(s, t, a)
  {
    if a.Advance? then Continue(s.sh, s.threads[t]) else Start(s.sh, a)
  }

  function Apply(s: State, t: ThreadId, a: Action): State
    requires Allowed(s, t, a)
  {
    var e := Next(s, t, a);
    State(e.sh, s.threads[t := e.th])
  }

  // ---------------------------------------------------------------- conservation

  function Sizes(grants: seq<Grant>): nat {
    if grants == [] then 0 else grants[0].size + Sizes(grants[1..])
  }

  function InHand(th: Thread): nat { if th.Idle? then 0 else th.count }

  function InFlight(threads: seq<Thread>): nat {
    if threads == [] then 0 else InHand(threads[0]) + InFlight(threads[1..])
  }

  lemma {:induction false} SizesUpdate(grants: seq<Grant>, g: nat, grant: Grant)
    requires g < |grants|
    ensures Sizes(grants[g := grant]) + grants[g].size == Sizes(grants) + grant.size
  {
    if g == 0 {
      assert grants[0 := grant][1..] == grants[1..];
    } else {
      assert grants[g := grant][1..] == grants[1..][g - 1 := grant];
      SizesUpdate(grants[1..], g - 1, grant);
    }
  }

  lemma {:induction false} SizesAdd(grants: seq<Grant>, grant: Grant)
    ensures Sizes(grants + [grant]) == Sizes(grants) + grant.size
  {
    if grants == [] {
      assert ([] + [grant])[1..] == [];
    } else {
      assert (grants + [grant])[1..] == grants[1..] + [grant];
      SizesAdd(grants[1..], grant);
    }
  }

  lemma {:induction false} InFlightUpdate(threads: seq<Thread>, t: nat, th: Thread)
    requires t < |threads|
    ensures InFlight(threads[t := th]) + InHand(threads[t]) == InFlight(threads) + InHand(th)
  {
    if t == 0 {
      assert threads[0 := th][1..] == threads[1..];
    } else {
      assert threads[t := th][1..] == threads[1..][t - 1 := th];
      InFlightUpdate(threads[1..], t - 1, th);
    }
  }

  /** What the shared state accounts for. */
  function Held(sh: Shared): nat { sh.pool.available + Sizes(sh.grants) + sh.pool.Lost() }

  /** Everything ever put into the pool is available, in a grant, in an operation's hands, or lost. */
  ghost predicate Conserved(s: State) { s.sh.pool.total == Held(s.sh) + InFlight(s.threads) }

  lemma SetSizeHeld(sh: Shared, g: GrantId, size: nat)
    requires g < |sh.grants|
    ensures Held(SetSize(sh, g, size)) + sh.grants[g].size == Held(sh) + size
  {
    SizesUpdate(sh.grants, g, sh.grants[g].(size := size));
  }

  lemma SameSizes(grants: seq<Grant>, g: nat, grant: Grant)
    requires g < |grants| && grant.size == grants[g].size
    ensures Sizes(grants[g := grant]) == Sizes(grants)
  {
    SizesUpdate(grants, g, grant);
  }

  lemma SwapStarts(sh: Shared, x: GrantId, y: GrantId)
    requires Live(sh, x) && Live(sh, y)
    ensures var e := Start(sh, Swap(x, y)); Held(e.sh) + e.th.count == Held(sh) && e.sh.pool == sh.pool
  {
    var first := sh.grants[x := sh.grants[x].(attached := sh.grants[y].attached)];
    SameSizes(sh.grants, x, first[x]);
    SameSizes(first, y, sh.grants[y].(attached := sh.grants[x].attached));
    var swapped := sh.(grants := first[y := sh.grants[y].(attached := sh.grants[x].attached)]);
    SetSizeHeld(swapped, y, 0);
  }

  /** Starting an operation moves amounts around, or adds to the pool. */
  lemma StartConserves(sh: Shared, a: Action)
    requires !a.Advance?
    requires a.Spend? || a.SpendAll? || a.Destroy? ==> Live(sh, a.g)
    requires a.Subsume? ==> Live(sh, a.into) && Live(sh, a.from)
    requires a.Swap? ==> Live(sh, a.a) && Live(sh, a.b)
    requires a.Move? ==> Live(sh, a.from)
    ensures var e := Start(sh, a);
            e.sh.pool.total + Held(sh) == sh.pool.total + Held(e.sh) + InHand(e.th)
  {
    match a
    case Spend(g, count) => if count <= sh.grants[g].size { SetSizeHeld(sh, g, sh.grants[g].size - count); }
    case SpendAll(g) => SetSizeHeld(sh, g, 0);
    case Subsume(_, from) => SetSizeHeld(sh, from, 0);
    case Swap(x, y) => SwapStarts(sh, x, y);
    case Move(from) =>
      SizesUpdate(sh.grants, from, Grant(0, false, false));
      SizesAdd(sh.grants[from := Grant(0, false, false)], sh.grants[from]);
    case Destroy(g) => SizesUpdate(sh.grants, g, Grant(0, sh.grants[g].attached, true));
    case _ =>
  }

  lemma ContinueConserves(sh: Shared, th: Thread)
    requires !th.Idle? && TargetsLive(sh, th)
    ensures var e := Continue(sh, th);
            e.sh.pool.total == sh.pool.total && Held(e.sh) + InHand(e.th) == Held(sh) + InHand(th)
  {
    match th
    case Recycle(_) =>
    case Transferred(count) => SizesAdd(sh.grants, Grant(count, true, false));
    case Subsuming(into, count) => SetSizeHeld(sh, into, sh.grants[into].size + count);
    case SwapFirst(a, _, count) => SetSizeHeld(sh, a, count);
    case SwapSecond(b, count) => SetSizeHeld(sh, b, count);
  }

  /** Every step of every thread conserves the resource. */
  lemma StepConserves(s: State, t: ThreadId, a: Action)
    requires Allowed(s, t, a) && Conserved(s)
    ensures Conserved(Apply(s, t, a))
  {
    var e := Next(s, t, a);
    if a.Advance? { ContinueConserves(s.sh, s.threads[t]); } else { StartConserves(s.sh, a); }
    InFlightUpdate(s.threads, t, e.th);
  }

  // ---------------------------------------------------------------- runs

  ghost predicate Initial(s: State) {
    && s.sh.grants == [] && s.sh.pool.total == s.sh.pool.available && s.sh.pool.Lost() == 0
    && forall t :: 0 <= t < |s.threads| ==> s.threads[t].Idle?
  }

  datatype Event = Event(t: ThreadId, a: Action)

  /** The state after each event is the one before the next. */
  ghost predicate IsRun(run: seq<State>, events: seq<Event>) {
    && |run| == |events| + 1 && Initial(run[0])
    && forall i :: 0 <= i < |events| ==> Happens(run[i], events[i], run[i + 1])
  }

  ghost predicate Happens(s: State, e: Event, s': State) { Allowed(s, e.t, e.a) && s' == Apply(s, e.t, e.a) }

  lemma {:induction false} IdleInFlight(threads: seq<Thread>)
    requires forall t :: 0 <= t < |threads| ==> threads[t].Idle?
    ensures InFlight(threads) == 0
  {
    if threads != [] { IdleInFlight(threads[1..]); }
  }

  /** Total size is available plus grants plus amounts in flight plus what was lost, in every reachable state. */
  lemma {:induction false} RunConserves(run: seq<State>, events: seq<Event>, i: nat)
    requires IsRun(run, events) && i < |run|
    ensures Conserved(run[i])
  {
    if i == 0 {
      IdleInFlight(run[0].threads);
    } else {
      RunConserves(run, events, i - 1);
      assert Happens(run[i - 1], events[i - 1], run[i]);
      StepConserves(run[i - 1], events[i - 1].t, events[i - 1].a);
    }
  }

  lemma {:induction false} NoSizes(grants: seq<Grant>)
    requires forall g :: 0 <= g < |grants| ==> grants[g].size == 0
    ensures Sizes(grants) == 0
  {
    if grants != [] { NoSizes(grants[1..]); }
  }

  lemma StepGoneIsEmpty(s: State, t: ThreadId, a: Action, g: GrantId)
    requires Allowed(s, t, a) && g < |Apply(s, t, a).sh.grants| && Apply(s, t, a).sh.grants[g].gone
    requires g < |s.sh.grants| && s.sh.grants[g].gone ==> s.sh.grants[g].size == 0
    ensures Apply(s, t, a).sh.grants[g].size == 0
  {
  }

  lemma {:induction false} GoneIsEmpty(run: seq<State>, events: seq<Event>, i: nat, g: GrantId)
    requires IsRun(run, events) && i < |run| && g < |run[i].sh.grants| && run[i].sh.grants[g].gone
    ensures run[i].sh.grants[g].size == 0
  {
    if i > 0 {
      assert Happens(run[i - 1], events[i - 1], run[i]);
      if g < |run[i - 1].sh.grants| && run[i - 1].sh.grants[g].gone { GoneIsEmpty(run, events, i - 1, g); }
      StepGoneIsEmpty(run[i - 1], events[i - 1].t, events[i - 1].a, g);
    }
  }

  lemma StaysLive(s: State, t: ThreadId, a: Action, g: GrantId)
    requires Allowed(s, t, a) && Live(s.sh, g) && (a.Destroy? ==> a.g != g)
    ensures Live(Apply(s, t, a).sh, g)
  {
  }

  lemma StepTargetsLive(s: State, t: ThreadId, a: Action, th: Thread)
    requires Allowed(s, t, a) && TargetsLive(s.sh, th) && (a.Destroy? ==> !Targets(th, a.g))
    ensures TargetsLive(Apply(s, t, a).sh, th)
  {
    match th
    case Subsuming(into, _) => StaysLive(s, t, a, into);
    case SwapFirst(x, y, _) => StaysLive(s, t, a, x); StaysLive(s, t, a, y);
    case SwapSecond(y, _) => StaysLive(s, t, a, y);
    case _ =>
  }

  lemma MoverTargetsLive(s: State, t: ThreadId, a: Action)
    requires Allowed(s, t, a)
    ensures TargetsLive(Apply(s, t, a).sh, Apply(s, t, a).threads[t])
  {
    match Next(s, t, a).th
    case Subsuming(into, _) => StaysLive(s, t, a, into);
    case SwapFirst(x, y, _) => StaysLive(s, t, a, x); StaysLive(s, t, a, y);
    case SwapSecond(y, _) => StaysLive(s, t, a, y);
    case _ =>
  }

  /** Operations under way can always go on: what they store in is not destroyed meanwhile. */
  lemma {:induction false} TargetsStayLive(run: seq<State>, events: seq<Event>, i: nat, t: ThreadId)
    requires IsRun(run, events) && i < |run| && t < |run[i].threads|
    ensures TargetsLive(run[i].sh, run[i].threads[t])
  {
    if i > 0 {
      var e := events[i - 1];
      assert Happens(run[i - 1], e, run[i]);
      TargetsStayLive(run, events, i - 1, t);
      if t == e.t {
        MoverTargetsLive(run[i - 1], t, e.a);
      } else {
        assert e.a.Destroy? ==> !Targets(run[i - 1].threads[t], e.a.g);
        StepTargetsLive(run[i - 1], e.t, e.a, run[i - 1].threads[t]);
      }
    }
  }

  /** A request, left alone, moves exactly `count` from its source to a new grant; or it changes nothing, exactly if that is too much. */
  lemma RequestIsAllOrNothing(s: State, t: ThreadId, g: GrantId, count: nat)
    requires Allowed(s, t, Spend(g, count)) && Allowed(s, t, Issue(count))
    ensures var s1 := Apply(s, t, Spend(g, count));
            if s.sh.grants[g].attached && count <= s.sh.grants[g].size
            then Allowed(s1, t, Advance) && Apply(s1, t, Advance) == s.(sh := Add(SetSize(s.sh, g, s.sh.grants[g].size - count), Grant(count, true, false)))
            else s1 == s
    ensures var s1 := Apply(s, t, Issue(count));
            if count <= s.sh.pool.available
            then Allowed(s1, t, Advance) && Apply(s1, t, Advance).sh.grants == s.sh.grants + [Grant(count, true, false)]
                 && Apply(s1, t, Advance).sh.pool == s.sh.pool.(available := s.sh.pool.available - count)
            else s1 == s
  {
    assert s.threads[t := Idle] == s.threads;
    assert s.threads[t := Transferred(count)][t := Idle] == s.threads;
  }

  /** Closing the pool does not stop it from issuing what it has. */
  lemma ClosedPoolStillIssues(s: State, t: ThreadId, count: nat)
    requires Allowed(s, t, Issue(count)) && s.sh.pool.closed
    ensures Apply(s, t, Issue(count)).threads[t] == Transferred(count) <==> count <= s.sh.pool.available
  {
  }

  // ---------------------------------------------------------------- an operation left alone

  function Onward(s: State, t: ThreadId): State { if Allowed(s, t, Advance) then Apply(s, t, Advance) else s }

  /** The state after the whole operation, if no other thread moves meanwhile. */
  function Alone(s: State, t: ThreadId, a: Action): State
    requires Allowed(s, t, a)
  {
    Onward(Onward(Apply(s, t, a), t), t)
  }

  ghost predicate SameGrants(sh: Shared, sh': Shared, except: set<GrantId>) {
    |sh'.grants| == |sh.grants| && forall g :: 0 <= g < |sh.grants| && g !in except ==> sh'.grants[g] == sh.grants[g]
  }

  lemma AloneEnds(s: State, t: ThreadId, a: Action)
    requires Allowed(s, t, a) && !a.Advance?
    ensures Alone(s, t, a).threads == s.threads
  {
    var s1 := Apply(s, t, a);
    assert Onward(s1, t).threads[t].Idle? || Onward(s1, t).threads[t].SwapSecond?;
  }

  /** All that `from` holds goes to `into`. */
  lemma SubsumeAlone(s: State, t: ThreadId, into: GrantId, from: GrantId)
    requires Allowed(s, t, Subsume(into, from))
    ensures var s' := Alone(s, t, Subsume(into, from));
            && SameGrants(s.sh, s'.sh, {into, from}) && s'.sh.pool == s.sh.pool
            && (into == from || !s.sh.grants[from].attached ==> s' == s)
            && (into != from && s.sh.grants[from].attached ==>
                  && s'.sh.grants[into] == s.sh.grants[into].(size := s.sh.grants[into].size + s.sh.grants[from].size)
                  && s'.sh.grants[from] == s.sh.grants[from].(size := 0))
  {
    AloneEnds(s, t, Subsume(into, from));
    var s' := Alone(s, t, Subsume(into, from));
    if into == from || !s.sh.grants[from].attached { assert s'.sh.grants == s.sh.grants; }
  }

  /** The two grants change places, issuers included. */
  lemma SwapAlone(s: State, t: ThreadId, x: GrantId, y: GrantId)
    requires Allowed(s, t, Swap(x, y)) && x != y
    ensures var s' := Alone(s, t, Swap(x, y));
            && SameGrants(s.sh, s'.sh, {x, y}) && s'.sh.pool == s.sh.pool
            && s'.sh.grants[x] == s.sh.grants[y] && s'.sh.grants[y] == s.sh.grants[x]
  {
  }

  /** What goes back to the pool can be issued again. */
  lemma ReturnAlone(s: State, t: ThreadId, g: GrantId)
    requires Allowed(s, t, SpendAll(g))
    ensures var s' := Alone(s, t, SpendAll(g));
            if s.sh.grants[g].attached
            then s'.sh.grants == s.sh.grants[g := s.sh.grants[g].(size := 0)] && s'.sh.pool == s.sh.pool.(available := s.sh.pool.available + s.sh.grants[g].size)
            else s' == s
  {
    AloneEnds(s, t, SpendAll(g));
  }

  lemma GrowAlone(s: State, t: ThreadId, count: nat)
    requires Allowed(s, t, Grow(count))
    ensures Alone(s, t, Grow(count)).sh ==
            s.sh.(pool := s.sh.pool.(total := s.sh.pool.total + count, available := s.sh.pool.available + count))
  {
  }

  /** A move hands everything to the new grant. */
  lemma MoveAlone(s: State, t: ThreadId, from: GrantId)
    requires Allowed(s, t, Move(from))
    ensures var s' := Alone(s, t, Move(from));
            && s'.sh.pool == s.sh.pool && s'.threads == s.threads
            && |s'.sh.grants| == |s.sh.grants| + 1 && s'.sh.grants[|s.sh.grants|] == s.sh.grants[from]
            && s'.sh.grants[from].size == 0 && !s'.sh.grants[from].attached && !s'.sh.grants[from].gone
            && forall g :: 0 <= g < |s.sh.grants| && g != from ==> s'.sh.grants[g] == s.sh.grants[g]
  {
    AloneEnds(s, t, Move(from));
  }

  /** Destroying a grant gives back what it holds, if it has an issuer. */
  lemma DestroyAlone(s: State, t: ThreadId, g: GrantId)
    requires Allowed(s, t, Destroy(g))
    ensures var s' := Alone(s, t, Destroy(g));
            && SameGrants(s.sh, s'.sh, {g}) && !Live(s'.sh, g) && s'.sh.grants[g].size == 0
            && s'.sh.pool.available == s.sh.pool.available + (if s.sh.grants[g].attached then s.sh.grants[g].size else 0)
            && s'.sh.pool.total == s.sh.pool.total
  {
    AloneEnds(s, t, Destroy(g));
  }

  /** The pool is closed by the first `Close` and by nothing else. */
  lemma {:induction false} ClosedByClose(run: seq<State>, events: seq<Event>, i: nat)
    requires IsRun(run, events) && i < |run| && !run[0].sh.pool.closed
    ensures run[i].sh.pool.closed <==> exists k :: 0 <= k < i && events[k].a.Close?
  {
    if i > 0 {
      ClosedByClose(run, events, i - 1);
      assert Happens(run[i - 1], events[i - 1], run[i]);
      assert run[i].sh.pool.closed <==> run[i - 1].sh.pool.closed || events[i - 1].a.Close?;
    }
  }

  // ---------------------------------------------------------------- how it can be lost

  lemma Then(run: seq<State>, events: seq<Event>, t: ThreadId, a: Action) returns (run': seq<State>, events': seq<Event>)
    requires IsRun(run, events) && Allowed(run[|events|], t, a)
    ensures IsRun(run', events') && events' == events + [Event(t, a)] && run'[|events'|] == Apply(run[|events|], t, a)
  {
    run', events' := run + [Apply(run[|events|], t, a)], events + [Event(t, a)];
    forall i | 0 <= i < |events'| ensures Happens(run'[i], events'[i], run'[i + 1]) {
      assert i < |events| ==> Happens(run[i], events[i], run[i + 1]);
    }
  }

  /** From every reachable state: swapping a grant with itself loses exactly its size. */
  lemma SelfSwapLoses(run: seq<State>, events: seq<Event>, t: ThreadId, g: GrantId)
    returns (run': seq<State>, events': seq<Event>)
    requires IsRun(run, events) && t < |run[|events|].threads| && run[|events|].threads[t].Idle? && Live(run[|events|].sh, g)
    ensures IsRun(run', events') && events + [Event(t, Swap(g, g))] <= events'
    ensures var s, s' := run[|events|], run'[|events'|];
            s'.sh == SetSize(s.sh, g, 0).(pool := s.sh.pool.(overwritten := s.sh.pool.overwritten + s.sh.grants[g].size))
  {
    run', events' := Then(run, events, t, Swap(g, g));
    run', events' := Then(run', events', t, Advance);
    run', events' := Then(run', events', t, Advance);
  }

  /** The thread's next step stores in `y` what it has in hand. */
  predicate StoresNext(th: Thread, y: GrantId) {
    || (th.Subsuming? && th.into == y)
    || (th.SwapFirst? && th.a == y)
    || (th.SwapSecond? && th.b == y)
  }

  /**
    From every reachable state: if another operation is about to store in `y`, swapping some `x` with
    `y` around that store loses exactly what is stored.
   */
  lemma SwapAroundStoreLoses(run: seq<State>, events: seq<Event>, t: ThreadId, u: ThreadId, x: GrantId, y: GrantId)
    returns (run': seq<State>, events': seq<Event>)
    requires IsRun(run, events) && t < |run[|events|].threads| && u < |run[|events|].threads|
    requires run[|events|].threads[t].Idle? && StoresNext(run[|events|].threads[u], y)
    requires Live(run[|events|].sh, x) && Live(run[|events|].sh, y) && x != y
    ensures IsRun(run', events') && events + [Event(t, Swap(x, y))] <= events'
    ensures run'[|events'|].sh.pool.overwritten == run[|events|].sh.pool.overwritten + run[|events|].threads[u].count
  {
    TargetsStayLive(run, events, |events|, u);
    run', events' := Then(run, events, t, Swap(x, y));
    TargetsStayLive(run', events', |events'|, u);
    run', events' := Then(run', events', u, Advance);
    run', events' := Then(run', events', t, Advance);
    run', events' := Then(run', events', t, Advance);
  }

  /** The grant is the one a swap stores in last. */
  predicate SecondOf(th: Thread, g: GrantId) { (th.SwapFirst? || th.SwapSecond?) && th.b == g }

  predicate NotSecond(threads: seq<Thread>, g: GrantId) {
    forall t :: 0 <= t < |threads| ==> !SecondOf(threads[t], g)
  }

  /** What the two stores of a swap between different grants leave behind. */
  function Swapped(s: State, u: ThreadId): State
    requires u < |s.threads| && s.threads[u].SwapFirst? && TargetsLive(s.sh, s.threads[u])
  {
    var x, y := s.threads[u].a, s.threads[u].b;
    var pool := s.sh.pool.(overwritten := s.sh.pool.overwritten + s.sh.grants[y].size);
    State(SetSize(SetSize(s.sh.(pool := pool), x, s.threads[u].count), y, s.sh.grants[x].size), s.threads[u := Idle])
  }

  lemma BothStores(run: seq<State>, events: seq<Event>, u: ThreadId) returns (run': seq<State>, events': seq<Event>)
    requires IsRun(run, events) && u < |run[|events|].threads| && run[|events|].threads[u].SwapFirst?
    requires run[|events|].threads[u].a != run[|events|].threads[u].b && TargetsLive(run[|events|].sh, run[|events|].threads[u])
    ensures IsRun(run', events') && events <= events' && run'[|events'|] == Swapped(run[|events|], u)
  {
    var s := run[|events|];
    run', events' := Then(run, events, u, Advance);
    run', events' := Then(run', events', u, Advance);
    assert s.threads[u := SwapSecond(s.threads[u].b, s.sh.grants[s.threads[u].a].size)][u := Idle] == s.threads[u := Idle];
  }

  /** Lets a swap under way come to its end. */
  lemma SwapEnds(run: seq<State>, events: seq<Event>, u: ThreadId) returns (run': seq<State>, events': seq<Event>)
    requires IsRun(run, events) && u < |run[|events|].threads|
    requires run[|events|].threads[u].SwapSecond? || (run[|events|].threads[u].SwapFirst? && run[|events|].threads[u].a != run[|events|].threads[u].b)
    ensures IsRun(run', events') && events <= events' && run[|events|].threads[u].b < |run[|events|].sh.grants|
    ensures run'[|events'|].sh.pool.overwritten ==
            run[|events|].sh.pool.overwritten + run[|events|].sh.grants[run[|events|].threads[u].b].size
  {
    TargetsStayLive(run, events, |events|, u);
    run', events' := Then(run, events, u, Advance);
    if run[|events|].threads[u].SwapFirst? {
      run', events' := Then(run', events', u, Advance);
    }
  }

  /**
    From every reachable state: what is subsumed into a grant that a swap has yet to store in last is
    lost when that swap ends, with what the grant held besides.
   */
  lemma SubsumeUnderSwapLoses(run: seq<State>, events: seq<Event>, t: ThreadId, u: ThreadId, y: GrantId, from: GrantId)
    returns (run': seq<State>, events': seq<Event>)
    requires IsRun(run, events) && t < |run[|events|].threads| && u < |run[|events|].threads|
    requires run[|events|].threads[t].Idle? && SecondOf(run[|events|].threads[u], y)
    requires run[|events|].threads[u].SwapFirst? ==> run[|events|].threads[u].a != y
    requires Allowed(run[|events|], t, Subsume(y, from)) && run[|events|].sh.grants[from].attached
    ensures IsRun(run', events') && events + [Event(t, Subsume(y, from))] <= events'
    ensures var s := run[|events|];
            run'[|events'|].sh.pool.overwritten ==
            s.sh.pool.overwritten + s.sh.grants[from].size + (if from == y then 0 else s.sh.grants[y].size)
  {
    run', events' := Then(run, events, t, Subsume(y, from));
    run', events' := Then(run', events', t, Advance);
    run', events' := SwapEnds(run', events', u);
  }

  /**
    From every reachable state: two swaps with the same second grant.  If the one that started first
    ends first, what it stored there is lost.
   */
  lemma SwapUnderSwapLoses(run: seq<State>, events: seq<Event>, t: ThreadId, u: ThreadId, x: GrantId)
    returns (run': seq<State>, events': seq<Event>)
    requires IsRun(run, events) && t < |run[|events|].threads| && u < |run[|events|].threads|
    requires run[|events|].threads[t].Idle? && run[|events|].threads[u].SwapFirst?
    requires var th := run[|events|].threads[u]; x != th.b && th.a != th.b && Live(run[|events|].sh, x)
    ensures IsRun(run', events') && events + [Event(t, Swap(x, run[|events|].threads[u].b))] <= events'
    ensures var s := run[|events|];
            && s.threads[u].a < |s.sh.grants|
            && run'[|events'|].sh.pool.overwritten == s.sh.pool.overwritten + s.sh.grants[s.threads[u].a].size
  {
    TargetsStayLive(run, events, |events|, u);
    run', events' := Then(run, events, t, Swap(x, run[|events|].threads[u].b));
    run', events' := BothStores(run', events', u);
    run', events' := BothStores(run', events', t);
  }

  /**
    From every reachable state: swapping a grant that another swap has yet to store in last loses
    exactly what the new swap brings.
   */
  lemma SwapOfSwappedLoses(run: seq<State>, events: seq<Event>, t: ThreadId, u: ThreadId, x: GrantId, y: GrantId)
    returns (run': seq<State>, events': seq<Event>)
    requires IsRun(run, events) && t < |run[|events|].threads| && u < |run[|events|].threads|
    requires run[|events|].threads[t].Idle? && SecondOf(run[|events|].threads[u], x)
    requires run[|events|].threads[u].SwapFirst? ==> run[|events|].threads[u].a != x
    requires x != y && Live(run[|events|].sh, y)
    ensures IsRun(run', events') && events + [Event(t, Swap(x, y))] <= events'
    ensures run'[|events'|].sh.pool.overwritten == run[|events|].sh.pool.overwritten + run[|events|].sh.grants[y].size
  {
    TargetsStayLive(run, events, |events|, u);
    run', events' := Then(run, events, t, Swap(x, y));
    run', events' := Then(run', events', t, Advance);
    run', events' := SwapEnds(run', events', u);
  }

  // ---------------------------------------------------------------- exactly these calls can overwrite

  /**
    The calls that none of the above applies to: no grant is swapped with itself, the second grant is
    not being stored in, and neither the first grant nor one subsumed into is another swap's second.
   */
  predicate Clear(s: State, a: Action) {
    match a
    case Swap(x, y) => x != y && Untouched(s.threads, y) && NotSecond(s.threads, x)
    case Subsume(into, from) => Detached(s.sh, from) || NotSecond(s.threads, into)
    case _ => true
  }

  /** The grant was moved from, or swapped with one that was. */
  predicate Detached(sh: Shared, g: GrantId) { g < |sh.grants| && !sh.grants[g].attached }

  /** The last store of a swap finds nothing, and nobody else stores there. */
  ghost predicate SwapClear(sh: Shared, th: Thread) {
    && TargetsLive(sh, th)
    && (th.SwapFirst? ==> th.a != th.b)
    && (th.SwapFirst? || th.SwapSecond? ==> sh.grants[th.b].size == 0)
  }

  ghost predicate SecondAlone(threads: seq<Thread>) {
    forall t, u, g :: 0 <= t < |threads| && 0 <= u < |threads| && SecondOf(threads[t], g) && Targets(threads[u], g) ==> t == u
  }

  ghost predicate AllClear(s: State) {
    && (forall t :: 0 <= t < |s.threads| ==> SwapClear(s.sh, s.threads[t]))
    && SecondAlone(s.threads)
    && s.sh.pool.overwritten == 0
  }

  /** A step stores nothing where another swap is to store last. */
  lemma SecondKept(s: State, t: ThreadId, a: Action, u: ThreadId)
    requires Allowed(s, t, a) && AllClear(s) && u < |s.threads| && u != t && (s.threads[u].SwapFirst? || s.threads[u].SwapSecond?)
    ensures var b := s.threads[u].b; b < |Apply(s, t, a).sh.grants| && Apply(s, t, a).sh.grants[b].size == 0
  {
    var b := s.threads[u].b;
    assert SwapClear(s.sh, s.threads[u]) && SwapClear(s.sh, s.threads[t]);
    assert SecondOf(s.threads[u], b) && !Targets(s.threads[t], b);
  }

  lemma StepSwapClear(s: State, t: ThreadId, a: Action, u: ThreadId)
    requires Allowed(s, t, a) && AllClear(s) && Clear(s, a) && u < |s.threads|
    ensures SwapClear(Apply(s, t, a).sh, Apply(s, t, a).threads[u])
  {
    assert SwapClear(s.sh, s.threads[u]);
    if u == t {
      MoverTargetsLive(s, t, a);
    } else {
      assert a.Destroy? ==> !Targets(s.threads[u], a.g);
      StepTargetsLive(s, t, a, s.threads[u]);
      if s.threads[u].SwapFirst? || s.threads[u].SwapSecond? { SecondKept(s, t, a, u); }
    }
  }

  lemma StepSecondAlone(s: State, t: ThreadId, a: Action)
    requires Allowed(s, t, a) && Clear(s, a) && SecondAlone(s.threads)
    ensures SecondAlone(Apply(s, t, a).threads)
  {
    var threads := Apply(s, t, a).threads;
    forall u, v, g | 0 <= u < |threads| && 0 <= v < |threads| && SecondOf(threads[u], g) && Targets(threads[v], g)
      ensures u == v
    {
      assert u != t ==> SecondOf(s.threads[u], g);
      assert v != t ==> Targets(s.threads[v], g);
    }
  }

  /** A clear call keeps every swap's last store from overwriting anything. */
  lemma StepClear(s: State, t: ThreadId, a: Action)
    requires Allowed(s, t, a) && AllClear(s) && Clear(s, a)
    ensures AllClear(Apply(s, t, a))
  {
    assert SwapClear(s.sh, s.threads[t]);
    forall u | 0 <= u < |s.threads| ensures SwapClear(Apply(s, t, a).sh, Apply(s, t, a).threads[u]) { StepSwapClear(s, t, a, u); }
    StepSecondAlone(s, t, a);
  }

  /** In every run of clear calls no swap overwrites anything; by the lemmas above every other call can. */
  lemma {:induction false} ClearCallsOverwriteNothing(run: seq<State>, events: seq<Event>, i: nat)
    requires IsRun(run, events) && i < |run| && forall k :: 0 <= k < |events| ==> Clear(run[k], events[k].a)
    ensures AllClear(run[i]) && run[i].sh.pool.overwritten == 0
  {
    if i > 0 {
      ClearCallsOverwriteNothing(run, events, i - 1);
      assert Happens(run[i - 1], events[i - 1], run[i]);
      StepClear(run[i - 1], events[i - 1].t, events[i - 1].a);
    }
  }

  /** What a call that is not clear puts at risk, given the operation `u` it gets in the way of. */
  function AtRisk(sh: Shared, u: Thread, a: Action): nat
    requires a.Swap? ==> Live(sh, a.a) && Live(sh, a.b)
    requires a.Subsume? ==> Live(sh, a.from)
    requires TargetsLive(sh, u)
  {
    match a
    case Swap(x, y) =>
      if x == y then sh.grants[x].size
      else if StoresNext(u, y) then u.count
      else if SecondOf(u, y) then sh.grants[u.a].size
      else sh.grants[y].size
    case Subsume(_, from) => sh.grants[from].size
    case _ => 0
  }

  /** What a call that is not clear gets in the way of. */
  predicate InTheWay(sh: Shared, u: Thread, a: Action) {
    match a
    case Swap(x, y) => x == y || Targets(u, y) || SecondOf(u, x)
    case Subsume(into, from) => !Detached(sh, from) && SecondOf(u, into)
    case _ => false
  }

  lemma UnclearMeans(s: State, t: ThreadId, a: Action)
    requires t < |s.threads|
    ensures !Clear(s, a) <==> exists u :: 0 <= u < |s.threads| && InTheWay(s.sh, s.threads[u], a)
  {
    if a.Swap? && a.a == a.b { assert InTheWay(s.sh, s.threads[t], a); }
  }

  /**
    The other half: from every reachable state without a hazard, every call that is not clear can lead
    to exactly the amount at risk being overwritten, whichever operation it gets in the way of.
   */
  lemma UnclearCallCanOverwrite(run: seq<State>, events: seq<Event>, t: ThreadId, a: Action, u: ThreadId)
    returns (run': seq<State>, events': seq<Event>)
    requires IsRun(run, events) && AllClear(run[|events|]) && Allowed(run[|events|], t, a)
    requires u < |run[|events|].threads| && InTheWay(run[|events|].sh, run[|events|].threads[u], a)
    ensures IsRun(run', events') && events + [Event(t, a)] <= events'
    ensures TargetsLive(run[|events|].sh, run[|events|].threads[u])
    ensures run'[|events'|].sh.pool.overwritten == AtRisk(run[|events|].sh, run[|events|].threads[u], a)
  {
    var s := run[|events|];
    assert SwapClear(s.sh, s.threads[u]);
    if a.Subsume? {
      run', events' := SubsumeUnderSwapLoses(run, events, t, u, a.into, a.from);
    } else if a.a == a.b {
      run', events' := SelfSwapLoses(run, events, t, a.a);
    } else if StoresNext(s.threads[u], a.b) {
      run', events' := SwapAroundStoreLoses(run, events, t, u, a.a, a.b);
    } else if SecondOf(s.threads[u], a.b) {
      run', events' := SwapUnderSwapLoses(run, events, t, u, a.a);
    } else {
      run', events' := SwapOfSwappedLoses(run, events, t, u, a.a, a.b);
    }
  }

  // ---------------------------------------------------------------- nothing is left in a detached grant either

  /** A swap that is about to store in `g` for the first time. */
  predicate FirstOf(th: Thread, g: GrantId) { th.SwapFirst? && th.a == g }

  predicate NotFirst(threads: seq<Thread>, g: GrantId) {
    forall t :: 0 <= t < |threads| ==> !FirstOf(threads[t], g)
  }

  /** It passes on what it finds there to a grant that gives nothing back. */
  predicate PassesOn(sh: Shared, th: Thread, g: GrantId) { FirstOf(th, g) && Detached(sh, th.b) }

  function SizeOf(sh: Shared, g: GrantId): nat { if g < |sh.grants| then sh.grants[g].size else 0 }

  /** The call strands nothing because of the operation `u`. */
  predicate Spares(sh: Shared, u: Thread, a: Action) {
    match a
    case Swap(x, y) =>
      && (Detached(sh, x) && FirstOf(u, x) ==> SizeOf(sh, x) == 0)
      && (Detached(sh, y) && StoresNext(u, x) ==> u.count == 0)
      && (PassesOn(sh, u, x) ==> SizeOf(sh, y) == 0)
    case Subsume(into, from) => PassesOn(sh, u, into) && !Detached(sh, from) ==> SizeOf(sh, from) == 0
    case _ => true
  }

  /** The calls that lose nothing, neither by overwriting nor in detached grants. */
  predicate Careful(s: State, a: Action) {
    Clear(s, a) && forall u :: 0 <= u < |s.threads| ==> Spares(s.sh, s.threads[u], a)
  }

  /** What an operation has in hand, or is to pass on, does not end in a detached grant. */
  ghost predicate ThreadKept(sh: Shared, th: Thread) {
    match th
    case Subsuming(into, count) => Detached(sh, into) ==> count == 0
    case SwapFirst(x, y, count) => (Detached(sh, x) ==> count == 0) && (Detached(sh, y) ==> SizeOf(sh, x) == 0)
    case SwapSecond(y, count) => Detached(sh, y) ==> count == 0
    case _ => true
  }

  /** Nor does what another operation is about to store where a swap passes it on. */
  ghost predicate PairKept(sh: Shared, th: Thread, other: Thread) {
    th.SwapFirst? && Detached(sh, th.b) && StoresNext(other, th.a) ==> other.count == 0
  }

  ghost predicate GrantKept(s: State, g: GrantId) {
    Live(s.sh, g) && Detached(s.sh, g) && NotFirst(s.threads, g) ==> s.sh.grants[g].size == 0
  }

  ghost predicate ThreadsKept(s: State) { forall t :: 0 <= t < |s.threads| ==> ThreadKept(s.sh, s.threads[t]) }

  ghost predicate PairsKept(s: State) {
    forall t, u :: 0 <= t < |s.threads| && 0 <= u < |s.threads| && t != u ==> PairKept(s.sh, s.threads[t], s.threads[u])
  }

  ghost predicate GrantsKept(s: State) { forall g :: 0 <= g < |s.sh.grants| ==> GrantKept(s, g) }

  ghost predicate Kept(s: State) {
    AllClear(s) && ThreadsKept(s) && PairsKept(s) && GrantsKept(s) && s.sh.pool.abandoned == 0
  }

  /** An operation under way stores neither last in what is swapped first, nor at all in what is swapped second or moved. */
  lemma FlagsKept(s: State, t: ThreadId, a: Action, u: ThreadId, g: GrantId)
    requires Allowed(s, t, a) && Clear(s, a) && u < |s.threads| && u != t && Targets(s.threads[u], g) && Live(s.sh, g)
    ensures Detached(Apply(s, t, a).sh, g) && !Detached(s.sh, g) ==> a.Swap? && a.a == g && Detached(s.sh, a.b)
    ensures SecondOf(s.threads[u], g) ==> Detached(Apply(s, t, a).sh, g) == Detached(s.sh, g)
  {
    assert a.Move? ==> !Targets(s.threads[u], a.from);
    if a.Swap? { assert !Targets(s.threads[u], a.b) && !SecondOf(s.threads[u], a.a); }
  }

  lemma MoverKept(s: State, t: ThreadId, a: Action)
    requires Allowed(s, t, a) && Careful(s, a) && Kept(s)
    ensures ThreadKept(Apply(s, t, a).sh, Apply(s, t, a).threads[t])
  {
    assert ThreadKept(s.sh, s.threads[t]) && SwapClear(s.sh, s.threads[t]);
    if a.Swap? {
      UntouchedNotFirst(s.threads, a.b);
      assert GrantKept(s, a.a) && GrantKept(s, a.b);
      if !NotFirst(s.threads, a.a) {
        var u :| 0 <= u < |s.threads| && FirstOf(s.threads[u], a.a);
        assert Spares(s.sh, s.threads[u], a);
      }
    }
  }

  lemma UntouchedNotFirst(threads: seq<Thread>, g: GrantId)
    requires Untouched(threads, g)
    ensures NotFirst(threads, g)
  {
    forall t | 0 <= t < |threads| ensures !FirstOf(threads[t], g) { assert !Targets(threads[t], g); }
  }

  /** What a swap is to pass on to a detached grant stays nothing. */
  lemma PassedOnKept(s: State, t: ThreadId, a: Action, u: ThreadId)
    requires Allowed(s, t, a) && Careful(s, a) && Kept(s) && u < |s.threads| && u != t
    requires s.threads[u].SwapFirst? && Detached(s.sh, s.threads[u].b)
    ensures SizeOf(Apply(s, t, a).sh, s.threads[u].a) == 0
  {
    var x := s.threads[u].a;
    assert ThreadKept(s.sh, s.threads[u]) && SwapClear(s.sh, s.threads[u]) && SwapClear(s.sh, s.threads[t]);
    assert PairKept(s.sh, s.threads[u], s.threads[t]);
    assert Targets(s.threads[u], x) && (SecondOf(s.threads[t], x) ==> t == u);
  }

  lemma OtherKept(s: State, t: ThreadId, a: Action, u: ThreadId)
    requires Allowed(s, t, a) && Careful(s, a) && Kept(s) && u < |s.threads| && u != t
    ensures ThreadKept(Apply(s, t, a).sh, s.threads[u])
  {
    var th := s.threads[u];
    assert ThreadKept(s.sh, th) && SwapClear(s.sh, th) && Spares(s.sh, th, a);
    match th
    case Subsuming(into, _) => FlagsKept(s, t, a, u, into);
    case SwapFirst(x, y, _) =>
      FlagsKept(s, t, a, u, x);
      FlagsKept(s, t, a, u, y);
      if Detached(s.sh, y) { PassedOnKept(s, t, a, u); }
    case SwapSecond(y, _) => FlagsKept(s, t, a, u, y);
    case _ =>
  }

  lemma StepPairKept(s: State, t: ThreadId, a: Action, u: ThreadId, v: ThreadId)
    requires Allowed(s, t, a) && Careful(s, a) && Kept(s) && u < |s.threads| && v < |s.threads| && u != v
    ensures PairKept(Apply(s, t, a).sh, Apply(s, t, a).threads[u], Apply(s, t, a).threads[v])
  {
    assert PairKept(s.sh, s.threads[u], s.threads[v]) && SwapClear(s.sh, s.threads[u]) && SwapClear(s.sh, s.threads[v]);
    assert ThreadKept(s.sh, s.threads[v]) && Spares(s.sh, s.threads[u], a);
    if u != t && s.threads[u].SwapFirst? {
      FlagsKept(s, t, a, u, s.threads[u].b);
      assert Targets(s.threads[u], s.threads[u].a);
    } else if a.Swap? && u == t {
      assert !SecondOf(s.threads[v], a.a);
    }
  }

  lemma SameFirsts(s: State, t: ThreadId, a: Action, g: GrantId)
    requires Allowed(s, t, a) && NotFirst(Apply(s, t, a).threads, g)
    ensures NotFirst(s.threads, g) || FirstOf(s.threads[t], g)
  {
    var threads := Apply(s, t, a).threads;
    if !FirstOf(s.threads[t], g) {
      forall u | 0 <= u < |s.threads| ensures !FirstOf(s.threads[u], g) {
        assert !FirstOf(threads[u], g);
      }
    }
  }

  lemma StepGrantKept(s: State, t: ThreadId, a: Action, g: GrantId)
    requires Allowed(s, t, a) && Careful(s, a) && Kept(s) && g < |Apply(s, t, a).sh.grants|
    ensures GrantKept(Apply(s, t, a), g)
  {
    var s' := Apply(s, t, a);
    assert ThreadKept(s.sh, s.threads[t]);
    if Live(s'.sh, g) && Detached(s'.sh, g) && NotFirst(s'.threads, g) {
      SameFirsts(s, t, a, g);
      if g < |s.sh.grants| {
        assert GrantKept(s, g);
        assert a.Swap? ==> g != a.a by { if a.Swap? { assert !FirstOf(s'.threads[t], g); } }
      } else if a.Move? {
        UntouchedNotFirst(s.threads, a.from);
        assert GrantKept(s, a.from);
      }
    }
  }

  lemma NothingAbandoned(s: State, t: ThreadId, a: Action)
    requires Allowed(s, t, a) && Kept(s)
    ensures Apply(s, t, a).sh.pool.abandoned == 0
  {
    if a.Destroy? {
      UntouchedNotFirst(s.threads, a.g);
      assert GrantKept(s, a.g);
    }
  }

  /** A careful call loses nothing and keeps it that way. */
  lemma StepKept(s: State, t: ThreadId, a: Action)
    requires Allowed(s, t, a) && Careful(s, a) && Kept(s)
    ensures Kept(Apply(s, t, a))
  {
    var s' := Apply(s, t, a);
    StepClear(s, t, a);
    forall u | 0 <= u < |s'.threads| ensures ThreadKept(s'.sh, s'.threads[u]) {
      if u == t { MoverKept(s, t, a); } else { OtherKept(s, t, a, u); }
    }
    forall u, v | 0 <= u < |s'.threads| && 0 <= v < |s'.threads| && u != v ensures PairKept(s'.sh, s'.threads[u], s'.threads[v]) {
      StepPairKept(s, t, a, u, v);
    }
    forall g | 0 <= g < |s'.sh.grants| ensures GrantKept(s', g) { StepGrantKept(s, t, a, g); }
    NothingAbandoned(s, t, a);
  }

  ghost predicate AllCareful(run: seq<State>, events: seq<Event>)
    requires |run| == |events| + 1
  {
    forall i :: 0 <= i < |events| ==> Careful(run[i], events[i].a)
  }

  lemma {:induction false} RunKept(run: seq<State>, events: seq<Event>, i: nat)
    requires IsRun(run, events) && AllCareful(run, events) && i < |run|
    ensures Kept(run[i])
  {
    if i > 0 {
      RunKept(run, events, i - 1);
      assert Happens(run[i - 1], events[i - 1], run[i]);
      StepKept(run[i - 1], events[i - 1].t, events[i - 1].a);
    }
  }

  /** In every run of careful calls nothing is ever lost. */
  lemma CarefulConserves(run: seq<State>, events: seq<Event>, i: nat)
    requires IsRun(run, events) && AllCareful(run, events) && i < |run|
    ensures run[i].sh.pool.Lost() == 0
    ensures run[i].sh.pool.total == run[i].sh.pool.available + Sizes(run[i].sh.grants) + InFlight(run[i].threads)
  {
    RunConserves(run, events, i);
    RunKept(run, events, i);
  }

  // ---------------------------------------------------------------- simpler conditions that suffice

  predicate Swapping(th: Thread, g: GrantId) { FirstOf(th, g) || SecondOf(th, g) }

  /** No grant is swapped with itself, or while another operation stores in it. */
  predicate Disciplined(s: State, a: Action) {
    match a
    case Swap(x, y) => x != y && Untouched(s.threads, x) && Untouched(s.threads, y)
    case Subsume(into, _) => forall t :: 0 <= t < |s.threads| ==> !Swapping(s.threads[t], into)
    case _ => true
  }

  lemma DisciplinedIsCareful(s: State, a: Action)
    requires Disciplined(s, a)
    ensures Careful(s, a)
  {
    forall u | 0 <= u < |s.threads| ensures a.Swap? ==> !SecondOf(s.threads[u], a.a) && Spares(s.sh, s.threads[u], a) {
      if a.Swap? { assert !Targets(s.threads[u], a.a); }
    }
    forall u | 0 <= u < |s.threads| ensures a.Subsume? ==> !SecondOf(s.threads[u], a.into) && Spares(s.sh, s.threads[u], a) {
      if a.Subsume? { assert !Swapping(s.threads[u], a.into); }
    }
  }

  /** As long as swaps and subsumes are disciplined, nothing is ever lost. */
  lemma DisciplinedConserves(run: seq<State>, events: seq<Event>, i: nat)
    requires IsRun(run, events) && i < |run| && forall k :: 0 <= k < |events| ==> Disciplined(run[k], events[k].a)
    ensures run[i].sh.pool.Lost() == 0
    ensures run[i].sh.pool.total == run[i].sh.pool.available + Sizes(run[i].sh.grants) + InFlight(run[i].threads)
  {
    forall k | 0 <= k < |events| ensures Careful(run[k], events[k].a) { DisciplinedIsCareful(run[k], events[k].a); }
    CarefulConserves(run, events, i);
  }

  ghost predicate Moveless(events: seq<Event>) { forall k :: 0 <= k < |events| ==> !events[k].a.Move? }

  /** As long as no grant is moved from, every grant gives back what it holds. */
  lemma {:induction false} WithoutMoves(run: seq<State>, events: seq<Event>, i: nat)
    requires IsRun(run, events) && Moveless(events) && i < |run|
    ensures forall g :: 0 <= g < |run[i].sh.grants| ==> run[i].sh.grants[g].attached
    ensures run[i].sh.pool.abandoned == 0
  {
    if i > 0 {
      WithoutMoves(run, events, i - 1);
      assert Happens(run[i - 1], events[i - 1], run[i]) && !events[i - 1].a.Move?;
    }
  }

  /** So that then clear calls are enough; by `UnclearCallCanOverwrite` no less is. */
  lemma ClearConservesWithoutMoves(run: seq<State>, events: seq<Event>, i: nat)
    requires IsRun(run, events) && Moveless(events) && i < |run| && forall k :: 0 <= k < |events| ==> Clear(run[k], events[k].a)
    ensures run[i].sh.pool.Lost() == 0
    ensures run[i].sh.pool.total == run[i].sh.pool.available + Sizes(run[i].sh.grants) + InFlight(run[i].threads)
  {
    RunConserves(run, events, i);
    ClearCallsOverwriteNothing(run, events, i);
    WithoutMoves(run, events, i);
  }

  /**
    Once every grant is destroyed and nothing is under way, the issuer's check holds exactly if nothing
    was lost; so always after careful calls, and without moves always after clear ones.
   */
  lemma IssuerCheck(run: seq<State>, events: seq<Event>, i: nat)
    requires IsRun(run, events) && i < |run|
    requires forall t :: 0 <= t < |run[i].threads| ==> run[i].threads[t].Idle?
    requires forall g :: 0 <= g < |run[i].sh.grants| ==> run[i].sh.grants[g].gone
    ensures run[i].sh.pool.total == run[i].sh.pool.available <==> run[i].sh.pool.Lost() == 0
    ensures AllCareful(run, events) ==> run[i].sh.pool.total == run[i].sh.pool.available
    ensures Moveless(events) && (forall k :: 0 <= k < |events| ==> Clear(run[k], events[k].a))
            ==> run[i].sh.pool.total == run[i].sh.pool.available
  {
    RunConserves(run, events, i);
    IdleInFlight(run[i].threads);
    forall g | 0 <= g < |run[i].sh.grants| ensures run[i].sh.grants[g].size == 0 { GoneIsEmpty(run, events, i, g); }
    NoSizes(run[i].sh.grants);
    if AllCareful(run, events) {
      CarefulConserves(run, events, i);
    } else if Moveless(events) && (forall k :: 0 <= k < |events| ==> Clear(run[k], events[k].a)) {
      ClearConservesWithoutMoves(run, events, i);
    }
  }

  // ---------------------------------------------------------------- and exactly the careless calls can strand an amount

  /** What a call that is not careful strands because of the operation `u`. */
  function Stranded(sh: Shared, u: Thread, a: Action): nat {
    match a
    case Swap(x, y) =>
      if Detached(sh, x) && FirstOf(u, x) && SizeOf(sh, x) > 0 then SizeOf(sh, x)
      else if Detached(sh, y) && StoresNext(u, x) && u.count > 0 then u.count
      else SizeOf(sh, y)
    case Subsume(_, from) => SizeOf(sh, from)
    case _ => 0
  }

  /** Destroying a detached grant loses what it holds. */
  lemma Abandon(run: seq<State>, events: seq<Event>, t: ThreadId, g: GrantId)
    returns (run': seq<State>, events': seq<Event>)
    requires IsRun(run, events) && t < |run[|events|].threads| && run[|events|].threads[t].Idle?
    requires Live(run[|events|].sh, g) && Detached(run[|events|].sh, g) && Untouched(run[|events|].threads, g)
    ensures IsRun(run', events') && events < events'
    ensures run'[|events'|].sh.pool.Lost() == run[|events|].sh.pool.Lost() + run[|events|].sh.grants[g].size
  {
    run', events' := Then(run, events, t, Destroy(g));
  }

  lemma LeftUntouched(before: seq<Thread>, after: seq<Thread>, g: GrantId, t: ThreadId, u: ThreadId)
    requires |after| == |before| && forall i :: 0 <= i < |before| && i != t && i != u ==> after[i] == before[i] && !Targets(before[i], g)
    requires (t < |after| ==> !Targets(after[t], g)) && (u < |after| ==> !Targets(after[u], g))
    ensures Untouched(after, g)
  {
    forall i | 0 <= i < |after| ensures !Targets(after[i], g) {
      if i != t && i != u { assert !Targets(before[i], g); }
    }
  }

  /** Swapping a detached grant that a swap is about to empty: the amount it still holds goes to the new second grant, now detached. */
  lemma SwapOfEmptiedStrands(run: seq<State>, events: seq<Event>, t: ThreadId, x: GrantId, y: GrantId)
    returns (run': seq<State>, events': seq<Event>)
    requires IsRun(run, events) && Allowed(run[|events|], t, Swap(x, y)) && Clear(run[|events|], Swap(x, y))
    requires Detached(run[|events|].sh, x)
    ensures IsRun(run', events') && events + [Event(t, Swap(x, y))] <= events'
    ensures run'[|events'|].sh.pool.Lost() == run[|events|].sh.pool.Lost() + run[|events|].sh.grants[x].size
  {
    var s := run[|events|];
    run', events' := Then(run, events, t, Swap(x, y));
    run', events' := BothStores(run', events', t);
    forall i | 0 <= i < |s.threads| ensures !Targets(s.threads[i], y) {}
    LeftUntouched(s.threads, run'[|events'|].threads, y, t, t);
    run', events' := Abandon(run', events', t, y);
  }

  /** Swapping a grant that a swap passes on to a detached one: what the new swap brings is passed on. */
  lemma SwapOfPassedOnStrands(run: seq<State>, events: seq<Event>, t: ThreadId, x: GrantId, y: GrantId, u: ThreadId)
    returns (run': seq<State>, events': seq<Event>)
    requires IsRun(run, events) && Kept(run[|events|]) && Allowed(run[|events|], t, Swap(x, y)) && Clear(run[|events|], Swap(x, y))
    requires u < |run[|events|].threads| && PassesOn(run[|events|].sh, run[|events|].threads[u], x)
    ensures IsRun(run', events') && events + [Event(t, Swap(x, y))] <= events'
    ensures run'[|events'|].sh.pool.Lost() == run[|events|].sh.grants[y].size
  {
    var s, q := run[|events|], run[|events|].threads[u].b;
    assert SwapClear(s.sh, s.threads[u]) && !Targets(s.threads[u], y) && !SecondOf(s.threads[u], x);
    assert SecondOf(s.threads[u], q);
    run', events' := Then(run, events, t, Swap(x, y));
    run', events' := BothStores(run', events', t);
    run', events' := BothStores(run', events', u);
    LeftUntouched(s.threads, run'[|events'|].threads, q, t, u);
    run', events' := Abandon(run', events', t, q);
  }

  /** Subsuming into a grant that a swap passes on to a detached one. */
  lemma SubsumeOfPassedOnStrands(run: seq<State>, events: seq<Event>, t: ThreadId, x: GrantId, from: GrantId, u: ThreadId)
    returns (run': seq<State>, events': seq<Event>)
    requires IsRun(run, events) && Kept(run[|events|]) && Allowed(run[|events|], t, Subsume(x, from)) && !Detached(run[|events|].sh, from)
    requires u < |run[|events|].threads| && PassesOn(run[|events|].sh, run[|events|].threads[u], x)
    ensures IsRun(run', events') && events + [Event(t, Subsume(x, from))] <= events'
    ensures run'[|events'|].sh.pool.Lost() == run[|events|].sh.grants[from].size
  {
    var s, q := run[|events|], run[|events|].threads[u].b;
    assert SwapClear(s.sh, s.threads[u]) && ThreadKept(s.sh, s.threads[u]);
    assert SecondOf(s.threads[u], q);
    run', events' := Then(run, events, t, Subsume(x, from));
    run', events' := Then(run', events', t, Advance);
    run', events' := BothStores(run', events', u);
    LeftUntouched(s.threads, run'[|events'|].threads, q, t, u);
    run', events' := Abandon(run', events', t, q);
  }

  /** Only the size of `x` differs. */
  predicate SameBut(sh: Shared, sh': Shared, x: GrantId) {
    && sh'.pool == sh.pool && |sh'.grants| == |sh.grants|
    && forall g :: 0 <= g < |sh.grants| ==> sh'.grants[g] == (if g == x then sh.grants[g].(size := sh'.grants[g].size) else sh.grants[g])
  }

  /** Of the first `n` operations none but `t` and `u` stores in `x` any more. */
  ghost predicate Swept(threads: seq<Thread>, x: GrantId, t: ThreadId, u: ThreadId, n: nat) {
    forall i :: 0 <= i < n && i < |threads| && i != t && i != u ==> !Targets(threads[i], x)
  }

  /** Lets all operations but `t` and `u` that are about to store in `x` do so. */
  lemma {:induction false} Sweep(run: seq<State>, events: seq<Event>, x: GrantId, t: ThreadId, u: ThreadId, n: nat)
    returns (run': seq<State>, events': seq<Event>)
    requires IsRun(run, events) && n <= |run[|events|].threads| && NotSecond(run[|events|].threads, x)
    ensures IsRun(run', events') && events <= events' && SameBut(run[|events|].sh, run'[|events'|].sh, x)
    ensures |run'[|events'|].threads| == |run[|events|].threads| && NotSecond(run'[|events'|].threads, x)
    ensures forall i :: 0 <= i < |run[|events|].threads| && (i == t || i == u || i >= n) ==> run'[|events'|].threads[i] == run[|events|].threads[i]
    ensures Swept(run'[|events'|].threads, x, t, u, n)
    decreases n
  {
    run', events' := run, events;
    if n > 0 {
      run', events' := Sweep(run, events, x, t, u, n - 1);
      var i, s := n - 1, run'[|events'|];
      if i != t && i != u && Targets(s.threads[i], x) {
        TargetsStayLive(run', events', |events'|, i);
        assert !SecondOf(s.threads[i], x);
        run', events' := Then(run', events', i, Advance);
      }
    }
  }

  /** Swapping a grant with a detached one while another operation is about to store in it: what is stored stays in it, now detached. */
  lemma SwapUnderStoreStrands(run: seq<State>, events: seq<Event>, t: ThreadId, x: GrantId, y: GrantId, u: ThreadId)
    returns (run': seq<State>, events': seq<Event>)
    requires IsRun(run, events) && Kept(run[|events|]) && Allowed(run[|events|], t, Swap(x, y)) && Clear(run[|events|], Swap(x, y))
    requires u < |run[|events|].threads| && Detached(run[|events|].sh, y) && StoresNext(run[|events|].threads[u], x)
    ensures IsRun(run', events') && events + [Event(t, Swap(x, y))] <= events'
    ensures run'[|events'|].sh.pool.Lost() == run[|events|].threads[u].count
  {
    var s := run[|events|];
    UntouchedNotFirst(s.threads, y);
    assert GrantKept(s, y) && !SecondOf(s.threads[u], x) && u != t;
    run', events' := Then(run, events, t, Swap(x, y));
    var n := |s.threads|;
    forall i | 0 <= i < n ensures !SecondOf(run'[|events'|].threads[i], x) { assert !SecondOf(s.threads[i], x); }
    run', events' := Sweep(run', events', x, t, u, n);
    run', events' := LastStoreStrands(run', events', t, x, y, u);
  }

  /** The end of it: only the swap by `t` and then `u` are left to store in `x`. */
  lemma LastStoreStrands(run: seq<State>, events: seq<Event>, t: ThreadId, x: GrantId, y: GrantId, u: ThreadId)
    returns (run': seq<State>, events': seq<Event>)
    requires IsRun(run, events) && t < |run[|events|].threads| && u < |run[|events|].threads| && u != t && x != y
    requires run[|events|].threads[t] == SwapFirst(x, y, 0) && Live(run[|events|].sh, x) && Live(run[|events|].sh, y)
    requires Detached(run[|events|].sh, x) && run[|events|].sh.grants[y].size == 0
    requires StoresNext(run[|events|].threads[u], x) && NotSecond(run[|events|].threads, x)
    requires Swept(run[|events|].threads, x, t, u, |run[|events|].threads|)
    ensures IsRun(run', events') && events <= events'
    ensures run'[|events'|].sh.pool.Lost() == run[|events|].sh.pool.Lost() + run[|events|].threads[u].count
  {
    var s := run[|events|];
    assert !SecondOf(s.threads[u], x);
    TargetsStayLive(run, events, |events|, u);
    run', events' := BothStores(run, events, t);
    run', events' := Then(run', events', u, Advance);
    LeftUntouched(s.threads, run'[|events'|].threads, x, t, u);
    run', events' := Abandon(run', events', t, x);
  }

  /**
    The other half for detached grants: from every state that careful calls lead to, a clear call that
    is not careful can lead to exactly the amount stranded being lost, whichever operation it is
    careless about.
   */
  lemma CarelessCallCanStrand(run: seq<State>, events: seq<Event>, t: ThreadId, a: Action, u: ThreadId)
    returns (run': seq<State>, events': seq<Event>)
    requires IsRun(run, events) && Kept(run[|events|]) && Allowed(run[|events|], t, a) && Clear(run[|events|], a)
    requires u < |run[|events|].threads| && !Spares(run[|events|].sh, run[|events|].threads[u], a)
    ensures IsRun(run', events') && events + [Event(t, a)] <= events'
    ensures run'[|events'|].sh.pool.Lost() == Stranded(run[|events|].sh, run[|events|].threads[u], a) > 0
  {
    var s := run[|events|];
    var th := s.threads[u];
    match a
    case Subsume(into, from) =>
      run', events' := SubsumeOfPassedOnStrands(run, events, t, into, from, u);
    case Swap(x, y) =>
      if Detached(s.sh, x) && FirstOf(th, x) && SizeOf(s.sh, x) > 0 {
        run', events' := SwapOfEmptiedStrands(run, events, t, x, y);
      } else if Detached(s.sh, y) && StoresNext(th, x) && th.count > 0 {
        run', events' := SwapUnderStoreStrands(run, events, t, x, y, u);
      } else {
        run', events' := SwapOfPassedOnStrands(run, events, t, x, y, u);
      }
  }

  // ---------------------------------------------------------------- every operation comes to its end

  /** The stores that an operation has before it. */
  function Stores(th: Thread): nat { if th.Idle? then 0 else if th.SwapFirst? then 2 else 1 }

  function AllStores(threads: seq<Thread>): nat {
    if threads == [] then 0 else Stores(threads[0]) + AllStores(threads[1..])
  }

  lemma {:induction false} StoresUpdate(threads: seq<Thread>, t: nat, th: Thread)
    requires t < |threads|
    ensures AllStores(threads[t := th]) + Stores(threads[t]) == AllStores(threads) + Stores(th)
  {
    if t == 0 {
      assert threads[0 := th][1..] == threads[1..];
    } else {
      assert threads[t := th][1..] == threads[1..][t - 1 := th];
      StoresUpdate(threads[1..], t - 1, th);
    }
  }

  ghost predicate OnlyAdvances(events: seq<Event>, from: nat) { forall k :: from <= k < |events| ==> events[k].a.Advance? }

  /** From every reachable state the operations under way can all come to their ends, and then the books balance without them. */
  lemma {:induction false} OperationsEnd(run: seq<State>, events: seq<Event>) returns (run': seq<State>, events': seq<Event>)
    requires IsRun(run, events)
    ensures IsRun(run', events') && events <= events' && OnlyAdvances(events', |events|)
    ensures |events'| <= |events| + AllStores(run[|events|].threads)
    ensures var s := run'[|events'|];
            && (forall t :: 0 <= t < |s.threads| ==> s.threads[t].Idle?)
            && s.sh.pool.total == s.sh.pool.available + Sizes(s.sh.grants) + s.sh.pool.Lost()
    decreases AllStores(run[|events|].threads)
  {
    var s := run[|events|];
    if t :| 0 <= t < |s.threads| && !s.threads[t].Idle? {
      TargetsStayLive(run, events, |events|, t);
      StoresUpdate(s.threads, t, Next(s, t, Advance).th);
      run', events' := Then(run, events, t, Advance);
      run', events' := OperationsEnd(run', events');
    } else {
      run', events' := run, events;
      RunConserves(run, events, |events|);
      IdleInFlight(s.threads);
    }
  }
}
