/** The two-level concurrency cap in front of the shared Codex login (shared/codex_concurrency.py), as a
    transition system of any number of threads (or asyncio tasks: the two twins take the same steps,
    except that a waiting task can also be cancelled). */
module Limiter {
  import opened Wrappers

  /** `_user_sync(user_id) if user_id else None`: no user, or an empty id, has no second cap. */
  predicate Capped(user: Option<string>) { user.Some? && user.value != "" }

  /** One caller on its way through acquire_sync / acquire_async. Semaphores are named by the
      order in which they were created. */
  datatype Thread =
    | Idle
    | Calling(user: Option<string>)                                // about to run _global_sync()
    | AwaitGlobal(user: Option<string>, g: nat)
    | GotGlobal(user: Option<string>, g: nat)                      // about to run _user_sync()
    | AwaitUser(user: Option<string>, g: nat, u: nat, queued: bool)  // queued: found the semaphore locked
    | Running(user: Option<string>, g: nat, own: Option<nat>)        // inside the with block
    | Leaving(user: Option<string>, g: nat)                        // user permit back, global one next
  {
    predicate HoldsGlobal(sem: nat) {
      (GotGlobal? || AwaitUser? || Running? || Leaving?) && g == sem
    }

    predicate HoldsUser(sem: nat) { Running? && own == Some(sem) }

    function Holds(sem: nat): nat {
      (if HoldsGlobal(sem) then 1 else 0) + (if HoldsUser(sem) then 1 else 0)
    }
  }

  datatype Caps = Caps(total: nat, perUser: nat)

  /** `free[i]` is what semaphore i has left; `lost` counts global permits whose task was cancelled
      while it waited for its user permit: nothing gives those back. */
  datatype State = State(
    global_: Option<nat>, users: map<string, nat>, free: seq<nat>, threads: seq<Thread>, lost: nat)

  const START := State(None, map[], [], [], 0)

  datatype Event =
    | Spawn
    | Call(t: nat, user: Option<string>)
    | LookGlobal(t: nat)         // _global_sync(), creating it on first use
    | TakeGlobal(t: nat)
    | LookUser(t: nat)           // _user_sync(), creating it on first use
    | TakeUser(t: nat)
    | Finish(t: nat)             // the body ends: release the user permit if there is one
    | GiveGlobal(t: nat)         // _global_sync().release()
    | Cancel(t: nat)             // asyncio only: cancelled while suspended in `await user_sem.acquire()`

  function Th(s: State, t: nat): Thread { if t < |s.threads| then s.threads[t] else Idle }

  predicate Free(s: State, sem: nat) { sem < |s.free| && s.free[sem] > 0 }

  predicate Queued(th: Thread, sem: nat) { th.AwaitUser? && th.queued && th.u == sem }

  /** asyncio.Semaphore.locked() since Python 3.11: no permit left, or others queue for it. Only then does
      acquire() suspend, and only a suspended task can be cancelled there. */
  predicate Locked(s: State, sem: nat) {
    !Free(s, sem) || exists t | 0 <= t < |s.threads| :: Queued(s.threads[t], sem)
  }

  predicate Enabled(s: State, e: Event) {
    match e
    case Spawn => true
    case Call(t, _) => t < |s.threads| && Th(s, t).Idle?
    case LookGlobal(t) => Th(s, t).Calling?
    case TakeGlobal(t) => Th(s, t).AwaitGlobal? && Free(s, Th(s, t).g)
    case LookUser(t) => Th(s, t).GotGlobal?
    case TakeUser(t) => Th(s, t).AwaitUser? && Free(s, Th(s, t).u)
    case Finish(t) => Th(s, t).Running?
    case GiveGlobal(t) => Th(s, t).Leaving? && s.global_.Some? && s.global_.value < |s.free|
    case Cancel(t) => Th(s, t).AwaitUser? && Th(s, t).queued
  }

  function Move(s: State, t: nat, thread: Thread): State
    requires t < |s.threads|
  {
    s.(threads := s.threads[t := thread])
  }

  function Effect(caps: Caps, s: State, e: Event): State
    requires Enabled(s, e)
  {
    match e
    case Spawn => s.(threads := s.threads + [Idle])
    case Call(t, user) => Move(s, t, Calling(user))
    case LookGlobal(t) =>
      var g := s.global_.GetOr(|s.free|);
      var made := if s.global_.Some? then s else s.(global_ := Some(g), free := s.free + [caps.total]);
      Move(made, t, AwaitGlobal(s.threads[t].user, g))
    case TakeGlobal(t) =>
      var th := s.threads[t];
      Move(s, t, GotGlobal(th.user, th.g)).(free := s.free[th.g := s.free[th.g] - 1])
    case LookUser(t) =>
      var th := s.threads[t];
      if !Capped(th.user) then Move(s, t, Running(th.user, th.g, None))
      else
        var known := th.user.value in s.users;
        var u := if known then s.users[th.user.value] else |s.free|;
        var made := if known then s else s.(users := s.users[th.user.value := u], free := s.free + [caps.perUser]);
        Move(made, t, AwaitUser(th.user, th.g, u, Locked(made, u)))
    case TakeUser(t) =>
      var th := s.threads[t];
      Move(s, t, Running(th.user, th.g, Some(th.u))).(free := s.free[th.u := s.free[th.u] - 1])
    case Finish(t) =>
      var th := s.threads[t];
      Move(s, t, Leaving(th.user, th.g)).(
        free := if th.own.Some? && th.own.value < |s.free| then s.free[th.own.value := s.free[th.own.value] + 1] else s.free)
    case GiveGlobal(t) =>
      var g := s.global_.value;
      Move(s, t, Idle).(free := s.free[g := s.free[g] + 1])
    case Cancel(t) => Move(s, t, Idle).(lost := s.lost + 1)
  }

  function Do(caps: Caps, s: State, e: Event): State {
    if Enabled(s, e) then Effect(caps, s, e) else s
  }

  function Exec(caps: Caps, events: seq<Event>): State {
    if events == [] then START else Do(caps, Exec(caps, events[..|events| - 1]), events[|events| - 1])
  }

  // ---- counting permits ----

  function Held(threads: seq<Thread>, sem: nat): nat {
    if threads == [] then 0 else Held(threads[..|threads| - 1], sem) + threads[|threads| - 1].Holds(sem)
  }

  lemma {:induction false} HeldMove(threads: seq<Thread>, t: nat, thread: Thread, sem: nat)
    requires t < |threads|
    ensures Held(threads[t := thread], sem) == Held(threads, sem) - threads[t].Holds(sem) + thread.Holds(sem)
  {
    var n := |threads| - 1;
    if t == n {
      assert threads[t := thread][..n] == threads[..n];
    } else {
      assert threads[t := thread][..n] == threads[..n][t := thread];
      HeldMove(threads[..n], t, thread, sem);
    }
  }

  lemma {:induction false} SomebodyHolds(threads: seq<Thread>, sem: nat) returns (t: nat)
    requires Held(threads, sem) > 0
    ensures t < |threads| && threads[t].Holds(sem) > 0
  {
    var n := |threads| - 1;
    if threads[n].Holds(sem) > 0 {
      t := n;
    } else {
      t := SomebodyHolds(threads[..n], sem);
    }
  }

  // ---- what every step keeps ----

  function CapOf(caps: Caps, s: State, sem: nat): nat {
    if s.global_ == Some(sem) then caps.total else caps.perUser
  }

  ghost predicate ThreadOk(s: State, th: Thread) {
    && (!th.Idle? && !th.Calling? ==> s.global_ == Some(th.g))
    && (th.AwaitUser? ==> Capped(th.user) && th.user.value in s.users && s.users[th.user.value] == th.u)
    && (th.Running? ==> (th.own.Some? <==> Capped(th.user)))
    && (th.Running? && th.own.Some? ==> th.user.value in s.users && s.users[th.user.value] == th.own.value)
  }

  /** There is one global semaphore and one per user; no two of them are the same. */
  ghost predicate OneEach(s: State) {
    && (s.global_.Some? ==> s.global_.value < |s.free|)
    && (forall user | user in s.users :: s.users[user] < |s.free| && s.global_ != Some(s.users[user]))
    && (forall a, b | a in s.users && b in s.users && a != b :: s.users[a] != s.users[b])
  }

  ghost predicate Balanced(caps: Caps, s: State, sem: nat)
    requires sem < |s.free|
  {
    s.free[sem] + Held(s.threads, sem) + (if s.global_ == Some(sem) then s.lost else 0) == CapOf(caps, s, sem)
  }

  /** Permits are conserved: free, held and lost add up to the cap of every semaphore. */
  ghost predicate Conserved(caps: Caps, s: State) {
    && (forall sem | 0 <= sem < |s.free| :: Balanced(caps, s, sem))
    && (s.global_.None? ==> s.lost == 0)
  }

  ghost predicate Inv(caps: Caps, s: State) {
    && OneEach(s)
    && (forall t | 0 <= t < |s.threads| :: ThreadOk(s, s.threads[t]))
    && Conserved(caps, s)
    && BeyondUnheld(s)
  }

  lemma NewSemaphoreUnheld(threads: seq<Thread>, sem: nat)
    requires forall t | 0 <= t < |threads| :: threads[t].Holds(sem) == 0
    ensures Held(threads, sem) == 0
  {
    if Held(threads, sem) > 0 { var t := SomebodyHolds(threads, sem); }
  }

  /** Semaphores are made once and never replaced. */
  lemma SemaphoresStay(caps: Caps, s: State, e: Event)
    requires OneEach(s)
    ensures var s' := Do(caps, s, e);
            && OneEach(s') && |s.free| <= |s'.free|
            && (s.global_.Some? ==> s'.global_ == s.global_)
            && (forall user | user in s.users :: user in s'.users && s'.users[user] == s.users[user])
  {
  }

  lemma MovedThreadOk(caps: Caps, s: State, e: Event)
    requires OneEach(s) && Enabled(s, e) && !e.Spawn? && ThreadOk(s, s.threads[e.t])
    ensures ThreadOk(Effect(caps, s, e), Effect(caps, s, e).threads[e.t])
  {
  }

  lemma ThreadStaysOk(s: State, s': State, th: Thread)
    requires ThreadOk(s, th)
    requires s.global_.Some? ==> s'.global_ == s.global_
    requires forall user | user in s.users :: user in s'.users && s'.users[user] == s.users[user]
    ensures ThreadOk(s', th)
  {
  }

  lemma ThreadsStep(caps: Caps, s: State, e: Event)
    requires OneEach(s) && forall t | 0 <= t < |s.threads| :: ThreadOk(s, s.threads[t])
    ensures forall t | 0 <= t < |Do(caps, s, e).threads| :: ThreadOk(Do(caps, s, e), Do(caps, s, e).threads[t])
  {
    var s' := Do(caps, s, e);
    SemaphoresStay(caps, s, e);
    if Enabled(s, e) && !e.Spawn? { MovedThreadOk(caps, s, e); }
    forall t | 0 <= t < |s'.threads| ensures ThreadOk(s', s'.threads[t]) {
      if t < |s.threads| && s'.threads[t] == s.threads[t] { ThreadStaysOk(s, s', s.threads[t]); }
    }
  }

  ghost predicate BeyondUnheld(s: State) {
    forall t | 0 <= t < |s.threads|, sem | |s.free| <= sem :: s.threads[t].Holds(sem) == 0
  }

  /** One step moves a permit of a semaphore between its free and its held ones... */
  lemma PermitMoves(caps: Caps, s: State, e: Event, sem: nat)
    requires OneEach(s) && Conserved(caps, s) && BeyondUnheld(s)
    requires Enabled(s, e) && (e.TakeGlobal? || e.TakeUser? || e.Finish? || e.GiveGlobal? || e.Cancel?) && ThreadOk(s, s.threads[e.t])
    ensures sem < |Effect(caps, s, e).free| ==> Balanced(caps, Effect(caps, s, e), sem)
  {
    HeldMove(s.threads, e.t, Effect(caps, s, e).threads[e.t], sem);
    if sem < |s.free| { assert Balanced(caps, s, sem); }
  }

  /** ... or makes a new semaphore with all its permits free. */
  lemma PermitsMade(caps: Caps, s: State, e: Event, sem: nat)
    requires OneEach(s) && Conserved(caps, s) && BeyondUnheld(s)
    requires Enabled(s, e) && (e.Call? || e.LookGlobal? || e.LookUser?) && ThreadOk(s, s.threads[e.t])
    ensures sem < |Effect(caps, s, e).free| ==> Balanced(caps, Effect(caps, s, e), sem)
  {
    HeldMove(s.threads, e.t, Effect(caps, s, e).threads[e.t], sem);
    if sem < |s.free| { assert Balanced(caps, s, sem); }
    if sem >= |s.free| { NewSemaphoreUnheld(s.threads, sem); }
  }

  lemma BalancedStep(caps: Caps, s: State, e: Event, sem: nat)
    requires Inv(caps, s) && Enabled(s, e) && sem < |Effect(caps, s, e).free|
    ensures Balanced(caps, Effect(caps, s, e), sem)
  {
    if e.Spawn? {
      var s' := Effect(caps, s, e);
      assert s'.threads[..|s.threads|] == s.threads;
      assert Balanced(caps, s, sem);
    } else {
      assert ThreadOk(s, s.threads[e.t]);
      if e.Call? || e.LookGlobal? || e.LookUser? {
        PermitsMade(caps, s, e, sem);
      } else {
        PermitMoves(caps, s, e, sem);
      }
    }
  }

  lemma BeyondStep(caps: Caps, s: State, e: Event)
    requires Inv(caps, s) && Enabled(s, e)
    ensures BeyondUnheld(Effect(caps, s, e))
  {
    var s' := Effect(caps, s, e);
    SemaphoresStay(caps, s, e);
    if !e.Spawn? {
      assert ThreadOk(s, s.threads[e.t]);
      MovedThreadOk(caps, s, e);
    }
    forall t, sem | 0 <= t < |s'.threads| && |s'.free| <= sem ensures s'.threads[t].Holds(sem) == 0 {
      assert t < |s.threads| ==> s.threads[t].Holds(sem) == 0;
    }
  }

  lemma InvStep(caps: Caps, s: State, e: Event)
    requires Inv(caps, s)
    ensures Inv(caps, Do(caps, s, e))
  {
    SemaphoresStay(caps, s, e);
    ThreadsStep(caps, s, e);
    if Enabled(s, e) {
      BeyondStep(caps, s, e);
      forall sem | 0 <= sem < |Effect(caps, s, e).free| ensures Balanced(caps, Effect(caps, s, e), sem) {
        BalancedStep(caps, s, e, sem);
      }
      LostNeedsGlobal(caps, s, e);
    }
  }

  lemma LostNeedsGlobal(caps: Caps, s: State, e: Event)
    requires Inv(caps, s) && Enabled(s, e)
    ensures Effect(caps, s, e).global_.None? ==> Effect(caps, s, e).lost == 0
  {
    if !e.Spawn? {
      assert ThreadOk(s, s.threads[e.t]);
    }
  }

  lemma {:induction false} InvExec(caps: Caps, events: seq<Event>)
    ensures Inv(caps, Exec(caps, events))
  {
    if events != [] {
      InvExec(caps, events[..|events| - 1]);
      InvStep(caps, Exec(caps, events[..|events| - 1]), events[|events| - 1]);
    }
  }

  // ---- the caps ----

  function Count(threads: seq<Thread>, counted: Thread -> bool): nat {
    if threads == [] then 0
    else Count(threads[..|threads| - 1], counted) + if counted(threads[|threads| - 1]) then 1 else 0
  }

  lemma {:induction false} CountAtMostHeld(threads: seq<Thread>, counted: Thread -> bool, sem: nat)
    requires forall t | 0 <= t < |threads| :: counted(threads[t]) ==> threads[t].Holds(sem) > 0
    ensures Count(threads, counted) <= Held(threads, sem)
  {
    if threads != [] { CountAtMostHeld(threads[..|threads| - 1], counted, sem); }
  }

  lemma {:induction false} CountZero(threads: seq<Thread>, counted: Thread -> bool)
    requires forall t | 0 <= t < |threads| :: !counted(threads[t])
    ensures Count(threads, counted) == 0
  {
    if threads != [] { CountZero(threads[..|threads| - 1], counted); }
  }

  /** However many callers there are and however they interleave, the calls in flight respect both
      caps, every permit is free, held or lost, and each user has one semaphore for good. */
  lemma CapsRespected(caps: Caps, events: seq<Event>, user: string)
    requires user != ""
    ensures var s := Exec(caps, events);
            && Count(s.threads, (th: Thread) => th.Running?) <= caps.total
            && Count(s.threads, (th: Thread) => th.Running? && th.user == Some(user)) <= caps.perUser
            && OneEach(s) && Conserved(caps, s)
  {
    InvExec(caps, events);
    var s := Exec(caps, events);
    var running, mine := (th: Thread) => th.Running?, (th: Thread) => th.Running? && th.user == Some(user);
    forall t | 0 <= t < |s.threads| ensures ThreadOk(s, s.threads[t]) {}
    if s.global_.Some? {
      assert Balanced(caps, s, s.global_.value);
      CountAtMostHeld(s.threads, running, s.global_.value);
    } else {
      CountZero(s.threads, running);
    }
    if user in s.users {
      assert Balanced(caps, s, s.users[user]);
      CountAtMostHeld(s.threads, mine, s.users[user]);
    } else {
      CountZero(s.threads, mine);
    }
  }

  /** A caller who names nobody starts running once it has its global permit; everybody else waits for the permit of
      their own user first. */
  lemma AnonymousSkipsTheUserCap(caps: Caps, s: State, t: nat)
    requires t < |s.threads| && s.threads[t].GotGlobal?
    ensures var th, th' := s.threads[t], Do(caps, s, LookUser(t)).threads[t];
            && th'.user == th.user && th'.g == th.g
            && (th'.Running? <==> th.user in {None, Some("")}) && (th'.Running? || th'.AwaitUser?)
            && (th'.Running? ==> th'.own == None && Do(caps, s, LookUser(t)) == s.(threads := s.threads[t := th']))
  {
  }

  // ---- progress ----

  /** Some step of this caller can be taken. */
  predicate CanStep(s: State, t: nat) {
    || Enabled(s, LookGlobal(t)) || Enabled(s, TakeGlobal(t)) || Enabled(s, LookUser(t))
    || Enabled(s, TakeUser(t)) || Enabled(s, Finish(t)) || Enabled(s, GiveGlobal(t))
  }

  /** Somebody is inside acquire, and nobody who is can move. */
  ghost predicate Stuck(s: State) {
    && (exists t | 0 <= t < |s.threads| :: !s.threads[t].Idle?)
    && (forall t | 0 <= t < |s.threads| :: !CanStep(s, t))
  }

  /** A stuck thread waits, and what it waits for is used up. */
  lemma StuckThreads(caps: Caps, s: State, t: nat)
    requires Inv(caps, s) && Stuck(s) && t < |s.threads|
    ensures var th := s.threads[t];
            && (th.Idle? || th.AwaitGlobal? || th.AwaitUser?)
            && (th.AwaitGlobal? ==> s.global_ == Some(th.g) && s.free[th.g] == 0)
            && (th.AwaitUser? ==> s.users[th.user.value] == th.u && s.free[th.u] == 0)
  {
    assert ThreadOk(s, s.threads[t]);
    assert !CanStep(s, t);
  }

  /** The nested acquire deadlocks only when every global permit has been lost to a cancelled waiter,
      provided both caps are at least one. */
  lemma StuckMeansAllLost(caps: Caps, s: State)
    requires Inv(caps, s) && Stuck(s) && caps.total >= 1 && caps.perUser >= 1
    ensures s.lost == caps.total
  {
    forall t | 0 <= t < |s.threads| ensures !s.threads[t].Running? && !s.threads[t].AwaitUser? {
      StuckThreads(caps, s, t);
      if s.threads[t].AwaitUser? {
        var u := s.threads[t].u;
        assert Balanced(caps, s, u);
        var holder := SomebodyHolds(s.threads, u);
        assert ThreadOk(s, s.threads[holder]);
        StuckThreads(caps, s, holder);
        assert false;
      }
    }
    var t :| 0 <= t < |s.threads| && !s.threads[t].Idle?;
    StuckThreads(caps, s, t);
    var g := s.threads[t].g;
    assert Balanced(caps, s, g);
    if Held(s.threads, g) > 0 {
      var holder := SomebodyHolds(s.threads, g);
      StuckThreads(caps, s, holder);
    }
  }

  /** With caps of at least one, nobody can move exactly when every global permit is lost and whoever is in
      the acquire waits for one. */
  lemma StuckExactly(caps: Caps, s: State)
    requires Inv(caps, s) && caps.total >= 1 && caps.perUser >= 1
    ensures Stuck(s) <==>
              && s.lost == caps.total
              && (exists t | 0 <= t < |s.threads| :: !s.threads[t].Idle?)
              && (forall t | 0 <= t < |s.threads| :: s.threads[t].Idle? || s.threads[t].AwaitGlobal?)
  {
    if Stuck(s) {
      StuckMeansAllLost(caps, s);
      forall t | 0 <= t < |s.threads| ensures s.threads[t].Idle? || s.threads[t].AwaitGlobal? {
        StuckThreads(caps, s, t);
        assert !Th(s, t).AwaitUser? by { AllLostHoldsNothing(caps, s, t); }
      }
    } else if s.lost == caps.total {
      forall t | 0 <= t < |s.threads| && (s.threads[t].Idle? || s.threads[t].AwaitGlobal?) ensures !CanStep(s, t) {
        AllLostHoldsNothing(caps, s, t);
      }
    }
  }

  lemma AllLostHoldsNothing(caps: Caps, s: State, t: nat)
    requires Inv(caps, s) && s.lost == caps.total
    ensures !Enabled(s, TakeGlobal(t)) && !Th(s, t).AwaitUser? && !Enabled(s, Cancel(t))
  {
    if t < |s.threads| && s.global_.Some? {
      assert ThreadOk(s, s.threads[t]) && Balanced(caps, s, s.global_.value);
      if s.threads[t].Holds(s.global_.value) > 0 {
        HeldMove(s.threads, t, Idle, s.global_.value);
      }
    } else if t < |s.threads| {
      assert ThreadOk(s, s.threads[t]);
    }
  }

  lemma AllLostStep(caps: Caps, s: State, e: Event)
    requires Inv(caps, s) && s.lost == caps.total
    ensures Do(caps, s, e).lost == caps.total
  {
    if e.Cancel? {
      AllLostHoldsNothing(caps, s, e.t);
    }
  }

  lemma ExecSnoc(caps: Caps, events: seq<Event>, more: seq<Event>, e: Event)
    ensures Exec(caps, events + (more + [e])) == Do(caps, Exec(caps, events + more), e)
  {
    var all := events + (more + [e]);
    assert all[..|all| - 1] == events + more;
  }

  lemma {:induction false} AllLostStays(caps: Caps, events: seq<Event>, more: seq<Event>)
    requires Exec(caps, events).lost == caps.total
    ensures Exec(caps, events + more).lost == caps.total
  {
    if more == [] {
      assert events + more == events;
    } else {
      var n := |more| - 1;
      ExecSnoc(caps, events, more[..n], more[n]);
      AllLostStays(caps, events, more[..n]);
      InvExec(caps, events + more[..n]);
      AllLostStep(caps, Exec(caps, events + more[..n]), more[n]);
      assert more[..n] + [more[n]] == more;
    }
  }

  /** And once every global permit is lost, nobody ever gets past the first acquire again. */
  lemma AllLostBlocksForever(caps: Caps, events: seq<Event>, more: seq<Event>, t: nat)
    requires Exec(caps, events).lost == caps.total
    ensures Exec(caps, events + more).lost == caps.total
    ensures !Enabled(Exec(caps, events + more), TakeGlobal(t))
  {
    AllLostStays(caps, events, more);
    InvExec(caps, events + more);
    AllLostHoldsNothing(caps, Exec(caps, events + more), t);
  }

  ghost predicate NeverCancelled(events: seq<Event>) { forall e | e in events :: !e.Cancel? }

  lemma {:induction false} NothingLost(caps: Caps, events: seq<Event>)
    requires NeverCancelled(events)
    ensures Exec(caps, events).lost == 0
  {
    if events != [] { NothingLost(caps, events[..|events| - 1]); }
  }

  lemma ExecThree(caps: Caps, a: Event, b: Event, c: Event)
    ensures Exec(caps, [a, b, c]) == Do(caps, Do(caps, Do(caps, START, a), b), c)
  {
    assert [a, b, c][..2] == [a, b] && [a, b][..1] == [a] && [a][..0] == [];
    assert Exec(caps, [a]) == Do(caps, START, a);
    assert Exec(caps, [a, b]) == Do(caps, Exec(caps, [a]), b);
  }

  /** acquire_sync is free of deadlock exactly when both caps are at least one. */
  lemma DeadlockFreedom(caps: Caps)
    ensures (forall events | NeverCancelled(events) :: !Stuck(Exec(caps, events))) <==> caps.total >= 1 && caps.perUser >= 1
  {
    if caps.total >= 1 && caps.perUser >= 1 {
      forall events | NeverCancelled(events) ensures !Stuck(Exec(caps, events)) {
        InvExec(caps, events);
        NothingLost(caps, events);
        if Stuck(Exec(caps, events)) { StuckMeansAllLost(caps, Exec(caps, events)); }
      }
    } else if caps.total == 0 {
      ZeroTotalSticks(caps);
    } else {
      ZeroPerUserSticks(caps);
    }
  }

  lemma ZeroTotalSticks(caps: Caps)
    requires caps.total == 0
    ensures exists events | NeverCancelled(events) :: Stuck(Exec(caps, events))
  {
    var run := [Spawn, Call(0, None), LookGlobal(0)];
    ExecThree(caps, Spawn, Call(0, None), LookGlobal(0));
    var s := Exec(caps, run);
    assert s.threads == [AwaitGlobal(None, 0)] && s.free == [0];
    assert !s.threads[0].Idle? && Stuck(s);
    assert NeverCancelled(run);
  }

  lemma ZeroPerUserSticks(caps: Caps)
    requires caps.total >= 1 && caps.perUser == 0
    ensures exists events | NeverCancelled(events) :: Stuck(Exec(caps, events))
  {
    var user := Some("u");
    var first := [Spawn, Call(0, user), LookGlobal(0)];
    ExecThree(caps, Spawn, Call(0, user), LookGlobal(0));
    var s3 := Exec(caps, first);
    assert s3 == State(Some(0), map[], [caps.total], [AwaitGlobal(user, 0)], 0);
    var run4 := first + [TakeGlobal(0)];
    assert run4[..3] == first;
    var s4 := Exec(caps, run4);
    assert s4 == State(Some(0), map[], [caps.total - 1], [GotGlobal(user, 0)], 0);
    var run5 := run4 + [LookUser(0)];
    assert run5[..4] == run4;
    var s5 := Exec(caps, run5);
    assert s5.threads == [AwaitUser(user, 0, 1, true)] && s5.free == [caps.total - 1, 0];
    assert !s5.threads[0].Idle? && Stuck(s5);
    assert NeverCancelled(run5);
  }

  /** The asyncio twin gives a cancelled waiter's global permit to nobody: it is gone from then on,
      because the second await stands before the try block. */
  lemma CancelLosesAPermit(caps: Caps, s: State, t: nat)
    requires Inv(caps, s) && Enabled(s, Cancel(t))
    ensures var s' := Do(caps, s, Cancel(t));
            && s'.lost == s.lost + 1 && s'.free == s.free
            && Held(s'.threads, s.global_.value) == Held(s.threads, s.global_.value) - 1
  {
    assert ThreadOk(s, s.threads[t]);
    HeldMove(s.threads, t, Idle, s.global_.value);
  }
}
