/** What the nested acquire lets happen: one user's callers can occupy every global slot although only a few of
    them run, and cancelled asyncio waiters can take every slot with them. Both are shown by runs, for all caps,
    together with the exact caps for which they can happen. */
module LimiterRuns {
  import opened Wrappers
  import opened Limiter

  // ---- building runs ----

  lemma Extend(caps: Caps, run: seq<Event>, e: Event) returns (run': seq<Event>)
    ensures run' == run + [e] && Exec(caps, run') == Do(caps, Exec(caps, run), e)
    ensures NeverCancelled(run) && !e.Cancel? ==> NeverCancelled(run')
  {
    run' := run + [e];
    assert run'[..|run|] == run;
  }

  function Runs(user: string): Thread { Running(Some(user), 0, Some(1)) }

  function Waits(user: string): Thread { AwaitUser(Some(user), 0, 1, true) }

  /** One user's callers only: semaphore 0 is the global one, semaphore 1 the user's. */
  predicate Alone(s: State, user: string) {
    user != "" && s.global_ == Some(0) && s.users == map[user := 1] && |s.free| == 2
  }

  /** An idle caller calls and comes to stand in front of its user permit. */
  lemma Arrive(caps: Caps, run: seq<Event>, s: State, t: nat, user: string, locked: bool) returns (run': seq<Event>)
    requires s == Exec(caps, run) && Alone(s, user) && s.free[0] > 0 && t < |s.threads| && s.threads[t].Idle?
    requires locked == Locked(s, 1)
    ensures Exec(caps, run') ==
            s.(threads := s.threads[t := AwaitUser(Some(user), 0, 1, locked)], free := s.free[0 := s.free[0] - 1])
    ensures NeverCancelled(run) ==> NeverCancelled(run')
  {
    run' := Extend(caps, run, Call(t, Some(user)));
    run' := Extend(caps, run', LookGlobal(t));
    run' := Extend(caps, run', TakeGlobal(t));
    run' := Extend(caps, run', LookUser(t));
    Arrives(caps, s, t, user, locked);
  }

  lemma Arrives(caps: Caps, s: State, t: nat, user: string, locked: bool)
    requires Alone(s, user) && s.free[0] > 0 && t < |s.threads| && s.threads[t].Idle? && locked == Locked(s, 1)
    ensures Do(caps, Do(caps, Do(caps, Do(caps, s, Call(t, Some(user))), LookGlobal(t)), TakeGlobal(t)), LookUser(t))
         == s.(threads := s.threads[t := AwaitUser(Some(user), 0, 1, locked)], free := s.free[0 := s.free[0] - 1])
  {
    var called := Do(caps, s, Call(t, Some(user)));
    assert called == s.(threads := s.threads[t := Calling(Some(user))]);
    var looked := Do(caps, called, LookGlobal(t));
    assert looked == s.(threads := s.threads[t := AwaitGlobal(Some(user), 0)]);
    var got := Do(caps, looked, TakeGlobal(t));
    assert got == s.(threads := s.threads[t := GotGlobal(Some(user), 0)], free := s.free[0 := s.free[0] - 1]);
    SameQueue(s, got, t);
  }

  lemma SameQueue(s: State, got: State, t: nat)
    requires t < |s.threads| == |got.threads| && |s.free| == |got.free| == 2 && s.free[1] == got.free[1]
    requires got.threads == s.threads[t := got.threads[t]] && !s.threads[t].AwaitUser? && !got.threads[t].AwaitUser?
    ensures Locked(got, 1) == Locked(s, 1)
  {
    if i :| 0 <= i < |s.threads| && Queued(s.threads[i], 1) {
      assert got.threads[i] == s.threads[i];
    }
    if i :| 0 <= i < |got.threads| && Queued(got.threads[i], 1) {
      assert got.threads[i] == s.threads[i];
    }
  }

  // ---- one user on every slot ----

  function Callers(caps: Caps, user: string, n: nat): (r: seq<Thread>)
    ensures |r| == n && forall i | 0 <= i < n :: r[i] == if i < caps.perUser then Runs(user) else Waits(user)
  {
    seq(n, i requires 0 <= i < n => if i < caps.perUser then Runs(user) else Waits(user))
  }

  function Unused(caps: Caps, n: nat): nat { if n < caps.perUser then caps.perUser - n else 0 }

  /** n callers of one user have come. */
  function Filled(caps: Caps, user: string, n: nat): State
    requires n <= caps.total
  {
    State(Some(0), map[user := 1], [caps.total - n, Unused(caps, n)], Callers(caps, user, n), 0)
  }

  lemma FillOne(caps: Caps, user: string) returns (run: seq<Event>)
    requires user != "" && caps.total >= 1
    ensures Exec(caps, run) == Filled(caps, user, 1) && NeverCancelled(run)
  {
    var none: seq<Event> := [];
    run := Extend(caps, none, Spawn);
    run := Extend(caps, run, Call(0, Some(user)));
    run := Extend(caps, run, LookGlobal(0));
    assert Exec(caps, run) == State(Some(0), map[], [caps.total], [AwaitGlobal(Some(user), 0)], 0);
    run := Extend(caps, run, TakeGlobal(0));
    assert Exec(caps, run) == State(Some(0), map[], [caps.total - 1], [GotGlobal(Some(user), 0)], 0);
    run := Extend(caps, run, LookUser(0));
    assert Exec(caps, run)
        == State(Some(0), map[user := 1], [caps.total - 1, caps.perUser], [AwaitUser(Some(user), 0, 1, caps.perUser == 0)], 0);
    if caps.perUser > 0 {
      run := Extend(caps, run, TakeUser(0));
    }
    assert Exec(caps, run).threads == Callers(caps, user, 1);
  }

  lemma {:induction false} Fill(caps: Caps, user: string, n: nat) returns (run: seq<Event>)
    requires user != "" && 1 <= n <= caps.total
    ensures Exec(caps, run) == Filled(caps, user, n) && NeverCancelled(run)
  {
    if n == 1 {
      run := FillOne(caps, user);
    } else {
      run := Fill(caps, user, n - 1);
      run := Extend(caps, run, Spawn);
      run := FillNext(caps, run, Exec(caps, run), user, n - 1);
    }
  }

  lemma LockedBehind(caps: Caps, user: string, s: State, n: nat)
    requires 1 <= n && |s.free| == 2 && s.free[1] == Unused(caps, n) && s.threads == Callers(caps, user, n) + [Idle]
    ensures Locked(s, 1) <==> n >= caps.perUser
  {
    forall t | 0 <= t < |s.threads| && n < caps.perUser ensures !s.threads[t].AwaitUser? {
      assert t < n ==> s.threads[t] == Callers(caps, user, n)[t];
    }
  }

  lemma OneMoreCaller(caps: Caps, user: string, n: nat)
    ensures Callers(caps, user, n + 1) == Callers(caps, user, n) + [if n < caps.perUser then Runs(user) else Waits(user)]
  {
  }

  lemma TakePermit(caps: Caps, run: seq<Event>, s: State, t: nat, user: string) returns (run': seq<Event>)
    requires s == Exec(caps, run) && Alone(s, user) && s.free[1] > 0
    requires t < |s.threads| && s.threads[t] == AwaitUser(Some(user), 0, 1, false)
    ensures Exec(caps, run') == s.(threads := s.threads[t := Runs(user)], free := s.free[1 := s.free[1] - 1])
    ensures NeverCancelled(run) ==> NeverCancelled(run')
  {
    run' := Extend(caps, run, TakeUser(t));
  }

  lemma FillNext(caps: Caps, run: seq<Event>, s: State, user: string, n: nat) returns (run': seq<Event>)
    requires 1 <= n < caps.total && NeverCancelled(run) && s == Exec(caps, run) && Alone(s, user) && s.lost == 0
    requires s.free == [caps.total - n, Unused(caps, n)] && s.threads == Callers(caps, user, n) + [Idle]
    ensures Exec(caps, run') == Filled(caps, user, n + 1) && NeverCancelled(run')
  {
    LockedBehind(caps, user, s, n);
    run' := Arrive(caps, run, s, n, user, n >= caps.perUser);
    LastWaits(s, Callers(caps, user, n), user, n >= caps.perUser, caps.total - n, Unused(caps, n));
    run' := Admit(caps, run', Exec(caps, run'), user, n);
  }

  lemma LastWaits(s: State, before: seq<Thread>, user: string, locked: bool, a: nat, b: nat)
    requires s.threads == before + [Idle] && s.free == [a, b] && a > 0
    ensures s.(threads := s.threads[|before| := AwaitUser(Some(user), 0, 1, locked)], free := s.free[0 := s.free[0] - 1])
         == s.(threads := before + [AwaitUser(Some(user), 0, 1, locked)], free := [a - 1, b])
  {
    AppendAt(before, Idle, AwaitUser(Some(user), 0, 1, locked));
    assert [a, b][0 := a - 1] == [a - 1, b];
  }

  lemma Admit(caps: Caps, run: seq<Event>, s: State, user: string, n: nat) returns (run': seq<Event>)
    requires user != "" && n < caps.total && NeverCancelled(run) && s == Exec(caps, run) && Alone(s, user) && s.lost == 0
    requires s.free == [caps.total - n - 1, Unused(caps, n)]
    requires s.threads == Callers(caps, user, n) + [AwaitUser(Some(user), 0, 1, n >= caps.perUser)]
    ensures Exec(caps, run') == Filled(caps, user, n + 1) && NeverCancelled(run')
  {
    if n >= caps.perUser {
      run' := run;
      AdmitsWaiter(caps, s, user, n);
    } else {
      run' := TakePermit(caps, run, s, n, user);
      AdmitsRunner(caps, s, user, n);
    }
  }

  lemma AdmitsWaiter(caps: Caps, s: State, user: string, n: nat)
    requires caps.perUser <= n < caps.total && Alone(s, user) && s.lost == 0
    requires s.free == [caps.total - n - 1, 0] && s.threads == Callers(caps, user, n) + [Waits(user)]
    ensures s == Filled(caps, user, n + 1)
  {
    OneMoreCaller(caps, user, n);
  }

  lemma AdmitsRunner(caps: Caps, s: State, user: string, n: nat)
    requires n < caps.perUser && n < caps.total && Alone(s, user) && s.lost == 0
    requires s.free == [caps.total - n - 1, caps.perUser - n]
    requires s.threads == Callers(caps, user, n) + [AwaitUser(Some(user), 0, 1, false)]
    ensures s.(threads := s.threads[n := Runs(user)], free := s.free[1 := s.free[1] - 1]) == Filled(caps, user, n + 1)
  {
    OneMoreCaller(caps, user, n);
    SecondRuns(s, Callers(caps, user, n), user, caps.total - n - 1, caps.perUser - n);
  }

  lemma SecondRuns(s: State, before: seq<Thread>, user: string, a: nat, b: nat)
    requires s.threads == before + [AwaitUser(Some(user), 0, 1, false)] && s.free == [a, b] && b > 0
    ensures s.(threads := s.threads[|before| := Runs(user)], free := s.free[1 := s.free[1] - 1])
         == s.(threads := before + [Runs(user)], free := [a, b - 1])
  {
    AppendAt(before, AwaitUser(Some(user), 0, 1, false), Runs(user));
    assert [a, b][1 := b - 1] == [a, b - 1];
  }

  lemma AppendAt(before: seq<Thread>, last: Thread, th: Thread)
    ensures (before + [last])[|before| := th] == before + [th]
  {
  }

  predicate IsRunning(th: Thread) { th.Running? }

  /** Every global permit is held by callers of one user: as many of them run as the user's cap lets run, the
      others wait inside for the user's permit. */
  ghost predicate Monopolised(caps: Caps, s: State, user: string) {
    && s.global_.Some? && s.global_.value < |s.free| && s.free[s.global_.value] == 0
    && caps.total > 0 && Held(s.threads, s.global_.value) == caps.total
    && (forall t | 0 <= t < |s.threads| :: (s.threads[t].Running? || s.threads[t].AwaitUser?) && s.threads[t].user == Some(user))
    && Count(s.threads, IsRunning) == if caps.perUser < caps.total then caps.perUser else caps.total
  }

  lemma {:induction false} RunningCallers(caps: Caps, user: string, n: nat)
    ensures Count(Callers(caps, user, n), IsRunning) == if caps.perUser < n then caps.perUser else n
  {
    if n > 0 {
      RunningCallers(caps, user, n - 1);
      assert Callers(caps, user, n)[..n - 1] == Callers(caps, user, n - 1);
    }
  }

  /** The documented aim, that one user cannot claim every slot, fails for every user and all caps: a caller takes
      its global slot before it waits for its user permit. */
  lemma OneUserCanHoldEverySlot(caps: Caps, user: string)
    requires user != ""
    ensures (exists events | NeverCancelled(events) :: Monopolised(caps, Exec(caps, events), user)) <==> caps.total >= 1
  {
    if caps.total >= 1 {
      var run := Fill(caps, user, caps.total);
      var s := Exec(caps, run);
      InvExec(caps, run);
      assert Balanced(caps, s, 0);
      RunningCallers(caps, user, caps.total);
      assert Monopolised(caps, s, user);
    }
  }

  /** What lasts while no call finishes: no global permit is free or on its way back. */
  ghost predicate Full(s: State) {
    && s.global_.Some? && s.global_.value < |s.free| && s.free[s.global_.value] == 0
    && (forall t | 0 <= t < |s.threads| :: !s.threads[t].Leaving?)
  }

  lemma FullStep(caps: Caps, s: State, e: Event)
    requires Inv(caps, s) && Full(s) && !e.Finish?
    ensures Full(Do(caps, s, e)) && forall t: nat :: !Enabled(s, TakeGlobal(t))
  {
    forall t: nat ensures !Enabled(s, TakeGlobal(t)) {
      if t < |s.threads| {
        assert ThreadOk(s, s.threads[t]);
      }
    }
    if Enabled(s, e) && !e.Spawn? {
      assert ThreadOk(s, s.threads[e.t]);
    }
  }

  /** The slots stay full along every continuation in which no call finishes. */
  lemma {:induction false} StaysFull(caps: Caps, events: seq<Event>, more: seq<Event>)
    requires Full(Exec(caps, events)) && forall e | e in more :: !e.Finish?
    ensures Full(Exec(caps, events + more))
  {
    if more == [] {
      assert events + more == events;
    } else {
      var n := |more| - 1;
      ExecSnoc(caps, events, more[..n], more[n]);
      StaysFull(caps, events, more[..n]);
      InvExec(caps, events + more[..n]);
      FullStep(caps, Exec(caps, events + more[..n]), more[n]);
      assert more[..n] + [more[n]] == more;
    }
  }

  /** From such a state on nobody, of whatever user, gets a global permit until one of that user's calls finishes. */
  lemma EverybodyElseWaits(caps: Caps, events: seq<Event>, more: seq<Event>, user: string, t: nat)
    requires Monopolised(caps, Exec(caps, events), user) && forall e | e in more :: !e.Finish?
    ensures !Enabled(Exec(caps, events + more), TakeGlobal(t))
  {
    StaysFull(caps, events, more);
    InvExec(caps, events + more);
    FullStep(caps, Exec(caps, events + more), Spawn);
  }

  // ---- losing every slot ----

  function TurnedCallers(caps: Caps, user: string, k: nat): (r: seq<Thread>)
    ensures |r| == caps.total
    ensures forall i | 0 <= i < caps.total :: r[i] == if k <= i < caps.perUser then Runs(user) else Waits(user)
  {
    seq(caps.total, i requires 0 <= i < caps.total => if k <= i < caps.perUser then Runs(user) else Waits(user))
  }

  /** The first k runners have finished and queued up again behind the waiters. */
  function Turned(caps: Caps, user: string, k: nat): State {
    State(Some(0), map[user := 1], [0, k], TurnedCallers(caps, user, k), 0)
  }

  lemma {:induction false} TurnAround(caps: Caps, user: string, k: nat) returns (run: seq<Event>)
    requires user != "" && k <= caps.perUser < caps.total
    ensures Exec(caps, run) == Turned(caps, user, k)
    decreases k
  {
    if k == 0 {
      run := Fill(caps, user, caps.total);
      assert Callers(caps, user, caps.total) == TurnedCallers(caps, user, 0);
    } else {
      run := TurnAround(caps, user, k - 1);
      run := TurnNext(caps, run, user, k - 1);
    }
  }

  /** A running caller ends its call and gives both permits back. */
  lemma Depart(caps: Caps, run: seq<Event>, s: State, t: nat, user: string, n: nat) returns (run': seq<Event>)
    requires s == Exec(caps, run) && Alone(s, user) && s.free == [0, n] && t < |s.threads| && s.threads[t] == Runs(user)
    ensures Exec(caps, run') == s.(threads := s.threads[t := Idle], free := [1, n + 1])
  {
    run' := Extend(caps, run, Finish(t));
    var left := s.(threads := s.threads[t := Leaving(Some(user), 0)], free := [0, n + 1]);
    assert Exec(caps, run') == left;
    run' := Extend(caps, run', GiveGlobal(t));
    SetTwice(s.threads, t, Leaving(Some(user), 0), Idle);
    assert [0, n + 1][0 := 1] == [1, n + 1];
  }

  lemma SetTwice(threads: seq<Thread>, t: nat, a: Thread, b: Thread)
    requires t < |threads|
    ensures threads[t := a][t := b] == threads[t := b]
  {
  }

  lemma TurnedOneMore(caps: Caps, user: string, k: nat)
    requires k < caps.perUser < caps.total
    ensures TurnedCallers(caps, user, k)[k := Waits(user)] == TurnedCallers(caps, user, k + 1)
  {
  }

  lemma TurnNext(caps: Caps, run: seq<Event>, user: string, k: nat) returns (run': seq<Event>)
    requires user != "" && k < caps.perUser < caps.total && Exec(caps, run) == Turned(caps, user, k)
    ensures Exec(caps, run') == Turned(caps, user, k + 1)
  {
    var s, callers := Turned(caps, user, k), TurnedCallers(caps, user, k);
    run' := Depart(caps, run, s, k, user, k);
    var left := Exec(caps, run');
    assert left == s.(threads := callers[k := Idle], free := [1, k + 1]);
    assert Queued(left.threads[caps.perUser], 1);
    run' := Arrive(caps, run', left, k, user, true);
    SetTwice(callers, k, Idle, Waits(user));
    TurnedOneMore(caps, user, k);
    assert [1, k + 1][0 := 0] == [0, k + 1];
  }

  function DroppedCallers(caps: Caps, user: string, k: nat): (r: seq<Thread>)
    ensures |r| == caps.total
    ensures forall i | 0 <= i < caps.total :: r[i] == if i < k then Idle else Waits(user)
  {
    seq(caps.total, i requires 0 <= i < caps.total => if i < k then Idle else Waits(user))
  }

  /** The first k waiters have been cancelled. */
  function Dropped(caps: Caps, user: string, k: nat): State {
    State(Some(0), map[user := 1], [0, caps.perUser], DroppedCallers(caps, user, k), k)
  }

  lemma {:induction false} Drop(caps: Caps, user: string, k: nat) returns (run: seq<Event>)
    requires user != "" && k <= caps.total && caps.perUser < caps.total
    ensures Exec(caps, run) == Dropped(caps, user, k)
  {
    if k == 0 {
      run := TurnAround(caps, user, caps.perUser);
      assert TurnedCallers(caps, user, caps.perUser) == DroppedCallers(caps, user, 0);
    } else {
      run := Drop(caps, user, k - 1);
      run := Extend(caps, run, Cancel(k - 1));
      assert DroppedCallers(caps, user, k - 1)[k - 1 := Idle] == DroppedCallers(caps, user, k);
    }
  }

  lemma LoneWaiterSticks(s: State)
    requires |s.threads| > 0 && s.threads[0] == AwaitGlobal(None, 0) && |s.free| > 0 && s.free[0] == 0
    requires forall t | 0 < t < |s.threads| :: s.threads[t].Idle?
    ensures Stuck(s)
  {
    assert !s.threads[0].Idle?;
  }

  lemma LosingEverythingSticks(caps: Caps)
    requires caps.perUser < caps.total
    ensures exists events :: Stuck(Exec(caps, events))
  {
    var run := Drop(caps, "u", caps.total);
    var s := Dropped(caps, "u", caps.total);
    run := Extend(caps, run, Call(0, None));
    assert Exec(caps, run) == s.(threads := s.threads[0 := Calling(None)]);
    run := Extend(caps, run, LookGlobal(0));
    LoneWaiterSticks(Exec(caps, run));
  }

  // ---- when no slot can be lost ----

  lemma {:induction false} HeldPointwise(threads: seq<Thread>, a: nat, b: nat)
    requires forall t | 0 <= t < |threads| :: threads[t].Holds(a) <= threads[t].Holds(b)
    ensures Held(threads, a) <= Held(threads, b)
  {
    if threads != [] {
      HeldPointwise(threads[..|threads| - 1], a, b);
    }
  }

  /** Whoever holds a user permit holds a global one too, and a caller in front of a used-up user semaphore holds
      one more: that takes more global slots than the user's cap. */
  lemma UsedUpNeedsSlots(caps: Caps, s: State, t: nat, user: string)
    requires Inv(caps, s) && t < |s.threads| && s.threads[t].GotGlobal? && user in s.users && s.free[s.users[user]] == 0
    ensures caps.perUser + 1 + s.lost <= caps.total
  {
    var u := s.users[user];
    assert ThreadOk(s, s.threads[t]);
    var g := s.global_.value;
    assert Balanced(caps, s, u) && Balanced(caps, s, g);
    var others := s.threads[t := Idle];
    HeldMove(s.threads, t, Idle, u);
    HeldMove(s.threads, t, Idle, g);
    forall i | 0 <= i < |others| ensures others[i].Holds(u) <= others[i].Holds(g) {
      assert ThreadOk(s, s.threads[i]);
    }
    HeldPointwise(others, u, g);
  }

  ghost predicate NoQueue(s: State) {
    s.lost == 0 && forall t | 0 <= t < |s.threads| :: !(s.threads[t].AwaitUser? && s.threads[t].queued)
  }

  lemma NoQueueStep(caps: Caps, s: State, e: Event)
    requires Inv(caps, s) && NoQueue(s) && 1 <= caps.total <= caps.perUser
    ensures NoQueue(Do(caps, s, e))
  {
    if Enabled(s, e) && e.LookUser? && Capped(s.threads[e.t].user) && s.threads[e.t].user.value in s.users {
      var user := s.threads[e.t].user.value;
      if s.free[s.users[user]] == 0 {
        UsedUpNeedsSlots(caps, s, e.t, user);
      }
    }
  }

  lemma {:induction false} NothingIsLost(caps: Caps, events: seq<Event>)
    requires 1 <= caps.total <= caps.perUser
    ensures NoQueue(Exec(caps, events))
  {
    if events != [] {
      NothingIsLost(caps, events[..|events| - 1]);
      InvExec(caps, events[..|events| - 1]);
      NoQueueStep(caps, Exec(caps, events[..|events| - 1]), events[|events| - 1]);
    }
  }

  /** With cancellation the nested acquire is free of deadlock exactly when the user's cap is no smaller than the
      global one: only then does nobody wait for a user permit while holding a slot. */
  lemma DeadlockFreedomWithCancellation(caps: Caps)
    ensures (forall events :: !Stuck(Exec(caps, events))) <==> 1 <= caps.total <= caps.perUser
  {
    if 1 <= caps.total <= caps.perUser {
      forall events ensures !Stuck(Exec(caps, events)) {
        InvExec(caps, events);
        NothingIsLost(caps, events);
        if Stuck(Exec(caps, events)) { StuckMeansAllLost(caps, Exec(caps, events)); }
      }
    } else if caps.total == 0 {
      ZeroTotalSticks(caps);
    } else {
      LosingEverythingSticks(caps);
    }
  }
}
