/** What the orphan sweep's staleness window buys: with it, every finished row is final and the
    queue runs dry; without it, a failed row can come back. */
module PipelineDrain {
  import opened Wrappers
  import opened JobQueue
  import opened Approvals
  import opened Pipeline
  import opened PipelineSafety

  /** Nobody works on a row that a sweep has already failed. */
  ghost predicate LiveHoldersRun(s: State) {
    forall w | 0 <= w < |s.workers| && s.workers[w].Holding? ::
      s.workers[w].claim.id < |s.jobs| && s.jobs[s.workers[w].claim.id].status.Running?
  }

  /** Every claim that is still being worked on is younger than the window. */
  ghost predicate Fresh(s: State, staleAfter: real) {
    forall w | 0 <= w < |s.workers| && s.workers[w].Holding? && s.workers[w].claim.id < |s.jobs| ::
      var at := s.jobs[s.workers[w].claim.id].claimedAt;
      at.Some? && at.value >= s.clock - staleAfter
  }

  /** A sweep leaves every live job alone exactly when every live claim is younger than its window. */
  lemma SweepSparesLiveJobs(allow: set<string>, s: State, staleAfter: real)
    requires QueueInv(s) && LiveHoldersRun(s)
    ensures LiveHoldersRun(Do(allow, s, Recover(staleAfter))) <==> Fresh(s, staleAfter)
  {
    var s' := Do(allow, s, Recover(staleAfter));
    if LiveHoldersRun(s') {
      forall w | 0 <= w < |s.workers| && s.workers[w].Holding? && s.workers[w].claim.id < |s.jobs|
        ensures var at := s.jobs[s.workers[w].claim.id].claimedAt; at.Some? && at.value >= s.clock - staleAfter
      {
        assert s'.jobs[s'.workers[w].claim.id].status.Running?;
      }
    }
  }

  lemma LiveHoldersMove(allow: set<string>, s: State, e: Event, v: nat)
    requires QueueInv(s) && LiveHoldersRun(s) && Enabled(allow, s, e) && (e.Commit? || e.Complete? || e.Settle?)
    ensures var s' := Effect(allow, s, e);
            v < |s'.workers| && s'.workers[v].Holding? ==>
              s'.workers[v].claim.id < |s'.jobs| && s'.jobs[s'.workers[v].claim.id].status.Running?
  {
    assert WorkerOk(s, s.workers[e.w]);
    if v < |s.workers| && v != e.w && s.workers[v].Holding? {
      assert s.workers[v].Target() != s.workers[e.w].Target();
    }
  }

  lemma LiveHoldersStep(allow: set<string>, s: State, e: Event)
    requires QueueInv(s) && LiveHoldersRun(s) && (e.Recover? ==> Fresh(s, e.staleAfter))
    ensures LiveHoldersRun(Do(allow, s, e))
  {
    if Enabled(allow, s, e) {
      var s' := Effect(allow, s, e);
      if e.Recover? {
        SweepSparesLiveJobs(allow, s, e.staleAfter);
      } else if e.Commit? || e.Complete? || e.Settle? {
        forall v | 0 <= v < |s'.workers| && s'.workers[v].Holding?
          ensures s'.workers[v].claim.id < |s'.jobs| && s'.jobs[s'.workers[v].claim.id].status.Running?
        {
          LiveHoldersMove(allow, s, e, v);
        }
      }
    }
  }

  /** A run whose every sweep finds every live claim younger than its window. */
  ghost predicate FreshRun(allow: set<string>, s: State, events: seq<Event>) {
    events == [] ||
      var n := |events| - 1;
      && FreshRun(allow, s, events[..n])
      && (events[n].Recover? ==> Fresh(Exec(allow, s, events[..n]), events[n].staleAfter))
  }

  lemma {:induction false} FreshRunKeepsHolders(allow: set<string>, s: State, events: seq<Event>)
    requires QueueInv(s) && LiveHoldersRun(s) && FreshRun(allow, s, events)
    ensures QueueInv(Exec(allow, s, events)) && LiveHoldersRun(Exec(allow, s, events))
  {
    if events != [] {
      var n := |events| - 1;
      FreshRunKeepsHolders(allow, s, events[..n]);
      QueueStep(allow, Exec(allow, s, events[..n]), events[n]);
      LiveHoldersStep(allow, Exec(allow, s, events[..n]), events[n]);
    }
  }

  /** Under the staleness assumption `failed` is absorbing too: after a fresh run no finished
      row is held by anybody, and every finished row is final over every continuation. */
  lemma FinishedRowsAreFinal(allow: set<string>, events: seq<Event>, more: seq<Event>, j: nat)
    requires FreshRun(allow, INITIAL, events)
    requires j < |Reached(allow, events).jobs| && Reached(allow, events).jobs[j].Terminal()
    ensures HeldByNobody(Reached(allow, events), j)
    ensures j < |Reached(allow, events + more).jobs|
    ensures Reached(allow, events + more).jobs[j] == Reached(allow, events).jobs[j]
  {
    var s := Reached(allow, events);
    FreshRunKeepsHolders(allow, INITIAL, events);
    forall w | 0 <= w < |s.workers| ensures s.workers[w].Target() != Some(j) {
      assert WorkerOk(s, s.workers[w]);
    }
    FinishedForGood(allow, s, more, j);
    ExecConcat(allow, INITIAL, events, more);
  }

  /** Without it, a failed row comes back: a worker that still holds a swept job retries it. */
  lemma SweptLiveJobComesBack(allow: set<string>, s: State, w: nat)
    requires QueueInv(s) && IsHolding(s, w) && s.workers[w].phase.Raised? && s.workers[w].claim.attempts < 2
    requires s.workers[w].claim.id < |s.jobs| && s.jobs[s.workers[w].claim.id].status.Failed?
    ensures var j := s.workers[w].claim.id;
            && Do(allow, s, Settle(w)).jobs[j].status.Pending?
            && Weight(Do(allow, s, Settle(w)).jobs) > Weight(s.jobs)
  {
    assert WorkerOk(s, s.workers[w]);
    var j := s.workers[w].claim.id;
    WeightUpdate(s.jobs, j, Requeued(s.jobs, j)[j]);
  }

  /** Such a state is reached as soon as a handler runs for longer than the window: the job is swept to failed
      while it is being worked on, its handler raises, and the row is pending again. */
  lemma SweptLiveJobIsReachable(allow: set<string>, kind: string, args: Args, userId: string, key: Option<string>, runs: real, window: real)
    requires kind != "implement" && runs >= 0.0 && runs > window
    ensures var events := FirstTurn(kind, args, userId, key) + [Tick(runs)] + [Recover(window)] + [Raise(0)];
            var s, s' := Reached(allow, events), Reached(allow, events + [Settle(0)]);
            && |s.jobs| == |s'.jobs| == 1
            && s.jobs[0].status.Failed? && IsHolding(s, 0) && s.workers[0].claim.id == 0 && s.workers[0].phase.Raised?
            && s'.jobs[0].status.Pending? && s'.jobs[0].attempts == 1
  {
    var r := FirstTurn(kind, args, userId, key);
    var s := InFirstTurn(kind, args, userId, key);
    FirstTurnReaches(allow, kind, args, userId, key);
    Then(allow, r, Tick(runs));
    Then(allow, r + [Tick(runs)], Recover(window));
    var swept := Reached(allow, r + [Tick(runs)] + [Recover(window)]);
    assert s.jobs[0].Stale(runs - window) && swept.jobs == [RecoveredJob(s.jobs[0], runs - window)];
    Then(allow, r + [Tick(runs)] + [Recover(window)], Raise(0));
    Then(allow, r + [Tick(runs)] + [Recover(window)] + [Raise(0)], Settle(0));
  }

  // ---- the queue drains ----

  ghost predicate NoNewJob(e: Event) { !e.Enqueue? && !e.Insert? }

  /** Claims, completions, retries, and sweeps that find something. */
  ghost predicate MovesQueue(allow: set<string>, s: State, e: Event) {
    && Enabled(allow, s, e)
    && (e.Commit? || e.Complete? || e.Settle?
        || (e.Recover? && exists j | 0 <= j < |s.jobs| :: s.jobs[j].Stale(s.clock - e.staleAfter)))
  }

  lemma SweepLowersWeight(allow: set<string>, s: State, staleAfter: real)
    requires QueueInv(s)
    ensures var e := Recover(staleAfter);
            && Weight(Do(allow, s, e).jobs) <= Weight(s.jobs)
            && (MovesQueue(allow, s, e) ==> Weight(Do(allow, s, e).jobs) < Weight(s.jobs))
  {
    var s' := Do(allow, s, Recover(staleAfter));
    forall j | 0 <= j < |s.jobs|
      ensures JobWeight(s'.jobs[j]) <= JobWeight(s.jobs[j])
      ensures s.jobs[j].Stale(s.clock - staleAfter) ==> JobWeight(s'.jobs[j]) < JobWeight(s.jobs[j])
    {
      assert JobOk(s.jobs[j], s.entries[j]);
    }
    WeightPointwise(s.jobs, s'.jobs);
  }

  lemma WorkerLowersWeight(allow: set<string>, s: State, e: Event)
    requires QueueInv(s) && LiveHoldersRun(s) && Enabled(allow, s, e) && (e.Commit? || e.Complete? || e.Settle?)
    ensures Weight(Effect(allow, s, e).jobs) < Weight(s.jobs)
  {
    var s' := Effect(allow, s, e);
    assert WorkerOk(s, s.workers[e.w]);
    var j := s.workers[e.w].Target().value;
    assert JobOk(s.jobs[j], s.entries[j]);
    WeightUpdate(s.jobs, j, s'.jobs[j]);
    assert s'.jobs == s.jobs[j := s'.jobs[j]];
  }

  lemma EveryMoveLowersWeight(allow: set<string>, s: State, e: Event)
    requires QueueInv(s) && LiveHoldersRun(s) && NoNewJob(e)
    ensures Weight(Do(allow, s, e).jobs) <= Weight(s.jobs)
    ensures MovesQueue(allow, s, e) ==> Weight(Do(allow, s, e).jobs) < Weight(s.jobs)
  {
    if e.Recover? {
      SweepLowersWeight(allow, s, e.staleAfter);
    } else if Enabled(allow, s, e) && (e.Commit? || e.Complete? || e.Settle?) {
      WorkerLowersWeight(allow, s, e);
    }
  }

  /** How many of these steps moved the queue. */
  ghost function Moves(allow: set<string>, s: State, events: seq<Event>): nat {
    if events == [] then 0
    else
      var n := |events| - 1;
      Moves(allow, s, events[..n]) + if MovesQueue(allow, Exec(allow, s, events[..n]), events[n]) then 1 else 0
  }

  /** With no new job, any fresh run moves the queue at most Weight times (six per row at most):
      every claim, completion, retry and effective sweep is paid for, so the queue runs dry. */
  lemma {:induction false} QueueDrains(allow: set<string>, s: State, events: seq<Event>)
    requires QueueInv(s) && LiveHoldersRun(s) && FreshRun(allow, s, events)
    requires forall e | e in events :: NoNewJob(e)
    ensures Moves(allow, s, events) + Weight(Exec(allow, s, events).jobs) <= Weight(s.jobs) <= 6 * |s.jobs|
    ensures Weight(Exec(allow, s, events).jobs) >= 0
    ensures QueueInv(Exec(allow, s, events)) && LiveHoldersRun(Exec(allow, s, events))
    ensures |Exec(allow, s, events).jobs| == |s.jobs|
  {
    WeightIsBounded(s);
    if events != [] {
      var n := |events| - 1;
      var mid := Exec(allow, s, events[..n]);
      QueueDrains(allow, s, events[..n]);
      EveryMoveLowersWeight(allow, mid, events[n]);
      QueueStep(allow, mid, events[n]);
      LiveHoldersStep(allow, mid, events[n]);
      WeightIsBounded(Do(allow, mid, events[n]));
    }
  }

  lemma WeightIsBounded(s: State)
    requires QueueInv(s)
    ensures 0 <= Weight(s.jobs) <= 6 * |s.jobs|
  {
    forall j | 0 <= j < |s.jobs| ensures s.jobs[j].attempts < MAX_ATTEMPTS {
      assert JobOk(s.jobs[j], s.entries[j]);
    }
    WeightBounds(s.jobs);
  }

  /** Nothing unfinished is ever stuck: it is pending, or its holder's next step is enabled, or it is
      an orphan, which a sweep fails as soon as its claim is older than the window. */
  lemma UnfinishedJobsCanMove(allow: set<string>, s: State, j: nat, staleAfter: real)
    requires QueueInv(s) && j < |s.jobs| && !s.jobs[j].Terminal()
    ensures
      || s.jobs[j].status.Pending?
      || (exists w | 0 <= w < |s.workers| :: s.workers[w].Holding? && s.workers[w].claim.id == j
            && (Enabled(allow, s, Enter(w)) || Enabled(allow, s, Return(w)) || Enabled(allow, s, Complete(w)) || Enabled(allow, s, Settle(w))))
      || (HeldByNobody(s, j)
            && exists dt :: dt >= 0.0 && Do(allow, Do(allow, s, Tick(dt)), Recover(staleAfter)).jobs[j].status.Failed?)
  {
    if s.jobs[j].status.Running? && !HeldByNobody(s, j) {
      var w :| 0 <= w < |s.workers| && s.workers[w].Target() == Some(j);
      assert WorkerOk(s, s.workers[w]);
      assert s.workers[w].Holding?;
      assert Enabled(allow, s, Enter(w)) || Enabled(allow, s, Return(w)) || Enabled(allow, s, Complete(w)) || Enabled(allow, s, Settle(w));
    } else if s.jobs[j].status.Running? {
      var at := s.jobs[j].claimedAt.GetOr(0.0);
      var dt := if at + staleAfter >= s.clock then at + staleAfter - s.clock + 1.0 else 0.0;
      assert Do(allow, Do(allow, s, Tick(dt)), Recover(staleAfter)).jobs[j].status.Failed?;
    }
  }
}
