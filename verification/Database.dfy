/** The two tables as the running program changes them, one method per Python function, and
    worker_main's loop. Every method is proved against the row functions of JobQueue, Approvals
    and Producers; the loop is proved to be a run of the transition system in Pipeline. */
module Database {
  import opened Wrappers
  import opened JobQueue
  import opened Approvals
  import opened Producers
  import opened Pipeline
  import opened PipelineDrain

  /** What the outside does to one turn of the worker's loop. */
  datatype Turn = Turn(
    elapsed: nat,              // seconds since the previous turn
    claimFails: bool,          // claim_one raises (the loop backs off)
    world: World,
    handlerRaises: bool,
    completeFails: bool,       // complete() raises after the handler came back
    settleFails: bool)         // requeue() or complete(error) raises: the worker thread dies
  {
    predicate Smooth() { !claimFails && !settleFails }
  }

  datatype Reply = Answered(decision: Decision, job: Option<nat>) | NotFound | AlreadyDecided

  class Store {
    var jobs: seq<Job>
    var approvals: seq<Approval>

    constructor ()
      ensures jobs == [] && approvals == []
    {
      jobs, approvals := [], [];
    }

    // ---- queue.py ----

    method Enqueue(kind: string, args: Args, userId: string, key: Option<string>) returns (id: nat)
      modifies this`jobs
      ensures jobs == Enqueued(old(jobs), kind, args, userId, key)
      ensures id < |jobs|
      ensures id < |old(jobs)| ==> jobs == old(jobs) && Duplicate(jobs[id], key)
      ensures id >= |old(jobs)| ==> id == |old(jobs)| && jobs[id] == NewJob(kind, args, userId, key)
    {
      var duplicate := FindDuplicate(jobs, key);
      if duplicate.Some? {
        return duplicate.value;
      }
      id := |jobs|;
      jobs := jobs + [NewJob(kind, args, userId, key)];
    }

    method ClaimOne(locked: set<nat>, now: real) returns (claim: Option<Claim>)
      modifies this`jobs
      ensures claim.None? <==> NextPending(old(jobs), locked, 0).None?
      ensures claim.None? ==> jobs == old(jobs)
      ensures claim.Some? ==> var j := NextPending(old(jobs), locked, 0).value;
                jobs == Claimed(old(jobs), j, now) && claim.value == ClaimOf(jobs, j)
    {
      var row := NextPending(jobs, locked, 0);
      if row.None? {
        return None;
      }
      var j := row.value;
      jobs := jobs[j := jobs[j].(status := Running, claimedAt := Some(now))];
      claim := Some(Claim(j, jobs[j].kind, jobs[j].args, jobs[j].userId, jobs[j].attempts));
    }

    method Complete(id: nat, error: Option<string>)
      modifies this`jobs
      ensures jobs == Completed(old(jobs), id, error)
    {
      if id < |jobs| {
        jobs := jobs[id := jobs[id].(status := if Truthy(error) then Failed else Done, error := error)];
      }
    }

    method Requeue(id: nat)
      modifies this`jobs
      ensures jobs == Requeued(old(jobs), id)
    {
      if id < |jobs| {
        jobs := jobs[id := jobs[id].(status := Pending, attempts := jobs[id].attempts + 1)];
      }
    }

    method RecoverOrphans(now: real, staleAfter: real) returns (count: nat)
      modifies this`jobs
      ensures jobs == Recovered(old(jobs), now - staleAfter)
      ensures count == StaleCount(old(jobs), now - staleAfter)
    {
      count := StaleCount(jobs, now - staleAfter);
      jobs := Recovered(jobs, now - staleAfter);
    }

    // ---- approvals.py ----

    method CreateRequest(userId: string, action: string, summary: string, payload: Option<Args>) returns (id: nat)
      modifies this`approvals
      ensures approvals == old(approvals) + [NewRequest(userId, action, summary, payload)] && id == |old(approvals)|
    {
      id := |approvals|;
      approvals := approvals + [NewRequest(userId, action, summary, payload)];
    }

    method Decide(id: nat, approve: bool, who: string) returns (flipped: bool)
      modifies this`approvals
      ensures flipped == Flips(old(approvals), id)
      ensures approvals == Decided(old(approvals), id, approve, who)
      ensures flipped ==> !Flips(approvals, id)
    {
      flipped := id < |approvals| && approvals[id].status.Undecided?;
      if flipped {
        approvals := approvals[id := approvals[id].(status := if approve then Approved else Dismissed, decidedBy := Some(who))];
      }
    }

    // ---- dispatch_approved_build and the two decision handlers ----

    method DispatchApprovedBuild(id: nat) returns (job: Option<nat>)
      modifies this`jobs
      ensures job.Some? <==> Dispatchable(approvals, id)
      ensures job.None? ==> jobs == old(jobs)
      ensures job.Some? ==>
                && jobs == Enqueued(old(jobs), "implement", approvals[id].Parameters(),
                                    OrSystem(approvals[id].userId), Some(ImplementKey(id)))
                && job.value < |jobs| && jobs[job.value].dedupKey == Some(ImplementKey(id))
    {
      if id >= |approvals| || !approvals[id].status.Approved? || !approvals[id].Buildable() {
        return None;
      }
      var row := approvals[id];
      var j := Enqueue("implement", row.Parameters(), OrSystem(row.userId), Some(ImplementKey(id)));
      job := Some(j);
    }

    /** A Slack click by an admin. */
    method SlackDecision(id: nat, approve: bool, who: string) returns (job: Option<nat>)
      modifies this
      ensures approvals == Decided(old(approvals), id, approve, who)
      ensures !Flips(old(approvals), id) ==> jobs == old(jobs) && job.None?
      ensures job.Some? <==> Flips(old(approvals), id) && approve && old(approvals)[id].Buildable()
      ensures jobs == old(jobs) || jobs == Enqueued(old(jobs), "implement", approvals[id].Parameters(),
                                                    OrSystem(approvals[id].userId), Some(ImplementKey(id)))
    {
      job := None;
      var flipped := Decide(id, approve, who);
      if flipped && approve {
        job := DispatchApprovedBuild(id);
      }
    }

    /** A console click by an admin; 404 and 409 leave both tables alone. */
    method ConsoleDecision(id: nat, approve: bool, who: string) returns (reply: Reply)
      modifies this
      ensures reply == NotFound <==> id >= |old(approvals)|
      ensures reply == AlreadyDecided <==> id < |old(approvals)| && !Flips(old(approvals), id)
      ensures !reply.Answered? ==> jobs == old(jobs) && approvals == old(approvals)
      ensures reply.Answered? ==>
                && approvals == Decided(old(approvals), id, approve, who)
                && reply.decision == approvals[id].status
                && (reply.job.Some? <==> approve && old(approvals)[id].Buildable())
                && (reply.job.None? ==> jobs == old(jobs))
                && (reply.job.Some? ==> jobs == Enqueued(old(jobs), "implement", approvals[id].Parameters(),
                                                         OrSystem(approvals[id].userId), Some(ImplementKey(id))))
    {
      if id >= |approvals| { return NotFound; }
      var row := approvals[id];
      if !row.status.Undecided? { return AlreadyDecided; }
      var flipped := Decide(id, approve, who);
      if !flipped { return AlreadyDecided; }
      var job := None;
      if approve && row.Buildable() {
        job := DispatchApprovedBuild(id);
      }
      reply := Answered(if approve then Approved else Dismissed, job);
    }

    // ---- run_plan_job, run_triage_job, handle_task ----

    method RunPlanJob(allow: set<string>, args: Args, world: World) returns (outcome: Outcome)
      modifies this`approvals
      ensures outcome == PlanOutcome(allow, args, world)
      ensures approvals == old(approvals) + if outcome.Awaiting? then [outcome.request] else []
    {
      var owner, name := args.owner, Or(args.name, args.repo);
      if !Truthy(owner) || !Truthy(name) { return NoRepo; }
      if !Allowed(allow, owner.value, name.value) { return RefusedNotAllowlisted; }
      if !world.canWrite { return RefusedNoWrite; }
      if args.planText.None? { return Raises; }
      var payload := NO_ARGS.(owner := owner, name := name, planText := args.planText,
                              channel := args.channel, threadTs := args.threadTs, prNumber := args.prNumber);
      var id := CreateRequest(OrSystem(args.userId.GetOr("")), "build:implement",
        "Implement on " + RepoOf(owner.value, name.value) + ": " + First80(args.planText.value), Some(payload));
      outcome := Awaiting(approvals[id]);
    }

    method RunTriageJob(allow: set<string>, args: Args, world: World) returns (outcome: Outcome)
      modifies this`approvals
      ensures outcome == TriageOutcome(allow, args, world)
      ensures approvals == old(approvals) + if outcome.Awaiting? then [outcome.request] else []
    {
      if args.owner.None? || args.name.None? { return Raises; }
      if !world.sentryReady { return SentryUnconfigured; }
      if !Allowed(allow, args.owner.value, args.name.value) { return RefusedNotAllowlisted; }
      if args.sentryIssueId.None? || !world.fetched { return FetchFailed; }
      if world.brief.None? { return Raises; }
      var payload := NO_ARGS.(owner := args.owner, name := args.name, planText := world.brief,
                              channel := args.channel, threadTs := args.threadTs);
      var id := CreateRequest(OrSystem(args.userId.GetOr("")), "triage:implement",
        "Fix " + RepoOf(args.owner.value, args.name.value) + " (Sentry " + args.sentryIssueId.value + "): "
          + First80(world.brief.value), Some(payload));
      outcome := Awaiting(approvals[id]);
    }

    /** handle_task: whether an exception leaves it. The job kinds other than plan and triage
        touch neither table. */
    method HandleTask(allow: set<string>, claim: Claim, world: World, raises: bool) returns (raised: bool)
      modifies this`approvals
      ensures var outcome := HandlerOutcome(allow, claim, world);
              approvals == old(approvals) + if outcome.Awaiting? then [outcome.request] else []
      ensures raised == (raises || HandlerOutcome(allow, claim, world).Raises?)
    {
      raised := raises;
      if claim.kind == "plan" {
        var outcome := RunPlanJob(allow, PlanArgs(claim, world), world);
        raised := raised || outcome.Raises?;
      } else if claim.kind == "triage" {
        var outcome := RunTriageJob(allow, claim.args, world);
        raised := raised || outcome.Raises?;
      }
    }

    // ---- worker_main ----

    /** The exception branch of the loop. */
    method Settle(claim: Claim)
      modifies this`jobs
      ensures jobs == Settled(old(jobs), claim, FAILURE)
    {
      if claim.attempts + 1 < MAX_ATTEMPTS {
        Requeue(claim.id);
      } else {
        Complete(claim.id, Some(FAILURE));
      }
    }

    /** The rest of the turn once the handler is over: complete(), and the exception branch when
        the handler or complete() itself raised. */
    method Conclude(claim: Claim, handlerRaised: bool, turn: Turn) returns (died: bool)
      modifies this`jobs
      ensures jobs == Concluded(old(jobs), claim, handlerRaised, turn)
      ensures died == ((handlerRaised || turn.completeFails) && turn.settleFails)
    {
      died := false;
      if !handlerRaised && !turn.completeFails {
        Complete(claim.id, None);
      } else if turn.settleFails {
        died := true;
      } else {
        Settle(claim);
      }
    }

    /** One turn of the loop, taken by the only worker. With no failing database call it either
        finds nothing pending or lowers the weight of the queue by at least two. */
    method OneTurn(allow: set<string>, turn: Turn, clock: real, ghost start: State, ghost s: State, ghost run: seq<Event>)
      returns (died: bool, ghost s': State, ghost run': seq<Event>)
      requires Tracks(allow, start, s, run, jobs, approvals) && s.clock == clock
      requires |s.workers| == 1 && s.workers[0].Idle?
      modifies this
      ensures Tracks(allow, start, s', run', jobs, approvals) && s'.clock == clock
      ensures |s'.workers| == 1 && s'.workers[0] == if died then Dead else Idle
      ensures turn.Smooth() ==>
                && !died
                && (if NextPending(old(jobs), {}, 0).None? then jobs == old(jobs)
                    else Weight(jobs) + 2 <= Weight(old(jobs)))
    {
      died, s', run' := false, s, run;
      if turn.claimFails {
        return;
      }
      var claim := ClaimOne({}, clock);
      if claim.None? {
        return;
      }
      s', run' := ClaimRun(allow, start, s', run');
      var raised := HandleTask(allow, claim.value, turn.world, turn.handlerRaises);
      s', run' := HandlerRun(allow, start, s', run', turn.world, raised);
      died := Conclude(claim.value, raised, turn);
      s', run' := ConcludeRun(allow, start, s', run', raised, turn);
    }

    /** The loop of worker_main, until its stop event (the end of `turns`) or its death. */
    method Loop(allow: set<string>, now: real, turns: seq<Turn>, ghost start: State, ghost s: State, ghost run: seq<Event>)
      returns (died: bool, ghost s': State, ghost run': seq<Event>)
      requires Tracks(allow, start, s, run, jobs, approvals) && s.clock == now
      requires |s.workers| == 1 && s.workers[0].Idle?
      modifies this
      ensures Tracks(allow, start, s', run', jobs, approvals)
      ensures (forall turn | turn in turns :: turn.Smooth()) ==>
                !died && (Weight(jobs) + 2 * |turns| <= Weight(old(jobs)) || NextPending(jobs, {}, 0).None?)
    {
      died, s', run' := false, s, run;
      ghost var smooth := forall turn | turn in turns :: turn.Smooth();
      var clock := now;
      var i := 0;
      while i < |turns| && !died
        invariant 0 <= i <= |turns|
        invariant Tracks(allow, start, s', run', jobs, approvals) && s'.clock == clock
        invariant |s'.workers| == 1 && (died || s'.workers[0].Idle?)
        invariant smooth ==> !died && (Weight(jobs) + 2 * i <= Weight(old(jobs)) || NextPending(jobs, {}, 0).None?)
      {
        assert smooth ==> turns[i].Smooth();
        clock := clock + turns[i].elapsed as real;
        s', run' := Extend(allow, start, s', run', Tick(turns[i].elapsed as real));
        died, s', run' := OneTurn(allow, turns[i], clock, start, s', run');
        i := i + 1;
      }
    }

    /** worker_main: one worker from its start to its stop event or its death, with nobody else stepping in
        between. What it does is a run of the transition system from `start`, the state it finds; and if no
        database call fails, it leaves nothing pending once it has had more than half as many turns as the
        queue weighs. */
    method WorkerMain(allow: set<string>, now: real, staleAfter: real, turns: seq<Turn>, ghost start: State) returns (died: bool)
      requires QueueInv(start) && start.clock == now && start.jobs == jobs && start.approvals == approvals
      requires |start.workers| == 1 && start.workers[0].Idle?
      modifies this
      ensures exists run :: RunsTo(allow, start, run, jobs, approvals)
      ensures (forall turn | turn in turns :: turn.Smooth()) && 2 * |turns| > Weight(old(jobs))
              ==> !died && forall j | 0 <= j < |jobs| :: !jobs[j].status.Pending?
    {
      ghost var s, run := start, [];
      var count := RecoverOrphans(now, staleAfter);
      EveryMoveLowersWeight(allow, s, Recover(staleAfter));
      s, run := Extend(allow, start, s, run, Recover(staleAfter));
      died, s, run := Loop(allow, now, turns, start, s, run);
      WeightIsBounded(s);
      assert RunsTo(allow, start, run, jobs, approvals);
    }
  }

  ghost predicate RunsTo(allow: set<string>, start: State, run: seq<Event>, jobs: seq<Job>, approvals: seq<Approval>) {
    Exec(allow, start, run).jobs == jobs && Exec(allow, start, run).approvals == approvals
  }

  /** `s` is where `run` has led, and the tables hold what `s` says. */
  ghost predicate Tracks(allow: set<string>, start: State, s: State, run: seq<Event>, jobs: seq<Job>, approvals: seq<Approval>) {
    s == Exec(allow, start, run) && QueueInv(s) && s.jobs == jobs && s.approvals == approvals
  }

  lemma Extend(allow: set<string>, start: State, s: State, run: seq<Event>, e: Event) returns (s': State, run': seq<Event>)
    requires s == Exec(allow, start, run) && QueueInv(s)
    ensures s' == Do(allow, s, e) && s' == Exec(allow, start, run') && QueueInv(s')
    ensures LiveHoldersRun(s) && !e.Recover? ==> LiveHoldersRun(s')
    ensures LiveHoldersRun(s) && NoNewJob(e) ==> Weight(s'.jobs) <= Weight(s.jobs)
    ensures LiveHoldersRun(s) && Enabled(allow, s, e) && (e.Commit? || e.Complete? || e.Settle?) ==> Weight(s'.jobs) < Weight(s.jobs)
  {
    s', run' := Do(allow, s, e), run + [e];
    assert run'[..|run|] == run;
    QueueStep(allow, s, e);
    if LiveHoldersRun(s) {
      if !e.Recover? { LiveHoldersStep(allow, s, e); }
      if NoNewJob(e) { EveryMoveLowersWeight(allow, s, e); }
    }
  }

  function Concluded(jobs: seq<Job>, claim: Claim, handlerRaised: bool, turn: Turn): seq<Job> {
    if !handlerRaised && !turn.completeFails then Completed(jobs, claim.id, None)
    else if turn.settleFails then jobs
    else Settled(jobs, claim, FAILURE)
  }

  /** claim_one and the entry into the handler, by the only worker. */
  lemma ClaimRun(allow: set<string>, start: State, s: State, run: seq<Event>) returns (s': State, run': seq<Event>)
    requires s == Exec(allow, start, run) && QueueInv(s) && s.workers == [Idle] && NextPending(s.jobs, {}, 0).Some?
    ensures var j := NextPending(s.jobs, {}, 0).value;
            && s'.jobs == Claimed(s.jobs, j, s.clock)
            && s'.workers == [Holding(ClaimOf(s'.jobs, j), InHandler(false))]
    ensures s'.approvals == s.approvals && s'.clock == s.clock
    ensures s' == Exec(allow, start, run') && QueueInv(s') && Weight(s'.jobs) < Weight(s.jobs)
  {
    assert LockedRows(s) == {};
    var j := NextPending(s.jobs, {}, 0).value;
    var t, u;
    t, run' := Extend(allow, start, s, run, Select(0));
    assert t == s.(workers := [Selecting(j)]);
    u, run' := Extend(allow, start, t, run', Commit(0));
    assert u == s.(jobs := Claimed(s.jobs, j, s.clock), workers := [Holding(ClaimOf(s.jobs, j), Picked)]);
    assert ClaimOf(s.jobs, j) == ClaimOf(u.jobs, j);
    s', run' := Extend(allow, start, u, run', Enter(0));
  }

  /** The handler call, up to its return or its exception. */
  lemma HandlerRun(allow: set<string>, start: State, s: State, run: seq<Event>, world: World, raised: bool)
    returns (s': State, run': seq<Event>)
    requires s == Exec(allow, start, run) && QueueInv(s)
    requires |s.workers| == 1 && s.workers[0].Holding? && s.workers[0].phase == InHandler(false)
    ensures var outcome := HandlerOutcome(allow, s.workers[0].claim, world);
            s'.approvals == s.approvals + if outcome.Awaiting? then [outcome.request] else []
    ensures s'.workers == [Holding(s.workers[0].claim, if raised then Phase.Raised else Returned)]
    ensures s'.jobs == s.jobs && s'.clock == s.clock
    ensures s' == Exec(allow, start, run') && QueueInv(s')
  {
    s', run' := s, run;
    var outcome := HandlerOutcome(allow, s.workers[0].claim, world);
    if outcome.Awaiting? {
      s', run' := Extend(allow, start, s, run, Ask(0, world));
      assert s' == s.(approvals := s.approvals + [outcome.request],
                      workers := [Holding(s.workers[0].claim, InHandler(true))]);
    }
    s', run' := Extend(allow, start, s', run', if raised then Raise(0) else Return(0));
  }

  /** From the handler's end to the end of the turn. */
  lemma ConcludeRun(allow: set<string>, start: State, s: State, run: seq<Event>, raised: bool, turn: Turn)
    returns (s': State, run': seq<Event>)
    requires s == Exec(allow, start, run) && QueueInv(s) && LiveHoldersRun(s)
    requires |s.workers| == 1 && s.workers[0].Holding?
    requires s.workers[0].phase == if raised then Phase.Raised else Returned
    ensures s'.jobs == Concluded(s.jobs, s.workers[0].claim, raised, turn)
    ensures s'.workers == [if (raised || turn.completeFails) && turn.settleFails then Dead else Idle]
    ensures s'.approvals == s.approvals && s'.clock == s.clock
    ensures s' == Exec(allow, start, run') && QueueInv(s')
    ensures !turn.settleFails ==> Weight(s'.jobs) < Weight(s.jobs)
  {
    if !raised && !turn.completeFails {
      s', run' := Extend(allow, start, s, run, Complete(0));
    } else if raised {
      s', run' := SettleRun(allow, start, s, run, turn.settleFails);
    } else {
      s', run' := Extend(allow, start, s, run, CompleteRaises(0));
      s', run' := SettleRun(allow, start, s', run', turn.settleFails);
    }
  }

  lemma SettleRun(allow: set<string>, start: State, s: State, run: seq<Event>, settleFails: bool)
    returns (s': State, run': seq<Event>)
    requires s == Exec(allow, start, run) && QueueInv(s) && LiveHoldersRun(s)
    requires |s.workers| == 1 && s.workers[0].Holding? && s.workers[0].phase.Raised?
    ensures s'.jobs == if settleFails then s.jobs else Settled(s.jobs, s.workers[0].claim, FAILURE)
    ensures s'.workers == [if settleFails then Dead else Idle]
    ensures s'.approvals == s.approvals && s'.clock == s.clock
    ensures s' == Exec(allow, start, run') && QueueInv(s')
    ensures !settleFails ==> Weight(s'.jobs) < Weight(s.jobs)
  {
    s', run' := Extend(allow, start, s, run, if settleFails then Crash(0) else Settle(0));
  }
}
