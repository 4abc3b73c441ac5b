/** What the transition system guarantees in every reachable state and over every run. */
module PipelineSafety {
  import opened Wrappers
  import opened Text
  import opened JobQueue
  import opened Approvals
  import opened Producers
  import opened Pipeline

  // ---- the approval gate ----

  /** Every implement job was approved by an admin, carries exactly the approved parameters,
      and targets an allowlisted repository; no two of them serve the same approval. */
  lemma ImplementJobsAreApproved(allow: set<string>, events: seq<Event>, j: nat)
    requires j < |Reached(allow, events).jobs| && Reached(allow, events).jobs[j].kind == "implement"
    ensures var s := Reached(allow, events);
            exists a: nat :: Backs(s.approvals, a, s.jobs[j])
    ensures OnAllowlist(allow, Reached(allow, events).jobs[j].args)
    ensures forall i | 0 <= i < |Reached(allow, events).jobs| && i != j ::
              Reached(allow, events).jobs[i].kind == "implement"
              ==> Reached(allow, events).jobs[i].dedupKey != Reached(allow, events).jobs[j].dedupKey
  {
    InvReached(allow, events);
    var s := Reached(allow, events);
    assert Backed(s.approvals, s.jobs[j]);
    var a: nat :| Backs(s.approvals, a, s.jobs[j]);
    assert s.approvals[a].Buildable();
  }

  lemma EmptyAllowlistBuildsNothing(events: seq<Event>)
    ensures forall j | 0 <= j < |Reached({}, events).jobs| :: Reached({}, events).jobs[j].kind != "implement"
  {
    forall j | 0 <= j < |Reached({}, events).jobs| ensures Reached({}, events).jobs[j].kind != "implement" {
      if Reached({}, events).jobs[j].kind == "implement" {
        ImplementJobsAreApproved({}, events, j);
      }
    }
  }

  lemma RowsKeptTransitive(a: seq<Approval>, b: seq<Approval>, c: seq<Approval>)
    requires RowsKept(a, b) && RowsKept(b, c)
    ensures RowsKept(a, c)
  {
    forall i | 0 <= i < |a| ensures RowKept(a[i], c[i]) {
      assert RowKept(a[i], b[i]) && RowKept(b[i], c[i]);
    }
  }

  /** From any reachable state onwards a request never changes and a decision is final;
      a queued job keeps the kind, arguments, user and key it was enqueued with. */
  lemma {:induction false} RequestsAreFrozen(allow: set<string>, s: State, more: seq<Event>)
    requires QueueInv(s)
    ensures QueueInv(Exec(allow, s, more))
    ensures RowsKept(s.approvals, Exec(allow, s, more).approvals)
    ensures JobsKept(s.jobs, Exec(allow, s, more).jobs)
  {
    if more != [] {
      var n := |more| - 1;
      var mid := Exec(allow, s, more[..n]);
      RequestsAreFrozen(allow, s, more[..n]);
      QueueStep(allow, mid, more[n]);
      StepKeepsRows(allow, mid, more[n]);
      RowsKeptTransitive(s.approvals, mid.approvals, Do(allow, mid, more[n]).approvals);
      forall j | 0 <= j < |s.jobs| ensures SameJob(s.jobs[j], Do(allow, mid, more[n]).jobs[j]) {
        assert SameJob(s.jobs[j], mid.jobs[j]);
      }
    }
  }

  /** The request a row was made with: by which step, from which job, under which World. */
  ghost predicate MadeByProducer(allow: set<string>, before: State, e: Event, a: nat) {
    && e.Ask? && Enabled(allow, before, e) && a == |before.approvals|
  }

  /** Step k made row a, asking for what `row` says. */
  ghost predicate WrittenAt(allow: set<string>, events: seq<Event>, k: nat, a: nat, row: Approval)
    requires k < |events|
  {
    var before := Reached(allow, events[..k]);
    && MadeByProducer(allow, before, events[k], a)
    && HandlerOutcome(allow, before.workers[events[k].w].claim, events[k].world).request.SameRequest(row)
  }

  lemma WrittenEarlier(allow: set<string>, events: seq<Event>, n: nat, k: nat, a: nat, before: Approval, row: Approval)
    requires k < n <= |events| && WrittenAt(allow, events[..n], k, a, before) && RowKept(before, row)
    ensures WrittenAt(allow, events, k, a, row)
  {
    assert events[..n][..k] == events[..k] && events[..n][k] == events[k];
  }

  lemma WrittenLast(allow: set<string>, events: seq<Event>, a: nat)
    requires events != [] && a < |Reached(allow, events).approvals| && Reached(allow, events).approvals[a].Buildable()
    requires a >= |Reached(allow, events[..|events| - 1]).approvals|
    ensures WrittenAt(allow, events, |events| - 1, a, Reached(allow, events).approvals[a])
  {
    var n := |events| - 1;
    ApiIsNeverBuildable();
    assert MadeByProducer(allow, Reached(allow, events[..n]), events[n], a);
  }

  lemma ApiIsNeverBuildable()
    ensures forall system: string :: !("build:" <= "api:" + system) && !("triage:" <= "api:" + system)
  {
    assert forall system: string :: ("api:" + system)[0] == 'a';
    assert "build:"[0] == 'b' && "triage:"[0] == 't';
  }

  lemma KeptSoFar(allow: set<string>, events: seq<Event>, a: nat)
    requires events != [] && a < |Reached(allow, events[..|events| - 1]).approvals|
    ensures a < |Reached(allow, events).approvals|
    ensures RowKept(Reached(allow, events[..|events| - 1]).approvals[a], Reached(allow, events).approvals[a])
  {
    InvReached(allow, events[..|events| - 1]);
    StepKeepsRows(allow, Reached(allow, events[..|events| - 1]), events[|events| - 1]);
  }

  /** Every buildable row was written by a plan or triage handler that had checked the allowlist,
      and it still says what that handler wrote. */
  lemma {:induction false} BuildableRowsComeFromProducers(allow: set<string>, events: seq<Event>, a: nat)
    requires a < |Reached(allow, events).approvals| && Reached(allow, events).approvals[a].Buildable()
    ensures exists k | 0 <= k < |events| :: WrittenAt(allow, events, k, a, Reached(allow, events).approvals[a])
  {
    if events != [] {
      var n := |events| - 1;
      var row := Reached(allow, events).approvals[a];
      if a < |Reached(allow, events[..n]).approvals| {
        var before := Reached(allow, events[..n]).approvals[a];
        KeptSoFar(allow, events, a);
        BuildableRowsComeFromProducers(allow, events[..n], a);
        var k :| 0 <= k < n && WrittenAt(allow, events[..n], k, a, before);
        WrittenEarlier(allow, events, n, k, a, before, row);
        assert WrittenAt(allow, events, k, a, row);
      } else {
        WrittenLast(allow, events, a);
        assert WrittenAt(allow, events, n, a, row);
      }
    }
  }

  // ---- decisions ----

  function FlipsOf(flips: seq<Flip>, id: nat): seq<Flip> {
    if flips == [] then []
    else FlipsOf(flips[..|flips| - 1], id) + if flips[|flips| - 1].id == id then [flips[|flips| - 1]] else []
  }

  lemma {:induction false} FlipsOfMembers(flips: seq<Flip>, id: nat)
    ensures forall f | f in FlipsOf(flips, id) :: f in flips && f.id == id
    ensures Logged(flips, id) <==> FlipsOf(flips, id) != []
  {
    if flips != [] {
      var n := |flips| - 1;
      FlipsOfMembers(flips[..n], id);
      assert flips == flips[..n] + [flips[n]];
      if Logged(flips, id) && flips[n].id != id {
        var f :| 0 <= f < |flips| && flips[f].id == id;
        assert flips[..n][f].id == id;
      }
      if Logged(flips[..n], id) {
        var f :| 0 <= f < n && flips[..n][f].id == id;
        assert flips[f].id == id;
      }
    }
  }

  lemma {:induction false} FlipsOfOnce(flips: seq<Flip>, id: nat)
    requires forall f, g | 0 <= f < g < |flips| :: flips[f].id != flips[g].id
    ensures |FlipsOf(flips, id)| <= 1
  {
    if flips != [] {
      var before, last := flips[..|flips| - 1], flips[|flips| - 1];
      FlipsOfOnce(before, id);
      FlipsOfMembers(before, id);
      forall f | f in before ensures f.id != last.id {
        var k :| 0 <= k < |before| && before[k] == f;
        assert flips[k] == f;
      }
    }
  }

  /** A row is decided iff exactly one decide call returned True for it, over all clicks of
      either interface, and the row carries that call's verdict and that caller's name. */
  lemma DecidedExactlyOnce(allow: set<string>, events: seq<Event>, a: nat)
    requires a < |Reached(allow, events).approvals|
    ensures var s := Reached(allow, events);
            var wins := FlipsOf(s.flips, a);
            && (s.approvals[a].status.Undecided? <==> wins == [])
            && (!s.approvals[a].status.Undecided? ==>
                  && |wins| == 1
                  && s.approvals[a].decidedBy == Some(wins[0].who)
                  && (s.approvals[a].status.Approved? <==> wins[0].approve))
  {
    InvReached(allow, events);
    var s := Reached(allow, events);
    FlipsOfMembers(s.flips, a);
    FlipsOfOnce(s.flips, a);
    if !s.approvals[a].status.Undecided? {
      var win := FlipsOf(s.flips, a)[0];
      assert win in s.flips;
      var f :| 0 <= f < |s.flips| && s.flips[f] == win;
      assert FlipOk(s.approvals, s.flips[f]);
    }
  }

  /** The verdict a step brings for row a: a Slack click, or a console click that has read the row. */
  function VerdictFor(s: State, e: Event, a: nat): Option<(bool, string)> {
    match e
    case SlackDecide(id, approve, who) => if id == a then Some((approve, who)) else None
    case ConsoleDecide(c) =>
      if c < |s.clicks| && s.clicks[c].ConsoleSaw? && s.clicks[c].id == a then Some((s.clicks[c].approve, s.clicks[c].who)) else None
    case _ => None
  }

  /** The first verdict for an undecided row is written to it, with who gave it; nothing else changes a row, and new
      rows are undecided. */
  lemma ApprovalStep(allow: set<string>, s: State, e: Event, a: nat)
    requires a < |Do(allow, s, e).approvals|
    ensures var row' := Do(allow, s, e).approvals[a];
            if a >= |s.approvals| then row'.status == Undecided && row'.decidedBy == None
            else if s.approvals[a].status == Undecided && VerdictFor(s, e, a).Some? then
              var verdict := VerdictFor(s, e, a).value;
              row' == s.approvals[a].(status := if verdict.0 then Approved else Dismissed, decidedBy := Some(verdict.1))
            else row' == s.approvals[a]
  {
    if e.Ask? && Enabled(allow, s, e) {
      ProducersEnforceAllowlist(allow, s.workers[e.w].claim, e.world);
    }
  }

  /** A connector's request is stored as it was made. */
  lemma OtherRequestIs(allow: set<string>, s: State, userId: string, system: string, summary: string, payload: Option<Args>)
    ensures Do(allow, s, AskOther(userId, system, summary, payload)).approvals
         == s.approvals + [Approval(userId, "api:" + system, summary, Undecided, None, payload)]
  {
  }

  /** What each step does to a click: it is made by a Slack approval that decided its row or by reading an undecided one
      in the console, and then goes its way until it is over. */
  lemma ClickStep(allow: set<string>, s: State, e: Event, c: nat)
    requires c < |Do(allow, s, e).clicks|
    ensures var click := Do(allow, s, e).clicks[c];
            if c >= |s.clicks| then
              && (e.SlackDecide? || e.ConsoleRead?) && e.id < |s.approvals| && s.approvals[e.id].status == Undecided
              && (e.SlackDecide? ==> e.approve && click == Won(e.id))
              && (e.ConsoleRead? ==> click == ConsoleSaw(e.id, s.approvals[e.id].Buildable(), e.approve, e.who))
            else if e == ConsoleDecide(c) && s.clicks[c].ConsoleSaw? then
              var saw := s.clicks[c];
              click == if Flips(s.approvals, saw.id) && saw.approve && saw.buildable then Won(saw.id) else Over
            else if e == Fetch(c) && s.clicks[c].Won? then
              var a := s.clicks[c].id;
              if a < |s.approvals| && s.approvals[a].status == Approved && ("build:" <= s.approvals[a].action || "triage:" <= s.approvals[a].action)
              then click == Fetched(a, s.approvals[a].payload.GetOr(NO_ARGS),
                                    if s.approvals[a].userId == "" then "system@axelerant.com" else s.approvals[a].userId)
              else click == Over
            else if (e == Insert(c) && s.clicks[c].Fetched?) || e == Abandon(c) then click == Over
            else click == s.clicks[c]
  {
  }

  /** Somebody clicked so, in Slack or in the console. */
  predicate Clicked(events: seq<Event>, a: nat, approve: bool, who: string) {
    SlackDecide(a, approve, who) in events || ConsoleRead(a, approve, who) in events
  }

  lemma {:induction false} ClicksWereMade(allow: set<string>, events: seq<Event>, c: nat)
    requires c < |Reached(allow, events).clicks| && Reached(allow, events).clicks[c].ConsoleSaw?
    ensures var click := Reached(allow, events).clicks[c]; Clicked(events, click.id, click.approve, click.who)
  {
    var n := |events| - 1;
    ClickStep(allow, Reached(allow, events[..n]), events[n], c);
    if c < |Reached(allow, events[..n]).clicks| {
      ClicksWereMade(allow, events[..n], c);
      assert events == events[..n] + [events[n]];
    }
  }

  /** A row is approved or dismissed only as somebody clicked, and it names who that was. */
  lemma {:induction false} DecisionsWereClicked(allow: set<string>, events: seq<Event>, a: nat)
    requires a < |Reached(allow, events).approvals| && Reached(allow, events).approvals[a].status != Undecided
    ensures var row := Reached(allow, events).approvals[a];
            row.decidedBy.Some? && Clicked(events, a, row.status == Approved, row.decidedBy.value)
  {
    var n := |events| - 1;
    var s, e := Reached(allow, events[..n]), events[n];
    assert events == events[..n] + [e];
    ApprovalStep(allow, s, e, a);
    if a < |s.approvals| && s.approvals[a].status != Undecided {
      DecisionsWereClicked(allow, events[..n], a);
    } else if e.ConsoleDecide? {
      ClicksWereMade(allow, events[..n], e.c);
    }
  }

  function JobsFor(jobs: seq<Job>, a: nat): set<nat> {
    set j | 0 <= j < |jobs| && jobs[j].kind == "implement" && jobs[j].dedupKey == Some(ImplementKey(a)) :: j
  }

  /** At most one implement job is ever enqueued for an approval, none before it is approved. */
  lemma AtMostOneImplementJob(allow: set<string>, events: seq<Event>, a: nat)
    ensures |JobsFor(Reached(allow, events).jobs, a)| <= 1
    ensures JobsFor(Reached(allow, events).jobs, a) != {} ==> Dispatchable(Reached(allow, events).approvals, a)
  {
    InvReached(allow, events);
    var s := Reached(allow, events);
    var found := JobsFor(s.jobs, a);
    if found != {} {
      var j :| j in found;
      assert found <= {j};
      assert found == {j};
      assert Backed(s.approvals, s.jobs[j]);
      var b: nat :| Backs(s.approvals, b, s.jobs[j]);
      ImplementKeyInjective(a, b);
    }
  }

  /** Dedup alone would not do: enqueueing twice under one key adds one row while the first is
      pending, but two as soon as a worker has claimed the first. */
  lemma DedupAloneIsNotEnough(rows: seq<Job>, args: Args, userId: string, key: string, now: real)
    requires key != "" && FindDuplicate(rows, Some(key)).None?
    ensures var once := Enqueued(rows, "implement", args, userId, Some(key));
            && Enqueued(once, "implement", args, userId, Some(key)) == once
            && var twice := Enqueued(Claimed(once, |rows|, now), "implement", args, userId, Some(key));
               |twice| == |rows| + 2 && twice[|rows|].dedupKey == twice[|rows| + 1].dedupKey == Some(key)
  {
    var once := Enqueued(rows, "implement", args, userId, Some(key));
    assert Duplicate(once[|rows|], Some(key));
    var claimed := Claimed(once, |rows|, now);
    forall i | 0 <= i < |claimed| ensures !Duplicate(claimed[i], Some(key)) {
      assert i < |rows| ==> claimed[i] == rows[i];
    }
  }

  ghost predicate OnePendingPerKey(jobs: seq<Job>) {
    forall i, j | 0 <= i < j < |jobs| && jobs[i].status.Pending? && jobs[j].status.Pending? && jobs[i].dedupKey.Some?
      && jobs[i].dedupKey.value != "" :: jobs[i].dedupKey != jobs[j].dedupKey
  }

  /** A retry that puts a row back although its key has been enqueued again meanwhile. */
  ghost predicate RetryCollides(s: State, e: Event) {
    && e.Settle? && IsHolding(s, e.w) && s.workers[e.w].phase.Raised?
    && s.workers[e.w].claim.attempts + 1 < MAX_ATTEMPTS
    && s.workers[e.w].claim.id < |s.jobs|
    && FindDuplicate(s.jobs, s.jobs[s.workers[e.w].claim.id].dedupKey).Some?
  }

  /** "One pending row per dedup key" survives every step except exactly such a retry. */
  lemma OnePendingPerKeyStep(allow: set<string>, s: State, e: Event)
    requires QueueInv(s) && OnePendingPerKey(s.jobs)
    ensures OnePendingPerKey(Do(allow, s, e).jobs) <==> !RetryCollides(s, e)
  {
    if Enabled(allow, s, e) {
      var s' := Effect(allow, s, e);
      if e.Settle? {
        assert WorkerOk(s, s.workers[e.w]);
        var j := s.workers[e.w].claim.id;
        var dup := FindDuplicate(s.jobs, s.jobs[j].dedupKey);
        if RetryCollides(s, e) {
          assert s'.jobs[dup.value].dedupKey == s'.jobs[j].dedupKey;
          assert s'.jobs[dup.value].status.Pending? && s'.jobs[j].status.Pending?;
        }
      } else if e.Commit? {
        assert WorkerOk(s, s.workers[e.w]);
      }
    }
  }

  lemma Then(allow: set<string>, events: seq<Event>, e: Event)
    ensures Reached(allow, events + [e]) == Do(allow, Reached(allow, events), e)
  {
    assert (events + [e])[..|events|] == events;
  }

  /** One worker starts, claims the one job there is and enters its handler. */
  function FirstTurn(kind: string, args: Args, userId: string, key: Option<string>): seq<Event> {
    [StartWorker] + [Enqueue(kind, args, userId, key)] + [Select(0)] + [Commit(0)] + [Enter(0)]
  }

  function InFirstTurn(kind: string, args: Args, userId: string, key: Option<string>): State {
    State([NewJob(kind, args, userId, key).(status := Running, claimedAt := Some(0.0))], [],
          [Holding(Claim(0, kind, args, userId, 0), InHandler(false))], [], 0.0, [1], [])
  }

  lemma FirstTurnReaches(allow: set<string>, kind: string, args: Args, userId: string, key: Option<string>)
    requires kind != "implement"
    ensures Reached(allow, FirstTurn(kind, args, userId, key)) == InFirstTurn(kind, args, userId, key)
  {
    var job := NewJob(kind, args, userId, key);
    var r1 := [StartWorker];
    Then(allow, [], StartWorker);
    assert [] + [StartWorker] == r1;
    assert Reached(allow, r1) == INITIAL.(workers := [Idle]);
    Then(allow, r1, Enqueue(kind, args, userId, key));
    var r2 := r1 + [Enqueue(kind, args, userId, key)];
    assert Reached(allow, r2) == State([job], [], [Idle], [], 0.0, [0], []);
    FirstClaim(allow, r2, job);
    Then(allow, r2 + [Select(0)] + [Commit(0)], Enter(0));
  }

  lemma FirstClaim(allow: set<string>, run: seq<Event>, job: Job)
    requires Reached(allow, run) == State([job], [], [Idle], [], 0.0, [0], []) && job.status.Pending?
    ensures var claimed := job.(status := Running, claimedAt := Some(0.0));
            (Reached(allow, run + [Select(0)] + [Commit(0)])
             == State([claimed], [], [Holding(Claim(0, job.kind, job.args, job.userId, job.attempts), Picked)], [], 0.0, [0], []))
  {
    var s := Reached(allow, run);
    assert LockedRows(s) == {} && NextPending(s.jobs, {}, 0) == Some(0);
    Then(allow, run, Select(0));
    assert Reached(allow, run + [Select(0)]) == s.(workers := [Selecting(0)]);
    Then(allow, run + [Select(0)], Commit(0));
  }

  /** A run that breaks "one pending row per key": the key is enqueued again while its first job runs, and then
      that job fails and is retried. */
  lemma TwoPendingRowsAreReachable(allow: set<string>, kind: string, args: Args, userId: string, key: string)
    requires kind != "implement" && key != ""
    ensures var events := FirstTurn(kind, args, userId, Some(key))
                          + [Enqueue(kind, args, userId, Some(key))] + [Raise(0)] + [Settle(0)];
            var jobs := Reached(allow, events).jobs;
            && |jobs| == 2 && jobs[0].status.Pending? && jobs[1].status.Pending?
            && jobs[0].dedupKey == jobs[1].dedupKey == Some(key) && !OnePendingPerKey(jobs)
  {
    var again, r := Enqueue(kind, args, userId, Some(key)), FirstTurn(kind, args, userId, Some(key));
    var s := InFirstTurn(kind, args, userId, Some(key));
    FirstTurnReaches(allow, kind, args, userId, Some(key));
    Then(allow, r, again);
    assert FindDuplicate(s.jobs, Some(key)).None?;
    var second := s.(jobs := s.jobs + [NewJob(kind, args, userId, Some(key))], entries := [1, 0]);
    assert Reached(allow, r + [again]) == second;
    Then(allow, r + [again], Raise(0));
    Then(allow, r + [again] + [Raise(0)], Settle(0));
    var jobs := Reached(allow, r + [again] + [Raise(0)] + [Settle(0)]).jobs;
    assert jobs == Requeued(second.jobs, 0);
  }

  // ---- the workers ----

  /** At most one worker works on a job, it is never a pending one, no row is retried past its
      third attempt, and no handler is entered a fourth time: crashes, orphan sweeps of any
      window (even one that fails a job still being worked on) and all interleavings included. */
  lemma WorkersAreExclusive(allow: set<string>, events: seq<Event>, v: nat, w: nat)
    requires var s := Reached(allow, events);
             IsHolding(s, v) && IsHolding(s, w) && s.workers[v].claim.id == s.workers[w].claim.id
    ensures v == w
    ensures var s := Reached(allow, events);
            var j := s.workers[v].claim.id;
            j < |s.jobs| && !s.jobs[j].status.Pending? && !s.jobs[j].status.Done? && s.workers[v].claim == ClaimOf(s.jobs, j)
  {
    InvReached(allow, events);
    var s := Reached(allow, events);
    assert WorkerOk(s, s.workers[v]);
    assert s.workers[v].Target() == s.workers[w].Target();
  }

  lemma AttemptsAreBounded(allow: set<string>, events: seq<Event>, j: nat)
    requires j < |Reached(allow, events).jobs|
    ensures Reached(allow, events).jobs[j].attempts <= 2
    ensures |Reached(allow, events).entries| == |Reached(allow, events).jobs|
    ensures Reached(allow, events).entries[j] <= 3
    ensures Reached(allow, events).jobs[j].status.Pending?
            ==> Reached(allow, events).entries[j] == Reached(allow, events).jobs[j].attempts
  {
    InvReached(allow, events);
    assert JobOk(Reached(allow, events).jobs[j], Reached(allow, events).entries[j]);
  }

  // ---- terminal rows ----

  predicate HeldByNobody(s: State, j: nat) {
    forall w | 0 <= w < |s.workers| :: s.workers[w].Target() != Some(j)
  }

  /** The steps with which a worker writes the outcome of the job it holds. */
  predicate Writes(s: State, e: Event, j: nat) {
    && (e.Complete? || e.Settle?)
    && IsHolding(s, e.w) && s.workers[e.w].claim.id == j
    && (e.Complete? ==> s.workers[e.w].phase.Returned?)
    && (e.Settle? ==> s.workers[e.w].phase.Raised?)
  }

  /** A finished row changes in exactly one way: it is failed and a worker that still holds it
      writes its own outcome. A done row is held by nobody, so nothing changes it. */
  lemma TerminalRowChanges(allow: set<string>, s: State, e: Event, j: nat)
    requires QueueInv(s) && j < |s.jobs| && s.jobs[j].Terminal()
    ensures Do(allow, s, e).jobs[j] != s.jobs[j] <==> Writes(s, e, j)
    ensures Writes(s, e, j) ==> s.jobs[j].status.Failed?
    ensures s.jobs[j].status.Done? ==> HeldByNobody(s, j)
  {
    forall w | 0 <= w < |s.workers| ensures s.workers[w].Target() == Some(j) ==> s.jobs[j].status.Failed? {
      assert WorkerOk(s, s.workers[w]);
    }
    if e.Commit? && e.w < |s.workers| {
      assert WorkerOk(s, s.workers[e.w]);
    }
  }

  lemma StaysFree(allow: set<string>, s: State, e: Event, j: nat)
    requires QueueInv(s) && j < |s.jobs| && s.jobs[j].Terminal() && HeldByNobody(s, j)
    ensures HeldByNobody(Do(allow, s, e), j) && Do(allow, s, e).jobs[j] == s.jobs[j]
  {
    TerminalRowChanges(allow, s, e, j);
    if Enabled(allow, s, e) {
      var s' := Effect(allow, s, e);
      forall w | 0 <= w < |s'.workers| ensures s'.workers[w].Target() != Some(j) {
        assert w < |s.workers| ==> s.workers[w].Target() != Some(j);
      }
    }
  }

  /** Once a row is finished and nobody holds it, it is final over every continuation. */
  lemma {:induction false} FinishedForGood(allow: set<string>, s: State, more: seq<Event>, j: nat)
    requires QueueInv(s) && j < |s.jobs| && s.jobs[j].Terminal() && HeldByNobody(s, j)
    ensures j < |Exec(allow, s, more).jobs| && Exec(allow, s, more).jobs[j] == s.jobs[j]
    ensures HeldByNobody(Exec(allow, s, more), j) && QueueInv(Exec(allow, s, more))
  {
    if more != [] {
      var n := |more| - 1;
      FinishedForGood(allow, s, more[..n], j);
      QueueStep(allow, Exec(allow, s, more[..n]), more[n]);
      StaysFree(allow, Exec(allow, s, more[..n]), more[n], j);
    }
  }

  /** In particular `done` is absorbing, whatever the orphan sweeps do. */
  lemma DoneIsForever(allow: set<string>, events: seq<Event>, more: seq<Event>, j: nat)
    requires j < |Reached(allow, events).jobs| && Reached(allow, events).jobs[j].status.Done?
    ensures j < |Reached(allow, events + more).jobs|
    ensures Reached(allow, events + more).jobs[j] == Reached(allow, events).jobs[j]
  {
    var s := Reached(allow, events);
    InvReached(allow, events);
    TerminalRowChanges(allow, s, StartWorker, j);
    FinishedForGood(allow, s, more, j);
    ExecConcat(allow, INITIAL, events, more);
  }
}
