/** What the status of a job says: over every run it is the mark of the last step that touched the row, and a row is
    done exactly when a worker whose handler had returned completed it. */
module PipelineOutcomes {
  import opened Wrappers
  import opened JobQueue
  import opened Approvals
  import opened Producers
  import opened Pipeline
  import opened PipelineSafety

  predicate Holds(s: State, w: nat, j: nat, phase: Phase) {
    w < |s.workers| && s.workers[w].Holding? && s.workers[w].claim.id == j && s.workers[w].phase == phase
  }

  // ---- one step, one row ----

  predicate Claims(s: State, e: Event, j: nat) { e.Commit? && e.w < |s.workers| && s.workers[e.w] == Selecting(j) }

  predicate Finishes(s: State, e: Event, j: nat) { e.Complete? && Holds(s, e.w, j, Returned) }

  predicate Settles(s: State, e: Event, j: nat) { e.Settle? && Holds(s, e.w, j, Raised) }

  /** Running for longer than the window of the sweep, or never stamped. */
  predicate Sweeps(s: State, e: Event, j: nat) {
    && e.Recover? && j < |s.jobs| && s.jobs[j].status == Running
    && (s.jobs[j].claimedAt == None || s.jobs[j].claimedAt.value < s.clock - e.staleAfter)
  }

  /** Every step, on every row: a claim stamps it, a completion makes it done, an exception sends it back twice and
      fails it the third time with a message, a sweep fails it as interrupted; nothing else touches it. */
  lemma RowStep(allow: set<string>, s: State, e: Event, j: nat)
    requires QueueInv(s) && j < |s.jobs|
    ensures j < |Do(allow, s, e).jobs|
    ensures var row, row' := s.jobs[j], Do(allow, s, e).jobs[j];
            if Claims(s, e, j) then row.status == Pending && row' == row.(status := Running, claimedAt := Some(s.clock))
            else if Finishes(s, e, j) then row' == row.(status := Done, error := None)
            else if Settles(s, e, j) then
              if row.attempts < 2 then row' == row.(status := Pending, attempts := row.attempts + 1)
              else row'.status == Failed && row' == row.(status := Failed, error := row'.error) && row'.error != None && row'.error != Some("")
            else if Sweeps(s, e, j) then row' == row.(status := Failed, error := Some("interrupted by restart"))
            else row' == row
  {
    if e.Commit? && e.w < |s.workers| && s.workers[e.w].Selecting? {
      assert WorkerOk(s, s.workers[e.w]);
    } else if e.Settle? && e.w < |s.workers| && s.workers[e.w].Holding? {
      assert WorkerOk(s, s.workers[e.w]);
    }
  }

  /** Every step, on every worker: what it does next, and only its own steps move it. */
  lemma WorkerStep(allow: set<string>, s: State, e: Event, w: nat)
    requires QueueInv(s) && w < |s.workers|
    ensures w < |Do(allow, s, e).workers|
    ensures var old_, new_ := s.workers[w], Do(allow, s, e).workers[w];
            if e == Crash(w) then new_ == Dead
            else if old_.Selecting? && e == Commit(w) then
              new_ == Holding(Claim(old_.job, s.jobs[old_.job].kind, s.jobs[old_.job].args, s.jobs[old_.job].userId, s.jobs[old_.job].attempts), Picked)
            else if old_.Holding? && old_.phase == Picked && e == Enter(w) then new_ == old_.(phase := InHandler(false))
            else if old_.Holding? && old_.phase == InHandler(false) && e.Ask? && e.w == w && HandlerOutcome(allow, old_.claim, e.world).Awaiting? then
              new_ == old_.(phase := InHandler(true))
            else if old_.Holding? && old_.phase.InHandler? && e == Return(w) then new_ == old_.(phase := Returned)
            else if old_.Holding? && old_.phase.InHandler? && e == Raise(w) then new_ == old_.(phase := Raised)
            else if old_.Holding? && old_.phase == Returned && e == Complete(w) then new_ == Idle
            else if old_.Holding? && old_.phase == Returned && e == CompleteRaises(w) then new_ == old_.(phase := Raised)
            else if old_.Holding? && old_.phase == Raised && e == Settle(w) then new_ == Idle
            else new_ == old_ || (old_ == Idle && e == Select(w) && new_.Selecting?)
  {
    assert WorkerOk(s, s.workers[w]);
  }

  /** A holder has an exact copy of what its row was enqueued with and how often it was retried. */
  lemma HolderSeesRow(allow: set<string>, events: seq<Event>, w: nat)
    requires w < |Reached(allow, events).workers| && Reached(allow, events).workers[w].Holding?
    ensures var s := Reached(allow, events);
            var claim := s.workers[w].claim;
            && claim.id < |s.jobs|
            && claim.kind == s.jobs[claim.id].kind && claim.args == s.jobs[claim.id].args
            && claim.userId == s.jobs[claim.id].userId && claim.attempts == s.jobs[claim.id].attempts
  {
    InvReached(allow, events);
    assert WorkerOk(Reached(allow, events), Reached(allow, events).workers[w]);
  }

  /** A row that is pending under the same key, which is not empty. */
  predicate PendingUnder(jobs: seq<Job>, key: Option<string>) {
    key.Some? && key.value != "" && exists j | 0 <= j < |jobs| :: jobs[j].status == Pending && jobs[j].dedupKey == key
  }

  /** Enqueueing adds one pending, untried row with what was asked for, unless its key is pending. */
  lemma EnqueueAdds(allow: set<string>, s: State, kind: string, args: Args, userId: string, key: Option<string>)
    requires kind != "implement"
    ensures Do(allow, s, Enqueue(kind, args, userId, key)).jobs ==
              if PendingUnder(s.jobs, key) then s.jobs else s.jobs + [Job(kind, args, userId, Pending, 0, key, None, None)]
  {
  }

  /** A worker that is free selects the first pending row that no other worker is selecting, if there is one. */
  predicate UpForSelection(s: State, j: nat) {
    j < |s.jobs| && s.jobs[j].status == Pending && forall v | 0 <= v < |s.workers| :: s.workers[v] != Selecting(j)
  }

  lemma SelectsTheOldest(allow: set<string>, s: State, w: nat)
    requires w < |s.workers| && s.workers[w] == Idle
    ensures var t := Do(allow, s, Select(w)).workers[w];
            && (t == Idle <==> forall j: nat :: !UpForSelection(s, j))
            && (t != Idle ==> t.Selecting? && UpForSelection(s, t.job) && forall j: nat :: j < t.job ==> !UpForSelection(s, j))
  {
    var next := NextPending(s.jobs, LockedRows(s), 0);
    forall j: nat | j < |s.jobs| && s.jobs[j].status.Pending? ensures j in LockedRows(s) <==> !UpForSelection(s, j) {
      if v :| 0 <= v < |s.workers| && s.workers[v] == Selecting(j) {
        assert s.workers[v].job in LockedRows(s);
      }
    }
  }

  /** The rows that have been running for too long. */
  function TooLong(rows: seq<Job>, cutoff: real): set<nat> {
    set j: nat | j < |rows| && rows[j].status == Running && (rows[j].claimedAt == None || rows[j].claimedAt.value < cutoff)
  }

  /** What a sweep reports is how many rows ran too long. */
  lemma {:induction false} SweepCounts(rows: seq<Job>, cutoff: real)
    ensures StaleCount(rows, cutoff) == |TooLong(rows, cutoff)|
  {
    if rows != [] {
      var n: nat := |rows| - 1;
      SweepCounts(rows[..n], cutoff);
      assert TooLong(rows, cutoff) == TooLong(rows[..n], cutoff) + if rows[n].Stale(cutoff) then {n} else {};
    }
  }

  // ---- over runs ----

  /** What a step does to a row, if it touches it. */
  datatype Mark = Queued | Claimed | Succeeded | SentBack | GaveUp | Interrupted

  function MarkOf(s: State, e: Event, j: nat): Option<Mark> {
    if Claims(s, e, j) then Some(Mark.Claimed)
    else if Finishes(s, e, j) then Some(Succeeded)
    else if Settles(s, e, j) && j < |s.jobs| then Some(if s.jobs[j].attempts < 2 then SentBack else GaveUp)
    else if Sweeps(s, e, j) then Some(Interrupted)
    else None
  }

  /** The last mark of a row along a run; a row starts out queued. */
  function LastMark(allow: set<string>, events: seq<Event>, j: nat): Mark {
    if events == [] then Queued
    else
      var before := events[..|events| - 1];
      MarkOf(Reached(allow, before), events[|events| - 1], j).GetOr(LastMark(allow, before, j))
  }

  predicate Agrees(row: Job, mark: Mark) {
    match row.status
    case Pending => mark in {Queued, SentBack}
    case Running => mark == Mark.Claimed
    case Done => mark == Succeeded && row.error == None
    case Failed =>
      || (mark == GaveUp && row.error != None && row.error != Some("") && row.attempts == 2)
      || (mark == Interrupted && row.error == Some("interrupted by restart"))
  }

  lemma MarksNewRow(allow: set<string>, s: State, e: Event, j: nat)
    requires QueueInv(s) && |s.jobs| <= j < |Do(allow, s, e).jobs|
    ensures Do(allow, s, e).jobs[j].status == Pending
  {
  }

  lemma {:induction false} UnbornHasNoMark(allow: set<string>, events: seq<Event>, j: nat)
    requires j >= |Reached(allow, events).jobs|
    ensures LastMark(allow, events, j) == Queued
  {
    if events != [] {
      var before, e := events[..|events| - 1], events[|events| - 1];
      var s := Reached(allow, before);
      InvReached(allow, before);
      StepKeepsRows(allow, s, e);
      UnbornHasNoMark(allow, before, j);
      NoMark(s, e, j);
    }
  }

  lemma NoMark(s: State, e: Event, j: nat)
    requires QueueInv(s) && j >= |s.jobs|
    ensures MarkOf(s, e, j) == None
  {
    if (e.Commit? || e.Complete? || e.Settle?) && e.w < |s.workers| {
      assert WorkerOk(s, s.workers[e.w]);
    }
  }

  lemma MarkStep(allow: set<string>, s: State, e: Event, j: nat, mark: Mark)
    requires QueueInv(s) && j < |s.jobs| && Agrees(s.jobs[j], mark)
    ensures j < |Do(allow, s, e).jobs| && Agrees(Do(allow, s, e).jobs[j], MarkOf(s, e, j).GetOr(mark))
  {
    RowStep(allow, s, e, j);
    assert JobOk(s.jobs[j], s.entries[j]);
  }

  /** In every reachable state a row is pending, running, done or failed as the last step that touched it left it:
      done without an error after a completion, failed with one after the third exception or a sweep. */
  lemma {:induction false} StatusIsLastMark(allow: set<string>, events: seq<Event>, j: nat)
    requires j < |Reached(allow, events).jobs|
    ensures Agrees(Reached(allow, events).jobs[j], LastMark(allow, events, j))
  {
    var before, e := events[..|events| - 1], events[|events| - 1];
    var s := Reached(allow, before);
    InvReached(allow, before);
    if j < |s.jobs| {
      StatusIsLastMark(allow, before, j);
      MarkStep(allow, s, e, j, LastMark(allow, before, j));
    } else {
      UnbornHasNoMark(allow, before, j);
      NoMark(s, e, j);
      MarksNewRow(allow, s, e, j);
    }
  }

  /** The last step that moved a worker's phase. */
  function LastMove(allow: set<string>, events: seq<Event>, w: nat): Option<Event> {
    if events == [] then None
    else
      var before, e := events[..|events| - 1], events[|events| - 1];
      if Moves(e, w) && Enabled(allow, Reached(allow, before), e) then Some(e) else LastMove(allow, before, w)
  }

  predicate Moves(e: Event, w: nat) {
    || e in {Select(w), Commit(w), Enter(w), Return(w), Raise(w), Complete(w), CompleteRaises(w), Settle(w), Crash(w)}
    || (e.Ask? && e.w == w)
  }

  /** A worker stands where its last step has put it; in particular a holder is about to complete exactly when its
      handler has come back, and about to settle exactly when the handler or complete() has raised. */
  lemma {:induction false} PhaseIsLastMove(allow: set<string>, events: seq<Event>, w: nat)
    requires w < |Reached(allow, events).workers| && Reached(allow, events).workers[w].Holding?
    ensures var phase, last := Reached(allow, events).workers[w].phase, LastMove(allow, events, w);
            && (phase == Picked <==> last == Some(Commit(w)))
            && (phase == Returned <==> last == Some(Return(w)))
            && (phase == Raised <==> last in {Some(Raise(w)), Some(CompleteRaises(w))})
  {
    var before, e := events[..|events| - 1], events[|events| - 1];
    if !(Moves(e, w) && Enabled(allow, Reached(allow, before), e)) {
      PhaseIsLastMove(allow, before, w);
    }
  }

  /** Step k completes job j, and the last thing its worker did was to come back from the handler. */
  ghost predicate CompletedAt(allow: set<string>, events: seq<Event>, k: nat, j: nat)
    requires k < |events|
  {
    Finishes(Reached(allow, events[..k]), events[k], j) && LastMove(allow, events[..k], events[k].w) == Some(Return(events[k].w))
  }

  lemma CompletedEarlier(allow: set<string>, events: seq<Event>, k: nat, j: nat)
    requires events != [] && k < |events| - 1
    ensures CompletedAt(allow, events, k, j) <==> CompletedAt(allow, events[..|events| - 1], k, j)
  {
    var before := events[..|events| - 1];
    assert before[..k] == events[..k] && before[k] == events[k];
  }

  lemma CompletedLast(allow: set<string>, events: seq<Event>, j: nat)
    requires events != []
    ensures CompletedAt(allow, events, |events| - 1, j)
       <==> Finishes(Reached(allow, events[..|events| - 1]), events[|events| - 1], j)
  {
    var before, e := events[..|events| - 1], events[|events| - 1];
    if Finishes(Reached(allow, before), e, j) {
      PhaseIsLastMove(allow, before, e.w);
    }
  }

  lemma {:induction false} SucceededSomewhere(allow: set<string>, events: seq<Event>, j: nat)
    requires LastMark(allow, events, j) == Succeeded
    ensures exists k | 0 <= k < |events| :: CompletedAt(allow, events, k, j)
  {
    var n := |events| - 1;
    if Finishes(Reached(allow, events[..n]), events[n], j) {
      CompletedLast(allow, events, j);
    } else {
      SucceededSomewhere(allow, events[..n], j);
      var k :| 0 <= k < n && CompletedAt(allow, events[..n], k, j);
      CompletedEarlier(allow, events, k, j);
    }
  }

  lemma CompletionLasts(allow: set<string>, events: seq<Event>, k: nat, j: nat)
    requires k < |events| && CompletedAt(allow, events, k, j)
    ensures j < |Reached(allow, events).jobs| && Reached(allow, events).jobs[j].status == Done
  {
    var s, upTo := Reached(allow, events[..k]), events[..k + 1];
    InvReached(allow, events[..k]);
    assert WorkerOk(s, s.workers[events[k].w]);
    RowStep(allow, s, events[k], j);
    assert upTo[..|upTo| - 1] == events[..k];
    DoneIsForever(allow, upTo, events[k + 1..], j);
    assert upTo + events[k + 1..] == events;
  }

  /** A row is done exactly when some worker has completed it right after its handler came back. */
  lemma DoneExactly(allow: set<string>, events: seq<Event>, j: nat)
    requires j < |Reached(allow, events).jobs|
    ensures Reached(allow, events).jobs[j].status == Done <==> exists k | 0 <= k < |events| :: CompletedAt(allow, events, k, j)
  {
    StatusIsLastMark(allow, events, j);
    if Reached(allow, events).jobs[j].status == Done {
      SucceededSomewhere(allow, events, j);
    } else if k :| 0 <= k < |events| && CompletedAt(allow, events, k, j) {
      CompletionLasts(allow, events, k, j);
    }
  }
}
