/** What becomes of an approval: over every run an approved buildable row has its one implement job, or the click
    that approved it is still on its way, or its dispatch was lost in one of two ways. */
module PipelineDispatch {
  import opened Wrappers
  import opened JobQueue
  import opened Approvals
  import opened Producers
  import opened Pipeline
  import opened PipelineSafety

  /** A click has approved `a` and not enqueued its job yet. */
  predicate InFlight(clicks: seq<Click>, a: nat) {
    exists c | 0 <= c < |clicks| :: clicks[c].Dispatching() == Some(a)
  }

  /** The key of the implement job of `a` is pending, so an insert adds nothing. */
  predicate KeyTaken(s: State, a: nat) { FindDuplicate(s.jobs, Some(ImplementKey(a))).Some? }

  /** The process of the click dies between decide and enqueue. */
  predicate Dies(s: State, e: Event, a: nat) {
    e.Abandon? && e.c < |s.clicks| && s.clicks[e.c].Dispatching() == Some(a)
  }

  /** The click enqueues while a job of another kind is pending under the same key. */
  predicate Collides(s: State, e: Event, a: nat) {
    e.Insert? && e.c < |s.clicks| && s.clicks[e.c].Fetched? && s.clicks[e.c].id == a && KeyTaken(s, a)
  }

  predicate Loses(s: State, e: Event, a: nat) { Dies(s, e, a) || Collides(s, e, a) }

  predicate Lost(allow: set<string>, events: seq<Event>, a: nat) {
    events != [] &&
    var before, last := events[..|events| - 1], events[|events| - 1];
    Lost(allow, before, a) || Loses(Reached(allow, before), last, a)
  }

  /** Of the three fates exactly one. */
  predicate OneFate(s: State, a: nat, lost: bool) {
    && (InFlight(s.clicks, a) || lost || JobsFor(s.jobs, a) != {})
    && (InFlight(s.clicks, a) ==> !lost && JobsFor(s.jobs, a) == {})
    && (lost ==> JobsFor(s.jobs, a) == {})
  }

  ghost predicate FateOk(s: State, a: nat, lost: bool) {
    && (Dispatchable(s.approvals, a) ==> OneFate(s, a, lost))
    && (lost ==> a < |s.approvals| && !s.approvals[a].status.Undecided?)
  }

  // ---- clicks and jobs ----

  lemma ClickMoves(s: State, c: nat, click: Click, a: nat)
    requires ApartClicks(s) && c < |s.clicks|
    ensures InFlight(s.clicks[c := click], a) <==>
              click.Dispatching() == Some(a) || (InFlight(s.clicks, a) && s.clicks[c].Dispatching() != Some(a))
  {
    var clicks := s.clicks[c := click];
    assert clicks[c] == click;
    if d :| 0 <= d < |s.clicks| && s.clicks[d].Dispatching() == Some(a) {
      assert d != c ==> clicks[d] == s.clicks[d];
    }
    if d :| 0 <= d < |clicks| && clicks[d].Dispatching() == Some(a) {
      assert d != c ==> s.clicks[d].Dispatching() == Some(a);
    }
  }

  lemma ClickComes(clicks: seq<Click>, click: Click, a: nat)
    ensures InFlight(clicks + [click], a) <==> click.Dispatching() == Some(a) || InFlight(clicks, a)
  {
    var more := clicks + [click];
    assert more[|clicks|] == click;
    if d :| 0 <= d < |clicks| && clicks[d].Dispatching() == Some(a) {
      assert more[d] == clicks[d];
    }
  }

  lemma NoJobs(jobs: seq<Job>, a: nat)
    ensures JobsFor(jobs, a) == {} <==> NoJobFor(jobs, a)
  {
    if j :| 0 <= j < |jobs| && jobs[j].kind == "implement" && jobs[j].dedupKey == Some(ImplementKey(a)) {
      assert j in JobsFor(jobs, a);
    }
  }

  /** Jobs keep their kind and key, and no new one is an implement job. */
  lemma JobsSame(jobs: seq<Job>, jobs': seq<Job>, a: nat)
    requires JobsKept(jobs, jobs') && forall j | |jobs| <= j < |jobs'| :: jobs'[j].kind != "implement"
    ensures JobsFor(jobs', a) == JobsFor(jobs, a)
  {
    forall j | 0 <= j < |jobs| ensures j in JobsFor(jobs', a) <==> j in JobsFor(jobs, a) {
      assert SameJob(jobs[j], jobs'[j]);
    }
  }

  lemma InFlightIsOpen(allow: set<string>, s: State, a: nat)
    requires GateInv(allow, s) && InFlight(s.clicks, a)
    ensures a < |s.approvals| && s.approvals[a].status.Approved? && JobsFor(s.jobs, a) == {}
  {
    var c :| 0 <= c < |s.clicks| && s.clicks[c].Dispatching() == Some(a);
    assert ClickOk(s, s.clicks[c]);
    NoJobs(s.jobs, a);
  }

  // ---- steps ----

  /** Steps that touch no click: the row of `a`, if it is decided, and its jobs stay. */
  lemma FateFrame(s: State, s': State, a: nat, lost: bool)
    requires FateOk(s, a, lost) && RowsKept(s.approvals, s'.approvals)
    requires s'.clicks == s.clicks && JobsFor(s'.jobs, a) == JobsFor(s.jobs, a)
    requires forall b | 0 <= b < |s'.approvals| :: s'.approvals[b].status.Undecided? || (b < |s.approvals| && s'.approvals[b] == s.approvals[b])
    ensures FateOk(s', a, lost)
  {
    if a < |s.approvals| {
      assert RowKept(s.approvals[a], s'.approvals[a]);
    }
  }

  lemma FateElsewhere(allow: set<string>, s: State, e: Event, a: nat, lost: bool)
    requires Inv(allow, s) && FateOk(s, a, lost) && Enabled(allow, s, e)
    requires !(e.SlackDecide? || e.ConsoleRead? || e.ConsoleDecide? || e.Fetch? || e.Insert? || e.Abandon?)
    ensures FateOk(Effect(allow, s, e), a, lost)
  {
    var s' := Effect(allow, s, e);
    StepKeepsRows(allow, s, e);
    JobsSame(s.jobs, s'.jobs, a);
    if e.Ask? {
      ProducersEnforceAllowlist(allow, s.workers[e.w].claim, e.world);
    }
    FateFrame(s, s', a, lost);
  }

  /** A row just decided: nothing was on its way before, and an approval of a buildable row sends its click. */
  lemma FateDecided(allow: set<string>, s: State, s': State, b: nat, approve: bool, who: string, a: nat, lost: bool)
    requires Inv(allow, s) && FateOk(s, a, lost)
    requires s'.approvals == Decided(s.approvals, b, approve, who) && s'.jobs == s.jobs
    requires a != b || !Flips(s.approvals, b) ==> (InFlight(s'.clicks, a) <==> InFlight(s.clicks, a))
    requires a == b && Flips(s.approvals, b) && approve && s.approvals[b].Buildable() ==> InFlight(s'.clicks, a)
    ensures FateOk(s', a, lost)
  {
    if a == b && Flips(s.approvals, a) {
      OpenHasNothing(allow, s, a);
      NoJobs(s.jobs, a);
    }
  }

  lemma FateSlack(allow: set<string>, s: State, e: Event, a: nat, lost: bool)
    requires Inv(allow, s) && FateOk(s, a, lost) && e.SlackDecide?
    ensures FateOk(Effect(allow, s, e), a, lost)
  {
    ClickComes(s.clicks, Won(e.id), a);
    FateDecided(allow, s, Effect(allow, s, e), e.id, e.approve, e.who, a, lost);
  }

  lemma FateConsole(allow: set<string>, s: State, e: Event, a: nat, lost: bool)
    requires Inv(allow, s) && FateOk(s, a, lost) && Enabled(allow, s, e) && e.ConsoleDecide?
    ensures FateOk(Effect(allow, s, e), a, lost)
  {
    var click, s' := s.clicks[e.c], Effect(allow, s, e);
    assert ClickOk(s, click);
    ClickMoves(s, e.c, s'.clicks[e.c], a);
    FateDecided(allow, s, s', click.id, click.approve, click.who, a, lost);
  }

  lemma FateRead(allow: set<string>, s: State, e: Event, a: nat, lost: bool)
    requires Inv(allow, s) && FateOk(s, a, lost) && Enabled(allow, s, e) && (e.ConsoleRead? || e.Fetch?)
    ensures FateOk(Effect(allow, s, e), a, lost)
  {
    var s' := Effect(allow, s, e);
    if e.ConsoleRead? {
      ClickComes(s.clicks, s'.clicks[|s.clicks|], a);
    } else {
      ClickMoves(s, e.c, s'.clicks[e.c], a);
    }
  }

  lemma FateAbandon(allow: set<string>, s: State, e: Event, a: nat, lost: bool)
    requires Inv(allow, s) && FateOk(s, a, lost) && Enabled(allow, s, e) && e.Abandon?
    ensures FateOk(Effect(allow, s, e), a, lost || Loses(s, e, a))
  {
    ClickMoves(s, e.c, Over, a);
    if Loses(s, e, a) {
      InFlightIsOpen(allow, s, a);
    }
  }

  /** An insert adds the job of its own approval unless the key is taken, and no other approval's. */
  lemma InsertedJobs(allow: set<string>, s: State, c: nat, a: nat)
    requires GateInv(allow, s) && Enabled(allow, s, Insert(c))
    ensures var s' := Effect(allow, s, Insert(c));
            && (s.clicks[c].id != a || KeyTaken(s, a) ==> JobsFor(s'.jobs, a) == JobsFor(s.jobs, a))
            && (s.clicks[c].id == a && !KeyTaken(s, a) ==> JobsFor(s'.jobs, a) != {})
  {
    var click := s.clicks[c];
    if ImplementKey(a) == ImplementKey(click.id) {
      ImplementKeyInjective(a, click.id);
    }
    EnqueuedFor(s.jobs, click.args, click.userId, click.id, a);
  }

  lemma EnqueuedFor(jobs: seq<Job>, args: Args, userId: string, b: nat, a: nat)
    requires ImplementKey(a) == ImplementKey(b) ==> a == b
    ensures var jobs' := Enqueued(jobs, "implement", args, userId, Some(ImplementKey(b)));
            && (a != b || FindDuplicate(jobs, Some(ImplementKey(b))).Some? ==> JobsFor(jobs', a) == JobsFor(jobs, a))
            && (a == b && FindDuplicate(jobs, Some(ImplementKey(b))).None? ==> JobsFor(jobs', a) != {})
  {
    var jobs' := Enqueued(jobs, "implement", args, userId, Some(ImplementKey(b)));
    if FindDuplicate(jobs, Some(ImplementKey(b))).None? {
      var job := NewJob("implement", args, userId, Some(ImplementKey(b)));
      assert jobs' == jobs + [job] && jobs'[|jobs|] == job;
      if a == b {
        assert |jobs| in JobsFor(jobs', a);
      } else {
        forall j ensures j in JobsFor(jobs', a) <==> j in JobsFor(jobs, a) {
          assert 0 <= j < |jobs| ==> jobs'[j] == jobs[j];
          assert j == |jobs| ==> jobs'[j].dedupKey.value != ImplementKey(a);
        }
      }
    }
  }

  lemma FateInsert(allow: set<string>, s: State, e: Event, a: nat, lost: bool)
    requires Inv(allow, s) && FateOk(s, a, lost) && Enabled(allow, s, e) && e.Insert?
    ensures FateOk(Effect(allow, s, e), a, lost || Loses(s, e, a))
  {
    ClickMoves(s, e.c, Over, a);
    InsertedJobs(allow, s, e.c, a);
    if s.clicks[e.c].id == a {
      assert s.clicks[e.c].Dispatching() == Some(a);
      InFlightIsOpen(allow, s, a);
    }
  }

  lemma FateClick(allow: set<string>, s: State, e: Event, a: nat, lost: bool)
    requires Inv(allow, s) && FateOk(s, a, lost) && Enabled(allow, s, e)
    requires e.SlackDecide? || e.ConsoleRead? || e.ConsoleDecide? || e.Fetch?
    ensures FateOk(Effect(allow, s, e), a, lost)
  {
    if e.SlackDecide? {
      FateSlack(allow, s, e, a, lost);
    } else if e.ConsoleDecide? {
      FateConsole(allow, s, e, a, lost);
    } else {
      FateRead(allow, s, e, a, lost);
    }
  }

  lemma FateStep(allow: set<string>, s: State, e: Event, a: nat, lost: bool)
    requires Inv(allow, s) && FateOk(s, a, lost)
    ensures FateOk(Do(allow, s, e), a, lost || Loses(s, e, a))
  {
    if Enabled(allow, s, e) {
      if e.Insert? {
        FateInsert(allow, s, e, a, lost);
      } else if e.Abandon? {
        FateAbandon(allow, s, e, a, lost);
      } else if e.SlackDecide? || e.ConsoleRead? || e.ConsoleDecide? || e.Fetch? {
        FateClick(allow, s, e, a, lost);
      } else {
        FateElsewhere(allow, s, e, a, lost);
      }
    }
  }

  lemma {:induction false} FateReached(allow: set<string>, events: seq<Event>, a: nat)
    ensures FateOk(Reached(allow, events), a, Lost(allow, events, a))
  {
    if events != [] {
      var n := |events| - 1;
      FateReached(allow, events[..n], a);
      InvReached(allow, events[..n]);
      FateStep(allow, Reached(allow, events[..n]), events[n], a, Lost(allow, events[..n], a));
    }
  }

  // ---- the results ----

  /** Over every run an approved buildable row has exactly one implement job, unless the click that approved it is
      still in flight or its dispatch was lost; and of the three exactly one is the case. */
  lemma ApprovedIsDispatched(allow: set<string>, events: seq<Event>, a: nat)
    requires Dispatchable(Reached(allow, events).approvals, a)
    ensures var s := Reached(allow, events);
            && OneFate(s, a, Lost(allow, events, a))
            && (|JobsFor(s.jobs, a)| == 1 <==> !InFlight(s.clicks, a) && !Lost(allow, events, a))
  {
    FateReached(allow, events, a);
    AtMostOneImplementJob(allow, events, a);
    assert |JobsFor(Reached(allow, events).jobs, a)| == 0 <==> JobsFor(Reached(allow, events).jobs, a) == {};
  }

  lemma {:induction false} LostStays(allow: set<string>, events: seq<Event>, more: seq<Event>, a: nat)
    requires Lost(allow, events, a)
    ensures Lost(allow, events + more, a)
  {
    if more == [] {
      assert events + more == events;
    } else {
      LostStays(allow, events, more[..|more| - 1], a);
      assert (events + more)[..|events + more| - 1] == events + more[..|more| - 1];
    }
  }

  /** A lost dispatch is never made good: the row stays approved, and no later click can dispatch it. */
  lemma LostForGood(allow: set<string>, events: seq<Event>, more: seq<Event>, a: nat)
    requires Dispatchable(Reached(allow, events).approvals, a) && Lost(allow, events, a)
    ensures Dispatchable(Reached(allow, events + more).approvals, a)
    ensures JobsFor(Reached(allow, events + more).jobs, a) == {} && !InFlight(Reached(allow, events + more).clicks, a)
  {
    var s := Reached(allow, events);
    InvReached(allow, events);
    RequestsAreFrozen(allow, s, more);
    ExecConcat(allow, INITIAL, events, more);
    assert RowKept(s.approvals[a], Exec(allow, s, more).approvals[a]);
    LostStays(allow, events, more, a);
    FateReached(allow, events + more, a);
  }

  /** A click in flight can always finish: its next one or two steps enqueue the job unless the key is taken. */
  lemma InFlightFinishes(allow: set<string>, events: seq<Event>, c: nat, a: nat)
    requires Dispatchable(Reached(allow, events).approvals, a)
    requires c < |Reached(allow, events).clicks| && Reached(allow, events).clicks[c].Dispatching() == Some(a)
    ensures var s := Do(allow, Do(allow, Reached(allow, events), Fetch(c)), Insert(c));
            JobsFor(s.jobs, a) != {} <==> !KeyTaken(Reached(allow, events), a)
  {
    var s := Reached(allow, events);
    InvReached(allow, events);
    InFlightIsOpen(allow, s, a);
    var fetched := Do(allow, s, Fetch(c));
    InvStep(allow, s, Fetch(c));
    assert fetched.jobs == s.jobs && fetched.clicks[c].Fetched? && fetched.clicks[c].id == a;
    InsertedJobs(allow, fetched, c, a);
  }

  lemma LostAt(allow: set<string>, events: seq<Event>, e: Event, a: nat)
    ensures Lost(allow, events + [e], a) <==> Lost(allow, events, a) || Loses(Reached(allow, events), e, a)
  {
    assert (events + [e])[..|events|] == events;
  }

  lemma KeyIsTaken(jobs: seq<Job>, kind: string, args: Args, userId: string, a: nat)
    ensures FindDuplicate(Enqueued(jobs, kind, args, userId, Some(ImplementKey(a))), Some(ImplementKey(a))).Some?
  {
    var jobs' := Enqueued(jobs, kind, args, userId, Some(ImplementKey(a)));
    if FindDuplicate(jobs, Some(ImplementKey(a))).None? {
      assert Duplicate(jobs'[|jobs|], Some(ImplementKey(a)));
    }
  }

  /** And it can be lost at any time, in both ways. */
  lemma InFlightCanBeLost(allow: set<string>, events: seq<Event>, c: nat, a: nat, kind: string, args: Args, userId: string)
    requires Dispatchable(Reached(allow, events).approvals, a) && kind != "implement"
    requires c < |Reached(allow, events).clicks| && Reached(allow, events).clicks[c].Dispatching() == Some(a)
    ensures Lost(allow, events + [Abandon(c)], a)
    ensures Lost(allow, events + [Enqueue(kind, args, userId, Some(ImplementKey(a)))] + [Fetch(c)] + [Insert(c)], a)
  {
    LostAt(allow, events, Abandon(c), a);
    var taken := events + [Enqueue(kind, args, userId, Some(ImplementKey(a)))];
    Then(allow, events, Enqueue(kind, args, userId, Some(ImplementKey(a))));
    KeyIsTaken(Reached(allow, events).jobs, kind, args, userId, a);
    Then(allow, taken, Fetch(c));
    LostAt(allow, taken + [Fetch(c)], Insert(c), a);
  }

  /** Nobody else uses the key of `a`. */
  predicate KeyReserved(events: seq<Event>, a: nat) {
    forall e | e in events :: e.Enqueue? ==> e.key != Some(ImplementKey(a))
  }

  /** Only implement jobs carry the key of `a`. */
  ghost predicate OwnKind(jobs: seq<Job>, a: nat) {
    forall j | 0 <= j < |jobs| :: jobs[j].dedupKey == Some(ImplementKey(a)) ==> jobs[j].kind == "implement"
  }

  lemma OwnKindStep(allow: set<string>, s: State, e: Event, a: nat)
    requires QueueInv(s) && OwnKind(s.jobs, a) && (e.Enqueue? ==> e.key != Some(ImplementKey(a)))
    ensures OwnKind(Do(allow, s, e).jobs, a)
  {
    StepKeepsRows(allow, s, e);
    var jobs := Do(allow, s, e).jobs;
    forall j | 0 <= j < |s.jobs| && jobs[j].dedupKey == Some(ImplementKey(a)) ensures jobs[j].kind == "implement" {
      assert SameJob(s.jobs[j], jobs[j]);
    }
  }

  lemma {:induction false} ReservedKeys(allow: set<string>, events: seq<Event>, a: nat)
    requires KeyReserved(events, a)
    ensures OwnKind(Reached(allow, events).jobs, a)
  {
    if events != [] {
      var n := |events| - 1;
      ReservedKeys(allow, events[..n], a);
      InvReached(allow, events[..n]);
      OwnKindStep(allow, Reached(allow, events[..n]), events[n], a);
    }
  }

  lemma NoCollision(allow: set<string>, s: State, c: nat, a: nat)
    requires GateInv(allow, s) && c < |s.clicks| && s.clicks[c].Fetched? && s.clicks[c].id == a
    requires OwnKind(s.jobs, a)
    ensures !KeyTaken(s, a)
  {
    assert ClickOk(s, s.clicks[c]);
    assert forall j | 0 <= j < |s.jobs| :: !Duplicate(s.jobs[j], Some(ImplementKey(a)));
  }

  predicate Died(allow: set<string>, events: seq<Event>, a: nat) {
    events != [] &&
    var before, last := events[..|events| - 1], events[|events| - 1];
    Died(allow, before, a) || Dies(Reached(allow, before), last, a)
  }

  /** In the repository no other caller passes a key; then only the death of its click loses a dispatch. */
  lemma {:induction false} OnlyDeathLoses(allow: set<string>, events: seq<Event>, a: nat)
    requires KeyReserved(events, a)
    ensures Lost(allow, events, a) <==> Died(allow, events, a)
  {
    if events != [] {
      var n := |events| - 1;
      var s := Reached(allow, events[..n]);
      OnlyDeathLoses(allow, events[..n], a);
      InvReached(allow, events[..n]);
      ReservedKeys(allow, events[..n], a);
      if events[n].Insert? && events[n].c < |s.clicks| && s.clicks[events[n].c].Fetched? && s.clicks[events[n].c].id == a {
        NoCollision(allow, s, events[n].c, a);
      }
    }
  }
}
