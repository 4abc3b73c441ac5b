/** The approval gate, the job queue and its workers as one transition system.

    Any number of workers, Slack clicks and console clicks run at once over the two tables.
    A step is one committed transaction or one local move of a process; steps of different
    processes interleave freely, and a process may stop for good between any two of its steps.
    An event that is not enabled leaves the state as it is, so a run is any list of events. */
module Pipeline {
  import opened Wrappers
  import opened JobQueue
  import opened Approvals
  import opened Producers

  /** Where worker_main stands with the job it has claimed. */
  datatype Phase =
    | Picked                     // claim_one has committed
    | InHandler(asked: bool)     // inside handler(job); whether its approval row is written
    | Returned                   // the handler came back, complete() is next
    | Raised                     // an exception was caught, requeue() or complete(error) is next

  datatype Worker =
    | Idle
    | Selecting(job: nat)        // claim_one holds the row lock and has not committed yet
    | Holding(claim: Claim, phase: Phase)
    | Dead
  {
    function Target(): Option<nat> {
      match this
      case Selecting(j) => Some(j)
      case Holding(c, _) => Some(c.id)
      case _ => None
    }
  }

  /** One admin's click on its way through the Slack or the console handler. */
  datatype Click =
    | ConsoleSaw(id: nat, buildable: bool, approve: bool, who: string)   // get_request said pending
    | Won(id: nat)                                        // its decide() approved the row
    | Fetched(id: nat, args: Args, userId: string)        // dispatch read the row, enqueue is next
    | Over
  {
    /** The approval whose job this click is about to enqueue. */
    function Dispatching(): Option<nat> {
      match this
      case Won(a) => Some(a)
      case Fetched(a, _, _) => Some(a)
      case _ => None
    }
  }

  /** One `decide` call that returned True. */
  datatype Flip = Flip(id: nat, approve: bool, who: string)

  /** `entries` (how often the handler was entered for each job) and `flips` are history:
      steps append to them and never read them. */
  datatype State = State(
    jobs: seq<Job>, approvals: seq<Approval>, workers: seq<Worker>, clicks: seq<Click>,
    clock: real, entries: seq<nat>, flips: seq<Flip>)

  const INITIAL := State([], [], [], [], 0.0, [], [])

  datatype Event =
    | StartWorker
    | Tick(dt: real)
    | Enqueue(kind: string, args: Args, userId: string, key: Option<string>)   // every caller but dispatch
    | Recover(staleAfter: real)
    | Select(w: nat)
    | Commit(w: nat)
    | Enter(w: nat)
    | Ask(w: nat, world: World)       // the handler writes its approval row
    | Return(w: nat)
    | Raise(w: nat)
    | Complete(w: nat)
    | CompleteRaises(w: nat)          // complete() is inside the same try as the handler
    | Settle(w: nat)                  // requeue, or complete(error) after the last attempt
    | Crash(w: nat)
    | AskOther(userId: string, system: string, summary: string, payload: Option<Args>)   // api:* requests
    | SlackDecide(id: nat, approve: bool, who: string)
    | ConsoleRead(id: nat, approve: bool, who: string)
    | ConsoleDecide(c: nat)
    | Fetch(c: nat)
    | Insert(c: nat)
    | Abandon(c: nat)

  function LockedRows(s: State): set<nat> {
    set w | 0 <= w < |s.workers| && s.workers[w].Selecting? :: s.workers[w].job
  }

  predicate IsHolding(s: State, w: nat) { w < |s.workers| && s.workers[w].Holding? }

  predicate Enabled(allow: set<string>, s: State, e: Event) {
    match e
    case StartWorker => true
    case Tick(dt) => dt >= 0.0
    case Enqueue(kind, _, _, _) => kind != "implement"
    case Recover(_) => true
    case Select(w) => w < |s.workers| && s.workers[w].Idle? && NextPending(s.jobs, LockedRows(s), 0).Some?
    case Commit(w) => w < |s.workers| && s.workers[w].Selecting? && s.workers[w].job < |s.jobs|
    case Enter(w) => IsHolding(s, w) && s.workers[w].phase.Picked?
    case Ask(w, world) =>
      && IsHolding(s, w) && s.workers[w].phase == InHandler(false)
      && HandlerOutcome(allow, s.workers[w].claim, world).Awaiting?
    case Return(w) => IsHolding(s, w) && s.workers[w].phase.InHandler?
    case Raise(w) => IsHolding(s, w) && s.workers[w].phase.InHandler?
    case Complete(w) => IsHolding(s, w) && s.workers[w].phase.Returned?
    case CompleteRaises(w) => IsHolding(s, w) && s.workers[w].phase.Returned?
    case Settle(w) => IsHolding(s, w) && s.workers[w].phase.Raised?
    case Crash(w) => w < |s.workers|
    case AskOther(_, _, _, _) => true
    case SlackDecide(_, _, _) => true
    case ConsoleRead(a, _, _) => Flips(s.approvals, a)
    case ConsoleDecide(c) => c < |s.clicks| && s.clicks[c].ConsoleSaw?
    case Fetch(c) => c < |s.clicks| && s.clicks[c].Won?
    case Insert(c) => c < |s.clicks| && s.clicks[c].Fetched?
    case Abandon(c) => c < |s.clicks|
  }

  function WithJob(s: State, kind: string, args: Args, userId: string, key: Option<string>): State {
    var jobs := Enqueued(s.jobs, kind, args, userId, key);
    s.(jobs := jobs, entries := if |jobs| > |s.jobs| then s.entries + [0] else s.entries)
  }

  function MoveTo(s: State, w: nat, phase: Phase): State
    requires IsHolding(s, w)
  {
    s.(workers := s.workers[w := s.workers[w].(phase := phase)])
  }

  function Decide(s: State, id: nat, approve: bool, who: string): State {
    s.(approvals := Decided(s.approvals, id, approve, who),
       flips := if Flips(s.approvals, id) then s.flips + [Flip(id, approve, who)] else s.flips)
  }

  /** dispatch_approved_build's first half: get_request and the guard. */
  function Fetching(s: State, id: nat): Click {
    if Dispatchable(s.approvals, id) then
      Fetched(id, s.approvals[id].Parameters(), OrSystem(s.approvals[id].userId))
    else Over
  }

  /** What worker_main does with a caught exception. */
  function Settled(jobs: seq<Job>, claim: Claim, message: string): seq<Job> {
    if claim.attempts + 1 < MAX_ATTEMPTS then Requeued(jobs, claim.id)
    else Completed(jobs, claim.id, Some(message))
  }

  /** `f"{e}\n{traceback}"`, never empty. */
  const FAILURE := "error\ntraceback"

  function Effect(allow: set<string>, s: State, e: Event): State
    requires Enabled(allow, s, e)
  {
    match e
    case StartWorker => s.(workers := s.workers + [Idle])
    case Tick(dt) => s.(clock := s.clock + dt)
    case Enqueue(kind, args, userId, key) => WithJob(s, kind, args, userId, key)
    case Recover(staleAfter) => s.(jobs := Recovered(s.jobs, s.clock - staleAfter))
    case Select(w) => s.(workers := s.workers[w := Selecting(NextPending(s.jobs, LockedRows(s), 0).value)])
    case Commit(w) =>
      var j := s.workers[w].job;
      s.(jobs := Claimed(s.jobs, j, s.clock),
         workers := s.workers[w := Holding(ClaimOf(s.jobs, j), Picked)])
    case Enter(w) =>
      var j := s.workers[w].claim.id;
      MoveTo(s, w, InHandler(false)).(
        entries := if j < |s.entries| then s.entries[j := s.entries[j] + 1] else s.entries)
    case Ask(w, world) =>
      MoveTo(s, w, InHandler(true)).(
        approvals := s.approvals + [HandlerOutcome(allow, s.workers[w].claim, world).request])
    case Return(w) => MoveTo(s, w, Returned)
    case Raise(w) => MoveTo(s, w, Raised)
    case Complete(w) =>
      s.(jobs := Completed(s.jobs, s.workers[w].claim.id, None), workers := s.workers[w := Idle])
    case CompleteRaises(w) => MoveTo(s, w, Raised)
    case Settle(w) =>
      s.(jobs := Settled(s.jobs, s.workers[w].claim, FAILURE), workers := s.workers[w := Idle])
    case Crash(w) => s.(workers := s.workers[w := Dead])
    case AskOther(userId, system, summary, payload) =>
      s.(approvals := s.approvals + [NewRequest(userId, "api:" + system, summary, payload)])
    case SlackDecide(a, approve, who) =>
      Decide(s, a, approve, who).(
        clicks := if Flips(s.approvals, a) && approve then s.clicks + [Won(a)] else s.clicks)
    case ConsoleRead(a, approve, who) =>
      s.(clicks := s.clicks + [ConsoleSaw(a, s.approvals[a].Buildable(), approve, who)])
    case ConsoleDecide(c) =>
      var click := s.clicks[c];
      var won := Flips(s.approvals, click.id) && click.approve && click.buildable;
      Decide(s, click.id, click.approve, click.who).(
        clicks := s.clicks[c := if won then Won(click.id) else Over])
    case Fetch(c) => s.(clicks := s.clicks[c := Fetching(s, s.clicks[c].id)])
    case Insert(c) =>
      var click := s.clicks[c];
      WithJob(s, "implement", click.args, click.userId, Some(ImplementKey(click.id))).(
        clicks := s.clicks[c := Over])
    case Abandon(c) => s.(clicks := s.clicks[c := Over])
  }

  function Do(allow: set<string>, s: State, e: Event): State {
    if Enabled(allow, s, e) then Effect(allow, s, e) else s
  }

  function Exec(allow: set<string>, s: State, events: seq<Event>): State {
    if events == [] then s
    else Do(allow, Exec(allow, s, events[..|events| - 1]), events[|events| - 1])
  }

  lemma {:induction false} ExecConcat(allow: set<string>, s: State, a: seq<Event>, b: seq<Event>)
    ensures Exec(allow, s, a + b) == Exec(allow, Exec(allow, s, a), b)
  {
    if b == [] {
      assert a + b == a;
    } else {
      var n := |b| - 1;
      assert (a + b)[..|a + b| - 1] == a + b[..n];
      ExecConcat(allow, s, a, b[..n]);
    }
  }

  // ---- what every step keeps ----

  ghost predicate WorkerOk(s: State, worker: Worker) {
    match worker
    case Selecting(j) => j < |s.jobs| && s.jobs[j].status.Pending?
    case Holding(c, phase) =>
      && c.id < |s.jobs| == |s.entries|
      && (s.jobs[c.id].status.Running? || (s.jobs[c.id].status.Failed? && s.jobs[c.id].error == Some(INTERRUPTED)))
      && c == ClaimOf(s.jobs, c.id)
      && s.entries[c.id] == c.attempts + if phase.Picked? then 0 else 1
    case _ => true
  }

  ghost predicate JobOk(job: Job, entered: nat) {
    && job.attempts < MAX_ATTEMPTS
    && job.attempts <= entered <= job.attempts + 1
    && (job.status.Pending? ==> entered == job.attempts)
  }

  ghost predicate ApartWorkers(s: State) {
    forall v, w | 0 <= v < w < |s.workers| ::
      s.workers[v].Target().Some? ==> s.workers[v].Target() != s.workers[w].Target()
  }

  /** The queue half: who holds what, and how often a row has been tried. */
  ghost predicate QueueInv(s: State) {
    && |s.entries| == |s.jobs|
    && (forall j | 0 <= j < |s.jobs| :: JobOk(s.jobs[j], s.entries[j]))
    && (forall w | 0 <= w < |s.workers| :: WorkerOk(s, s.workers[w]))
    && ApartWorkers(s)
  }

  ghost predicate Logged(flips: seq<Flip>, id: nat) { exists f | 0 <= f < |flips| :: flips[f].id == id }

  ghost predicate FlipOk(approvals: seq<Approval>, flip: Flip) {
    && flip.id < |approvals|
    && approvals[flip.id].status == (if flip.approve then Approved else Dismissed)
    && approvals[flip.id].decidedBy == Some(flip.who)
  }

  /** The decision half: the rows say exactly what the successful decide calls did. */
  ghost predicate DecideInv(s: State) {
    && (forall a | 0 <= a < |s.approvals| :: s.approvals[a].status.Undecided? <==> !Logged(s.flips, a))
    && (forall a | 0 <= a < |s.approvals| :: s.approvals[a].status.Undecided? <==> s.approvals[a].decidedBy.None?)
    && (forall f | 0 <= f < |s.flips| :: FlipOk(s.approvals, s.flips[f]))
    && (forall f, g | 0 <= f < g < |s.flips| :: s.flips[f].id != s.flips[g].id)
  }

  /** `job` is the implement job of approval `a`. */
  ghost predicate Backs(approvals: seq<Approval>, a: nat, job: Job) {
    && Dispatchable(approvals, a)
    && job.dedupKey == Some(ImplementKey(a))
    && job.args == approvals[a].Parameters()
    && job.userId == OrSystem(approvals[a].userId)
  }

  ghost predicate Backed(approvals: seq<Approval>, job: Job) {
    job.kind == "implement" ==> exists a: nat :: Backs(approvals, a, job)
  }

  ghost predicate NoJobFor(jobs: seq<Job>, a: nat) {
    forall j | 0 <= j < |jobs| :: jobs[j].kind == "implement" ==> jobs[j].dedupKey != Some(ImplementKey(a))
  }

  ghost predicate ClickOk(s: State, click: Click) {
    match click
    case Won(a) => a < |s.approvals| && s.approvals[a].status.Approved? && NoJobFor(s.jobs, a)
    case Fetched(a, args, userId) =>
      && Dispatchable(s.approvals, a) && NoJobFor(s.jobs, a)
      && args == s.approvals[a].Parameters() && userId == OrSystem(s.approvals[a].userId)
    case ConsoleSaw(a, buildable, _, _) => a < |s.approvals| && buildable == s.approvals[a].Buildable()
    case Over => true
  }

  ghost predicate ApartJobs(jobs: seq<Job>) {
    forall i, j | 0 <= i < j < |jobs| ::
      jobs[i].kind == "implement" && jobs[j].kind == "implement" ==> jobs[i].dedupKey != jobs[j].dedupKey
  }

  ghost predicate ApartClicks(s: State) {
    forall c, d | 0 <= c < d < |s.clicks| ::
      s.clicks[c].Dispatching().Some? ==> s.clicks[c].Dispatching() != s.clicks[d].Dispatching()
  }

  /** The gate half: implement jobs come from approved, allowlisted rows, one each. */
  ghost predicate GateInv(allow: set<string>, s: State) {
    && (forall a | 0 <= a < |s.approvals| && s.approvals[a].Buildable() ::
          s.approvals[a].payload.Some? && OnAllowlist(allow, s.approvals[a].payload.value))
    && (forall j | 0 <= j < |s.jobs| :: Backed(s.approvals, s.jobs[j]))
    && ApartJobs(s.jobs)
    && (forall c | 0 <= c < |s.clicks| :: ClickOk(s, s.clicks[c]))
    && ApartClicks(s)
  }

  ghost predicate Inv(allow: set<string>, s: State) {
    QueueInv(s) && DecideInv(s) && GateInv(allow, s)
  }

  // ---- every step keeps the queue half ----

  /** One worker moves and at most its own job `j` changes. */
  lemma QueueMove(s: State, s': State, w: nat, j: nat)
    requires QueueInv(s) && w < |s.workers|
    requires |s'.workers| == |s.workers| && |s'.jobs| == |s.jobs| == |s'.entries|
    requires forall v | 0 <= v < |s.workers| && v != w ::
               s'.workers[v] == s.workers[v] && s.workers[v].Target() != Some(j)
    requires forall i | 0 <= i < |s.jobs| && i != j :: s'.jobs[i] == s.jobs[i] && s'.entries[i] == s.entries[i]
    requires j < |s.jobs| ==> JobOk(s'.jobs[j], s'.entries[j])
    requires s'.workers[w].Target() in {None, Some(j)}
    requires WorkerOk(s', s'.workers[w])
    ensures QueueInv(s')
  {
    forall v | 0 <= v < |s.workers| ensures WorkerOk(s', s'.workers[v]) {
      assert v != w ==> WorkerOk(s, s.workers[v]);
    }
  }

  /** A worker that already targets its job is the only one that does. */
  lemma OnlyTarget(s: State, w: nat, j: nat)
    requires ApartWorkers(s) && w < |s.workers| && s.workers[w].Target() == Some(j)
    ensures forall v | 0 <= v < |s.workers| && v != w :: s.workers[v].Target() != Some(j)
  {
  }

  /** The row claim_one picks is neither held nor locked by anybody. */
  lemma SelectedIsFree(s: State, j: nat)
    requires QueueInv(s) && j < |s.jobs| && s.jobs[j].status.Pending? && j !in LockedRows(s)
    ensures forall v | 0 <= v < |s.workers| :: s.workers[v].Target() != Some(j)
  {
    forall v | 0 <= v < |s.workers| ensures s.workers[v].Target() != Some(j) {
      assert WorkerOk(s, s.workers[v]);
      assert s.workers[v].Selecting? ==> s.workers[v].job in LockedRows(s);
    }
  }

  lemma QueueAppend(s: State, s': State)
    requires QueueInv(s)
    requires s'.workers == s.workers && |s'.jobs| == |s'.entries| >= |s.jobs|
    requires s'.jobs[..|s.jobs|] == s.jobs && s'.entries[..|s.jobs|] == s.entries
    requires forall i | |s.jobs| <= i < |s'.jobs| :: JobOk(s'.jobs[i], s'.entries[i])
    ensures QueueInv(s')
  {
    forall i | 0 <= i < |s.jobs| ensures s'.jobs[i] == s.jobs[i] && s'.entries[i] == s.entries[i] {
      assert s'.jobs[i] == s'.jobs[..|s.jobs|][i] && s'.entries[i] == s'.entries[..|s.jobs|][i];
    }
    forall v | 0 <= v < |s.workers| ensures WorkerOk(s', s'.workers[v]) {
      assert WorkerOk(s, s.workers[v]);
    }
  }

  lemma QueueRecover(s: State, cutoff: real)
    requires QueueInv(s)
    ensures QueueInv(s.(jobs := Recovered(s.jobs, cutoff)))
  {
    var s' := s.(jobs := Recovered(s.jobs, cutoff));
    forall j | 0 <= j < |s.jobs| ensures JobOk(s'.jobs[j], s'.entries[j]) {
      assert JobOk(s.jobs[j], s.entries[j]);
    }
    forall v | 0 <= v < |s.workers| ensures WorkerOk(s', s'.workers[v]) {
      assert WorkerOk(s, s.workers[v]);
    }
  }

  /** The workers' own steps. */
  lemma QueueWorkerStep(allow: set<string>, s: State, e: Event, w: nat)
    requires QueueInv(s) && Enabled(allow, s, e) && w < |s.workers|
    requires e in {Select(w), Commit(w), Enter(w), Return(w), Raise(w), Complete(w), CompleteRaises(w), Settle(w), Crash(w)}
             || (e.Ask? && e.w == w)
    ensures QueueInv(Effect(allow, s, e))
  {
    assert WorkerOk(s, s.workers[w]);
    var s' := Effect(allow, s, e);
    if e.Select? {
      var j := NextPending(s.jobs, LockedRows(s), 0).value;
      SelectedIsFree(s, j);
      QueueMove(s, s', w, j);
    } else if s.workers[w].Target().Some? {
      var j := s.workers[w].Target().value;
      OnlyTarget(s, w, j);
      assert JobOk(s.jobs[j], s.entries[j]);
      QueueMove(s, s', w, j);
    } else {
      forall v | 0 <= v < |s.workers| && v != w ensures s.workers[v].Target() != Some(|s.jobs|) {
        assert WorkerOk(s, s.workers[v]);
      }
      QueueMove(s, s', w, |s.jobs|);
    }
  }

  lemma QueueStart(allow: set<string>, s: State)
    requires QueueInv(s)
    ensures QueueInv(Effect(allow, s, StartWorker))
  {
    var s' := Effect(allow, s, StartWorker);
    forall v | 0 <= v < |s'.workers| ensures WorkerOk(s', s'.workers[v]) {
      assert v < |s.workers| ==> WorkerOk(s, s.workers[v]);
    }
  }

  /** Steps of clicks, clocks and other producers: at most one new job at the end. */
  predicate OfClick(e: Event) {
    e.Tick? || e.Enqueue? || e.AskOther? || e.SlackDecide? || e.ConsoleRead? || e.ConsoleDecide? || e.Fetch? || e.Insert? || e.Abandon?
  }

  lemma QueueClick(allow: set<string>, s: State, e: Event)
    requires QueueInv(s) && Enabled(allow, s, e) && OfClick(e)
    ensures QueueInv(Effect(allow, s, e))
  {
    QueueAppend(s, Effect(allow, s, e));
  }

  lemma QueueStep(allow: set<string>, s: State, e: Event)
    requires QueueInv(s)
    ensures QueueInv(Do(allow, s, e))
  {
    if Enabled(allow, s, e) {
      if e.Recover? {
        QueueRecover(s, s.clock - e.staleAfter);
      } else if e.StartWorker? {
        QueueStart(allow, s);
      } else if OfClick(e) {
        QueueClick(allow, s, e);
      } else {
        QueueWorkerStep(allow, s, e, e.w);
      }
    }
  }

  // ---- every step keeps the decision half ----

  lemma DecidePreserved(s: State, s': State, id: nat, approve: bool, who: string)
    requires DecideInv(s)
    requires s'.approvals == Decide(s, id, approve, who).approvals && s'.flips == Decide(s, id, approve, who).flips
    ensures DecideInv(s')
  {
    if Flips(s.approvals, id) {
      assert !Logged(s.flips, id);
      forall a | 0 <= a < |s'.approvals| ensures Logged(s'.flips, a) <==> Logged(s.flips, a) || a == id {
        if Logged(s.flips, a) {
          var f :| 0 <= f < |s.flips| && s.flips[f].id == a;
          assert s'.flips[f].id == a;
        }
        assert s'.flips[|s.flips|].id == id;
      }
      forall f | 0 <= f < |s.flips| ensures FlipOk(s'.approvals, s'.flips[f]) && s'.flips[f].id != id {
        assert FlipOk(s.approvals, s.flips[f]);
      }
    }
  }

  lemma DecideAppend(s: State, s': State, request: Approval)
    requires DecideInv(s)
    requires s'.approvals == s.approvals + [request] && s'.flips == s.flips
    requires request.status.Undecided? && request.decidedBy.None?
    ensures DecideInv(s')
  {
    forall f | 0 <= f < |s.flips| ensures FlipOk(s'.approvals, s'.flips[f]) && s'.flips[f].id != |s.approvals| {
      assert FlipOk(s.approvals, s.flips[f]);
    }
  }

  lemma DecideStep(allow: set<string>, s: State, e: Event)
    requires DecideInv(s)
    ensures DecideInv(Do(allow, s, e))
  {
    if Enabled(allow, s, e) {
      var s' := Effect(allow, s, e);
      match e
      case SlackDecide(a, approve, who) => DecidePreserved(s, s', a, approve, who);
      case ConsoleDecide(c) => DecidePreserved(s, s', s.clicks[c].id, s.clicks[c].approve, s.clicks[c].who);
      case Ask(w, world) =>
        ProducersEnforceAllowlist(allow, s.workers[w].claim, world);
        DecideAppend(s, s', HandlerOutcome(allow, s.workers[w].claim, world).request);
      case AskOther(userId, system, summary, payload) =>
        DecideAppend(s, s', NewRequest(userId, "api:" + system, summary, payload));
      case _ => assert s'.approvals == s.approvals && s'.flips == s.flips;
    }
  }

  // ---- every step keeps the gate half ----

  /** A row is only ever decided: its request never changes, and a decision is final. */
  ghost predicate RowKept(row: Approval, row': Approval) {
    row.SameRequest(row') && (!row.status.Undecided? ==> row' == row)
  }

  ghost predicate RowsKept(rows: seq<Approval>, rows': seq<Approval>) {
    |rows| <= |rows'| && forall a | 0 <= a < |rows| :: RowKept(rows[a], rows'[a])
  }

  /** What a job was enqueued with. */
  ghost predicate SameJob(job: Job, job': Job) {
    job.kind == job'.kind && job.args == job'.args && job.userId == job'.userId && job.dedupKey == job'.dedupKey
  }

  ghost predicate JobsKept(jobs: seq<Job>, jobs': seq<Job>) {
    |jobs| <= |jobs'| && forall j | 0 <= j < |jobs| :: SameJob(jobs[j], jobs'[j])
  }

  /** No step rewrites a request, undoes a decision, or changes what a job was enqueued with. */
  lemma StepKeepsRows(allow: set<string>, s: State, e: Event)
    requires QueueInv(s)
    ensures RowsKept(s.approvals, Do(allow, s, e).approvals)
    ensures JobsKept(s.jobs, Do(allow, s, e).jobs)
  {
    if Enabled(allow, s, e) && e.Commit? {
      assert WorkerOk(s, s.workers[e.w]);
    }
  }

  lemma GateFrame(allow: set<string>, s: State, s': State)
    requires GateInv(allow, s) && RowsKept(s.approvals, s'.approvals) && JobsKept(s.jobs, s'.jobs)
    requires forall a | |s.approvals| <= a < |s'.approvals| && s'.approvals[a].Buildable() ::
               s'.approvals[a].payload.Some? && OnAllowlist(allow, s'.approvals[a].payload.value)
    requires forall j | |s.jobs| <= j < |s'.jobs| :: s'.jobs[j].kind != "implement"
    ensures forall a | 0 <= a < |s'.approvals| && s'.approvals[a].Buildable() ::
              s'.approvals[a].payload.Some? && OnAllowlist(allow, s'.approvals[a].payload.value)
    ensures forall j | 0 <= j < |s'.jobs| :: Backed(s'.approvals, s'.jobs[j])
    ensures ApartJobs(s'.jobs)
    ensures forall c | 0 <= c < |s.clicks| :: ClickOk(s', s.clicks[c])
  {
    forall a | 0 <= a < |s.approvals| ensures RowKept(s.approvals[a], s'.approvals[a]) {}
    forall j | 0 <= j < |s.jobs| ensures Backed(s'.approvals, s'.jobs[j]) {
      assert Backed(s.approvals, s.jobs[j]) && SameJob(s.jobs[j], s'.jobs[j]);
      if s.jobs[j].kind == "implement" {
        var a: nat :| Backs(s.approvals, a, s.jobs[j]);
        assert Backs(s'.approvals, a, s'.jobs[j]);
      }
    }
    forall c | 0 <= c < |s.clicks| ensures ClickOk(s', s.clicks[c]) {
      assert ClickOk(s, s.clicks[c]);
    }
  }

  /** An approval that was still open has no implement job and no click dispatching it. */
  lemma OpenHasNothing(allow: set<string>, s: State, a: nat)
    requires GateInv(allow, s) && Flips(s.approvals, a)
    ensures NoJobFor(s.jobs, a)
    ensures forall c | 0 <= c < |s.clicks| :: s.clicks[c].Dispatching() != Some(a)
  {
    forall j | 0 <= j < |s.jobs| && s.jobs[j].kind == "implement"
      ensures s.jobs[j].dedupKey != Some(ImplementKey(a))
    {
      assert Backed(s.approvals, s.jobs[j]);
      var b: nat :| Backs(s.approvals, b, s.jobs[j]);
      if ImplementKey(a) == ImplementKey(b) {
        ImplementKeyInjective(a, b);
      }
    }
    forall c | 0 <= c < |s.clicks| ensures s.clicks[c].Dispatching() != Some(a) {
      assert ClickOk(s, s.clicks[c]);
    }
  }

  lemma InsertKeepsClick(allow: set<string>, s: State, c: nat, d: nat)
    requires GateInv(allow, s) && Enabled(allow, s, Insert(c)) && d < |s.clicks| && d != c
    ensures d < |Effect(allow, s, Insert(c)).clicks|
    ensures ClickOk(Effect(allow, s, Insert(c)), Effect(allow, s, Insert(c)).clicks[d])
  {
    assert ClickOk(s, s.clicks[d]) && ClickOk(s, s.clicks[c]);
    var other := s.clicks[d].Dispatching();
    if other.Some? {
      assert other != s.clicks[c].Dispatching();
      if ImplementKey(other.value) == ImplementKey(s.clicks[c].id) {
        ImplementKeyInjective(other.value, s.clicks[c].id);
      }
    }
  }

  /** The one step that adds an implement job. */
  lemma GateInsert(allow: set<string>, s: State, c: nat)
    requires GateInv(allow, s) && Enabled(allow, s, Insert(c))
    ensures GateInv(allow, Effect(allow, s, Insert(c)))
  {
    var click, s' := s.clicks[c], Effect(allow, s, Insert(c));
    assert ClickOk(s, click);
    var n := |s.jobs|;
    forall j | 0 <= j < |s'.jobs| ensures Backed(s'.approvals, s'.jobs[j]) {
      if j < n {
        assert s'.jobs[j] == s.jobs[j] && Backed(s.approvals, s.jobs[j]);
      } else {
        assert Backs(s'.approvals, click.id, s'.jobs[j]);
      }
    }
    forall d | 0 <= d < |s'.clicks| ensures ClickOk(s', s'.clicks[d]) {
      if d != c {
        InsertKeepsClick(allow, s, c, d);
      }
    }
  }

  lemma GateSlackDecide(allow: set<string>, s: State, e: Event)
    requires QueueInv(s) && GateInv(allow, s) && e.SlackDecide?
    ensures GateInv(allow, Effect(allow, s, e))
  {
    StepKeepsRows(allow, s, e);
    GateFrame(allow, s, Effect(allow, s, e));
    if Flips(s.approvals, e.id) {
      OpenHasNothing(allow, s, e.id);
    }
  }

  lemma GateConsoleDecide(allow: set<string>, s: State, e: Event)
    requires QueueInv(s) && GateInv(allow, s) && Enabled(allow, s, e) && e.ConsoleDecide?
    ensures GateInv(allow, Effect(allow, s, e))
  {
    StepKeepsRows(allow, s, e);
    GateFrame(allow, s, Effect(allow, s, e));
    if Flips(s.approvals, s.clicks[e.c].id) {
      OpenHasNothing(allow, s, s.clicks[e.c].id);
    }
  }

  lemma GateClick(allow: set<string>, s: State, e: Event)
    requires QueueInv(s) && GateInv(allow, s) && Enabled(allow, s, e) && (e.ConsoleRead? || e.Fetch? || e.Abandon?)
    ensures GateInv(allow, Effect(allow, s, e))
  {
    StepKeepsRows(allow, s, e);
    GateFrame(allow, s, Effect(allow, s, e));
    if e.Fetch? {
      assert ClickOk(s, s.clicks[e.c]);
    }
  }

  lemma GateRequests(allow: set<string>, s: State, e: Event)
    requires QueueInv(s) && GateInv(allow, s) && Enabled(allow, s, e) && (e.Ask? || e.AskOther?)
    ensures GateInv(allow, Effect(allow, s, e))
  {
    StepKeepsRows(allow, s, e);
    if e.Ask? {
      ProducersEnforceAllowlist(allow, s.workers[e.w].claim, e.world);
    } else {
      assert ("api:" + e.system)[0] == 'a';
    }
    GateFrame(allow, s, Effect(allow, s, e));
  }

  lemma GateStep(allow: set<string>, s: State, e: Event)
    requires QueueInv(s) && GateInv(allow, s)
    ensures GateInv(allow, Do(allow, s, e))
  {
    if Enabled(allow, s, e) {
      if e.Insert? {
        GateInsert(allow, s, e.c);
      } else if e.Ask? || e.AskOther? {
        GateRequests(allow, s, e);
      } else if e.SlackDecide? {
        GateSlackDecide(allow, s, e);
      } else if e.ConsoleDecide? {
        GateConsoleDecide(allow, s, e);
      } else if e.ConsoleRead? || e.Fetch? || e.Abandon? {
        GateClick(allow, s, e);
      } else {
        StepKeepsRows(allow, s, e);
        GateFrame(allow, s, Effect(allow, s, e));
      }
    }
  }

  // ---- reachable states ----

  lemma InvStep(allow: set<string>, s: State, e: Event)
    requires Inv(allow, s)
    ensures Inv(allow, Do(allow, s, e))
  {
    QueueStep(allow, s, e);
    DecideStep(allow, s, e);
    GateStep(allow, s, e);
  }

  lemma {:induction false} InvExec(allow: set<string>, s: State, events: seq<Event>)
    requires Inv(allow, s)
    ensures Inv(allow, Exec(allow, s, events))
  {
    if events != [] {
      InvExec(allow, s, events[..|events| - 1]);
      InvStep(allow, Exec(allow, s, events[..|events| - 1]), events[|events| - 1]);
    }
  }

  function Reached(allow: set<string>, events: seq<Event>): State { Exec(allow, INITIAL, events) }

  lemma InvReached(allow: set<string>, events: seq<Event>)
    ensures Inv(allow, Reached(allow, events))
  {
    InvExec(allow, INITIAL, events);
  }
}
