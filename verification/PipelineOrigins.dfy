/** Where implement jobs come from, told in the arguments of the plan or triage job they started as: what the
    producers refuse and ask for, and what a build carries at the end of the chain. */
module PipelineOrigins {
  import opened Wrappers
  import opened Text
  import opened JobQueue
  import opened Approvals
  import opened Producers
  import opened Pipeline
  import opened PipelineSafety

  /** A plan job names its repository by owner and name, or by owner and repo if it has no name. */
  predicate PlanTarget(args: Args, owner: string, name: string) {
    && args.owner == Some(owner) && owner != "" && name != ""
    && (args.name == Some(name) || (args.name in {None, Some("")} && args.repo == Some(name)))
  }

  /** A plan job asks for approval exactly for a named, allowlisted repository it can write to, and is refused for
      the first of these that fails. */
  lemma PlanAnswers(allow: set<string>, args: Args, world: World, owner: string, name: string)
    requires PlanTarget(args, owner, name)
    ensures var outcome, listed := PlanOutcome(allow, args, world), Lower(owner + "/" + name) in allow;
            && (outcome == RefusedNotAllowlisted <==> !listed)
            && (outcome == RefusedNoWrite <==> listed && !world.canWrite)
            && (outcome == Raises <==> listed && world.canWrite && args.planText == None)
            && (outcome.Awaiting? <==> listed && world.canWrite && args.planText != None)
  {
  }

  lemma PlanNeedsTarget(allow: set<string>, args: Args, world: World)
    ensures PlanOutcome(allow, args, world) == NoRepo <==> !exists owner, name :: PlanTarget(args, owner, name)
  {
    if PlanOutcome(allow, args, world) != NoRepo {
      var name := if args.name.None? || args.name.value == "" then args.repo else args.name;
      assert PlanTarget(args, args.owner.value, name.value);
    }
  }

  /** A triage job asks for approval exactly for an allowlisted repository and an issue it could read and diagnose. */
  lemma TriageAnswers(allow: set<string>, args: Args, world: World, owner: string, name: string)
    requires args.owner == Some(owner) && args.name == Some(name)
    ensures var outcome, listed := TriageOutcome(allow, args, world), Lower(owner + "/" + name) in allow;
            var read := args.sentryIssueId != None && world.fetched;
            && (outcome == SentryUnconfigured <==> !world.sentryReady)
            && (outcome == RefusedNotAllowlisted <==> world.sentryReady && !listed)
            && (outcome == FetchFailed <==> world.sentryReady && listed && !read)
            && (outcome == Raises <==> world.sentryReady && listed && read && world.brief == None)
            && (outcome.Awaiting? <==> world.sentryReady && listed && read && world.brief != None)
  {
  }

  lemma TriageNeedsTarget(allow: set<string>, args: Args, world: World)
    requires args.owner == None || args.name == None
    ensures TriageOutcome(allow, args, world) == Raises
  {
  }

  // ---- what is asked for ----

  /** Who a request or a job is charged to. */
  predicate ChargedTo(user: string, asked: Option<string>) {
    if asked in {None, Some("")} then user == "system@axelerant.com" else Some(user) == asked
  }

  /** The first 80 characters. */
  predicate Opening(text: string, start: string) { start <= text && |start| == if |text| < 80 then |text| else 80 }

  /** The approval row of a plan: its text, where to post, and an open decision. */
  lemma PlanAsks(allow: set<string>, args: Args, world: World, owner: string, name: string)
    requires PlanTarget(args, owner, name) && PlanOutcome(allow, args, world).Awaiting?
    ensures var row := PlanOutcome(allow, args, world).request;
            && args.planText.Some? && ChargedTo(row.userId, args.userId) && row.action == "build:implement"
            && row.status == Undecided && row.decidedBy == None
            && (exists start :: Opening(args.planText.value, start) && row.summary == "Implement on " + (owner + "/" + name) + ": " + start)
            && row.payload == Some(Args(Some(owner), Some(name), None, args.planText, args.channel, args.threadTs, None, args.prNumber, None))
  {
    var text := args.planText.value;
    assert Opening(text, if |text| <= 80 then text else text[..80]);
  }

  lemma TriageAsks(allow: set<string>, args: Args, world: World)
    requires TriageOutcome(allow, args, world).Awaiting?
    ensures var row := TriageOutcome(allow, args, world).request;
            && args.owner.Some? && args.name.Some? && args.sentryIssueId.Some? && world.brief.Some?
            && ChargedTo(row.userId, args.userId) && row.action == "triage:implement"
            && row.status == Undecided && row.decidedBy == None
            && (exists start :: Opening(world.brief.value, start) && row.summary ==
                  "Fix " + (args.owner.value + "/" + args.name.value) + " (Sentry " + args.sentryIssueId.value + "): " + start)
            && row.payload == Some(Args(args.owner, args.name, None, world.brief, args.channel, args.threadTs, None, None, None))
  {
    var text := world.brief.value;
    assert Opening(text, if |text| <= 80 then text else text[..80]);
  }

  // ---- the whole chain ----

  /** The build that a plan job leads to: its repository, the text drafted for it, where it came from, its user. */
  ghost predicate PlanBuild(allow: set<string>, claim: Claim, world: World, job: Job) {
    && claim.kind == "plan" && world.canWrite && ChargedTo(job.userId, Some(claim.userId))
    && exists owner, name ::
         && PlanTarget(claim.args, owner, name) && Lower(owner + "/" + name) in allow
         && job.args == Args(Some(owner), Some(name), None, Some(world.planText), claim.args.channel, claim.args.threadTs,
                             None, claim.args.prNumber, None)
  }

  ghost predicate TriageBuild(allow: set<string>, claim: Claim, world: World, job: Job) {
    && claim.kind == "triage" && world.sentryReady && world.fetched && claim.args.sentryIssueId != None
    && ChargedTo(job.userId, claim.args.userId)
    && claim.args.owner.Some? && claim.args.name.Some? && world.brief.Some?
    && Lower(claim.args.owner.value + "/" + claim.args.name.value) in allow
    && job.args == Args(claim.args.owner, claim.args.name, None, world.brief, claim.args.channel, claim.args.threadTs,
                        None, None, None)
  }

  /** Step k is the handler call that asked for approval `a` and for this build. */
  ghost predicate AskedAt(allow: set<string>, events: seq<Event>, k: nat, a: nat, job: Job)
    requires k < |events|
  {
    var before := Reached(allow, events[..k]);
    && events[k].Ask? && events[k].w < |before.workers| && before.workers[events[k].w].Holding?
    && a == |before.approvals|
    && var claim, world := before.workers[events[k].w].claim, events[k].world;
       PlanBuild(allow, claim, world, job) || TriageBuild(allow, claim, world, job)
  }

  /** A job with the payload and the user of the row that was asked for. */
  predicate CarriesOut(job: Job, row: Approval) {
    row.payload == Some(job.args) && job.userId == if row.userId == "" then "system@axelerant.com" else row.userId
  }

  lemma PlanIsBuilt(allow: set<string>, claim: Claim, world: World, job: Job)
    requires claim.kind == "plan" && HandlerOutcome(allow, claim, world).Awaiting?
    requires CarriesOut(job, HandlerOutcome(allow, claim, world).request)
    ensures PlanBuild(allow, claim, world, job)
  {
    var args := PlanArgs(claim, world);
    PlanNeedsTarget(allow, args, world);
    var owner, name :| PlanTarget(args, owner, name);
    PlanAnswers(allow, args, world, owner, name);
    PlanAsks(allow, args, world, owner, name);
    assert PlanTarget(claim.args, owner, name);
  }

  lemma TriageIsBuilt(allow: set<string>, claim: Claim, world: World, job: Job)
    requires claim.kind == "triage" && HandlerOutcome(allow, claim, world).Awaiting?
    requires CarriesOut(job, HandlerOutcome(allow, claim, world).request)
    ensures TriageBuild(allow, claim, world, job)
  {
    TriageAsks(allow, claim.args, world);
    TriageAnswers(allow, claim.args, world, claim.args.owner.value, claim.args.name.value);
  }

  lemma AskedBy(allow: set<string>, events: seq<Event>, k: nat, a: nat, row: Approval, job: Job)
    requires k < |events| && WrittenAt(allow, events, k, a, row) && CarriesOut(job, row)
    ensures AskedAt(allow, events, k, a, job)
  {
    var before := Reached(allow, events[..k]);
    var claim, world := before.workers[events[k].w].claim, events[k].world;
    if claim.kind == "plan" {
      PlanIsBuilt(allow, claim, world, job);
    } else {
      TriageIsBuilt(allow, claim, world, job);
    }
  }

  /** Every implement job of every reachable state goes back to one handler call for a plan or triage job: it builds
      what that call drafted, for that job's repository, user and thread, its repository is on the list, and the row
      that was written then has been approved. */
  lemma BuildsAreWhatWasAsked(allow: set<string>, events: seq<Event>, j: nat)
    requires j < |Reached(allow, events).jobs| && Reached(allow, events).jobs[j].kind == "implement"
    ensures var s := Reached(allow, events);
            exists k, a: nat | 0 <= k < |events| && a < |s.approvals| ::
              && AskedAt(allow, events, k, a, s.jobs[j])
              && s.approvals[a].status == Approved && s.jobs[j].dedupKey == Some("implement:" + Dec(a))
  {
    var s := Reached(allow, events);
    InvReached(allow, events);
    assert Backed(s.approvals, s.jobs[j]);
    var a: nat :| Backs(s.approvals, a, s.jobs[j]);
    BuildableRowsComeFromProducers(allow, events, a);
    var k :| 0 <= k < |events| && WrittenAt(allow, events, k, a, s.approvals[a]);
    AskedBy(allow, events, k, a, s.approvals[a], s.jobs[j]);
  }

  /** In particular every repository that is ever built is on the list. */
  lemma BuiltReposAreListed(allow: set<string>, events: seq<Event>, j: nat)
    requires j < |Reached(allow, events).jobs| && Reached(allow, events).jobs[j].kind == "implement"
    ensures var args := Reached(allow, events).jobs[j].args;
            args.owner.Some? && args.name.Some? && Lower(args.owner.value + "/" + args.name.value) in allow
  {
    BuildsAreWhatWasAsked(allow, events, j);
  }
}
