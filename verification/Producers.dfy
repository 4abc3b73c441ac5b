/** The two producers of build approvals: run_plan_job and run_triage_job, with the
    argument preparation handle_task does before calling them. What the model cannot see
    (the drafted text, GitHub permissions, Sentry) comes in as `World`. */
module Producers {
  import opened Wrappers
  import opened Text
  import opened JobQueue
  import opened Approvals

  /** One answer of the outside world to one handler call. */
  datatype World = World(
    planText: string,          // plan_from_repo / draft_plan_text
    canWrite: bool,            // the App has contents: write on the repo
    sentryReady: bool,         // sentry_configured()
    fetched: bool,             // the Sentry issue could be read
    brief: Option<string>)     // diagnose's fix brief, None when it raises

  datatype Outcome =
    | NotAProducer             // the job kind asks for no approval
    | NoRepo | RefusedNotAllowlisted | RefusedNoWrite | SentryUnconfigured | FetchFailed
    | Raises                   // an exception leaves the handler before any row is written
    | Awaiting(request: Approval)

  predicate Truthy(s: Option<string>) { s.Some? && s.value != "" }

  function Or(s: Option<string>, t: Option<string>): Option<string> { if Truthy(s) then s else t }

  function RepoOf(owner: string, name: string): string { owner + "/" + name }

  predicate Allowed(allow: set<string>, owner: string, name: string) { Lower(RepoOf(owner, name)) in allow }

  function First80(s: string): string { if |s| <= 80 then s else s[..80] }

  /** handle_task's plan branch stamps the drafted text and the requesting user. */
  function PlanArgs(claim: Claim, world: World): Args {
    claim.args.(planText := Some(world.planText), userId := Some(claim.userId))
  }

  function PlanOutcome(allow: set<string>, args: Args, world: World): Outcome {
    var name := Or(args.name, args.repo);
    if !Truthy(args.owner) || !Truthy(name) then NoRepo
    else if !Allowed(allow, args.owner.value, name.value) then RefusedNotAllowlisted
    else if !world.canWrite then RefusedNoWrite
    else if args.planText.None? then Raises
    else
      Awaiting(NewRequest(
        OrSystem(args.userId.GetOr("")), "build:implement",
        "Implement on " + RepoOf(args.owner.value, name.value) + ": " + First80(args.planText.value),
        Some(NO_ARGS.(owner := args.owner, name := name, planText := args.planText,
                      channel := args.channel, threadTs := args.threadTs, prNumber := args.prNumber))))
  }

  function TriageOutcome(allow: set<string>, args: Args, world: World): Outcome {
    if args.owner.None? || args.name.None? then Raises
    else if !world.sentryReady then SentryUnconfigured
    else if !Allowed(allow, args.owner.value, args.name.value) then RefusedNotAllowlisted
    else if args.sentryIssueId.None? || !world.fetched then FetchFailed
    else if world.brief.None? then Raises
    else
      Awaiting(NewRequest(
        OrSystem(args.userId.GetOr("")), "triage:implement",
        "Fix " + RepoOf(args.owner.value, args.name.value) + " (Sentry " + args.sentryIssueId.value + "): "
          + First80(world.brief.value),
        Some(NO_ARGS.(owner := args.owner, name := args.name, planText := world.brief,
                      channel := args.channel, threadTs := args.threadTs))))
  }

  /** What one handler call does to the approvals table. */
  function HandlerOutcome(allow: set<string>, claim: Claim, world: World): Outcome {
    if claim.kind == "plan" then PlanOutcome(allow, PlanArgs(claim, world), world)
    else if claim.kind == "triage" then TriageOutcome(allow, claim.args, world)
    else NotAProducer
  }

  /** The parameters of a build name a repository that is on the allowlist. */
  predicate OnAllowlist(allow: set<string>, args: Args) {
    args.owner.Some? && args.name.Some? && Allowed(allow, args.owner.value, args.name.value)
  }

  /** Neither producer asks for approval of a repository that is off the allowlist. */
  lemma ProducersEnforceAllowlist(allow: set<string>, claim: Claim, world: World)
    requires HandlerOutcome(allow, claim, world).Awaiting?
    ensures var request := HandlerOutcome(allow, claim, world).request;
            && request.Buildable()
            && request.status.Undecided? && request.decidedBy.None?
            && request.payload.Some? && OnAllowlist(allow, request.payload.value)
            && (claim.kind == "plan" ==> world.canWrite)
  {
  }
}
