# Verification of Bott's gates, queues and round trips

Bott is a Slack agent that reviews pull requests, plans and implements changes and keeps small shared
stores. This project models the parts of it that are state machines or transformations, in Dafny, and
proves what they promise.

* **Approval gate, queue and workers** (`JobQueue`, `Approvals`, `Producers`, `Pipeline`, `PipelineSafety`,
  `PipelineOrigins`, `PipelineOutcomes`, `PipelineDispatch`, `PipelineDrain`, `Database`). `Pipeline` is one transition system over the `jobs` and `approvals` tables:
  any number of workers, Slack clicks and console clicks, each of which may stop between any two of its
  steps. An event that is not enabled changes nothing, so a run is any list of events. `Database` holds the
  same operations as methods that change the tables in place, and proves that the worker loop is a run of
  that system.
* **Strict output schemas** (`JsonValues`, `StrictSchema`, `StrictSchemaShape`, `StrictSchemaHeap`,
  `SchemaValidity`, `SchemaNarrowing`). The schema rewrite as a function, as the recursive in-place traversal
  of linked containers, and its effect on what a schema accepts (JSON Schema 2020-12: Core sections 10.2.1,
  10.3.1.2 and 10.3.2; Validation section 6.5.3).
* **The two-level concurrency cap** (`Limiter`, `LimiterRuns`, `LimiterObjects`): a transition system of threads
  and semaphores, the runs that show what it does not prevent, and the semaphores as objects.
* **Reminders** (`Reminders`): the claim and undo protocol of concurrent sweepers and user edits.
* **Slack payload limits** (`SplitText`, `SlackBlocks`).
* **SKILL.md and the skills tables** (`Frontmatter`, `SkillStore`, `SkillRules`, `SkillStoreObjects`).
* **Settings, policy overrides, roles, trace statistics, schedules** (`Settings`, `PolicyOverrides`, `Roles`,
  `RoleRules`, `RoleStore`, `TraceStats`, `Cron`). `Text` and `Wrappers` are shared helpers.

`dafny verify dfyconfig.toml` checks everything.

## What the proofs found

The model follows the code where the code and its comments differ.

* `enqueue` deduplicates against pending rows only, so "one pending row per key" breaks at a retry. At most
  one implement job per approval rests on `decide`, not on the key.
* Nothing dispatches an approval again: if the process dies between `decide` and `enqueue`, the row stays approved
  and no later click builds it.
* `complete` and `requeue` do not look at the status. `done` is final all the same; `failed` is final only if
  the orphan sweep's window exceeds every live claim, which is what its configuration comment asks for.
* The per-user cap is documented as keeping one user from claiming every slot. A caller waits for its user
  permit while it holds a global one, so one user's callers can hold all of them, for all caps; only the number
  of running calls is capped. A cancelled asyncio waiter loses its global permit for good, and all of them can
  be lost exactly when the global cap exceeds the per-user one, as it does by default.
* `resnooze_item` looks at no status: a completion between a claim and its failed DM is undone.
* `_split_text` says its list is never empty and its elements are not either. The list is empty for some texts
  of newlines only, and has an empty element for the empty text; the exact conditions are
  `SplitText.SplitEmptyExactly` and `SplitText.SplitNonEmptyExactly`.
* `split_long_blocks` keeps a final actions block whether or not it fits, although its docstring says otherwise; so
  for max_blocks below 2 the list can be too long. A section whose text splits to nothing disappears with its keys.
* A property named "properties" makes `_strictify_schema` treat the property map as an object node and add
  entries to it. Unless the map has entries for both keys already, the result is then neither strict nor
  stable. For schemas without oneOf and not whose object nodes require only listed properties it accepts nothing
  new; outside them the rewrite can accept new values.
* `list_settings_by_prefix` re-checks what LIKE over-matches, but not what it misses: a backslash in the prefix
  can make PostgreSQL lose keys.
* Posting an existing skill again in the console replaces its text without recording a version. A deploy that
  brings a built-in under an authored name is overwritten at start-up.
* The last-administrator guard counts a role stored for the empty email, which no check accepts.
* Raw verdicts NULL, "" and "unknown" share a key in `trace_stats`, and the last group overwrites the others.
* A weekly schedule pinned to Monday displays as "Weekly".

## Model

| member | source | states |
|---|---|---|
| PipelineSafety.ImplementJobsAreApproved | src/bott/interfaces/slack_home/router.py:609-629 | In every reachable state each implement job is backed by an approved build or triage row with the same parameters, its repository is on the allowlist, and no two implement jobs serve the same approval. |
| PipelineSafety.EmptyAllowlistBuildsNothing | src/bott/agents/build_fix/planner.py:33-39 | With an empty allowlist no run ever contains an implement job. |
| PipelineSafety.RequestsAreFrozen | src/bott/shared/approvals.py:22-51 | From any state on, the request half of an approval row never changes, a decision is final, and a queued job keeps its kind, arguments, user and key. |
| PipelineSafety.BuildableRowsComeFromProducers | src/bott/interfaces/slack_home/router.py:612-624 | Every row that can start a build was written by a plan or triage handler step that passed the allowlist, and still says what that step wrote. |
| Producers.ProducersEnforceAllowlist | src/bott/agents/build_fix/planner.py:33-63 | A producer that asks for approval asks for an allowlisted repository, with a payload and an undecided row; plan jobs also have write access. |
| PipelineOrigins.BuildsAreWhatWasAsked | src/bott/agents/build_fix/planner.py:22-67 | Every implement job of every reachable state goes back to one handler call for a plan or triage job: it carries that job's repository, thread and user and the text drafted then, under the key of the row written then, which is approved. |
| PipelineOrigins.BuiltReposAreListed | src/bott/agents/build_fix/planner.py:33-39 | Every implement job has an owner and a name, and owner/name in lower case is an element of the allowlist. |
| PipelineOrigins.PlanAnswers | src/bott/agents/build_fix/planner.py:22-67 | A plan job with a repository is refused as not allowlisted exactly when owner/name in lower case is missing from the list, for want of write access exactly when it is listed, and asks for approval exactly when both hold and there is a text. |
| PipelineOrigins.PlanNeedsTarget | src/bott/agents/build_fix/planner.py:22-32 | no_repo exactly when there is no owner, or neither a name nor a repo. |
| PipelineOrigins.TriageAnswers | src/bott/agents/triage/triage.py:50-85 | A triage job: each refusal exactly when its own guard is the first to fail, the allowlist in terms of owner/name, and approval asked for exactly when all pass. |
| PipelineOrigins.PlanAsks | src/bott/agents/build_fix/planner.py:55-63 | The row of a plan: user, action, summary with the first 80 characters, and the payload field by field. |
| PipelineOrigins.TriageAsks | src/bott/agents/triage/triage.py:76-82 | The row of a triage, likewise. |
| PipelineSafety.DecidedExactlyOnce | src/bott/shared/approvals.py:40-51 | A row is decided exactly when one decide call returned True for it, over both interfaces, and it carries that call's verdict and caller. |
| PipelineSafety.ApprovalStep | src/bott/shared/approvals.py:40-51 | Every step on every row: the first verdict for an undecided row is written with who gave it, and nothing else changes it. |
| PipelineSafety.DecisionsWereClicked | src/bott/interfaces/console/router.py:405-431 | Over every run a row is approved or dismissed only as somebody clicked in Slack or the console, and names that person. |
| PipelineSafety.ClickStep | src/bott/interfaces/slack_home/router.py:457-468 | Every step on every click: made by a winning Slack approval or a console read of an open row, then dispatching or over. |
| PipelineSafety.AtMostOneImplementJob | src/bott/interfaces/slack_home/router.py:457-468 | At most one implement job is ever enqueued for an approval, and none unless it is approved. |
| PipelineDispatch.ApprovedIsDispatched | src/bott/interfaces/slack_home/router.py:457-468 | Over every run an approved buildable row has exactly one implement job, or the click that approved it is in flight, or its dispatch was lost: exactly one of the three. |
| PipelineDispatch.LostForGood | src/bott/shared/approvals.py:40-51 | A lost dispatch stays lost over every continuation: the row stays approved, and no later click dispatches it. |
| PipelineDispatch.OnlyDeathLoses | src/bott/interfaces/slack_home/router.py:625-629 | As long as no other caller uses the key of an approval, its dispatch is lost exactly when the process of its click dies between decide and enqueue. |
| PipelineDispatch.InFlightFinishes | src/bott/interfaces/slack_home/router.py:617-629 | The next steps of a click in flight enqueue the job exactly unless its key is pending. |
| PipelineDispatch.InFlightCanBeLost | src/bott/shared/persistence/queue.py:37-58 | A click in flight can be lost at any time in two ways: it dies, or a job of another kind takes its key first. |
| PipelineDispatch.FateStep | src/bott/interfaces/slack_home/router.py:609-629 | Every step keeps the three fates of an approval exclusive and exhaustive. |
| PipelineSafety.DedupAloneIsNotEnough | src/bott/shared/persistence/queue.py:34-58 | Enqueueing twice under one key adds one row while the first is pending and two once it has been claimed. |
| PipelineSafety.OnePendingPerKeyStep | src/bott/shared/persistence/queue.py:82-86 | "One pending row per dedup key" is kept by every step except exactly a retry whose key has been enqueued again meanwhile. |
| PipelineSafety.TwoPendingRowsAreReachable | src/bott/shared/persistence/queue.py:183-190 | A run of one worker ends with two pending rows of one key: the key is enqueued again while its first job runs, which then fails and is retried. |
| PipelineSafety.WorkersAreExclusive | src/bott/shared/persistence/queue.py:61-73 | At most one worker holds a job, a held job is neither pending nor done, and the holder's copy is the row; crashes and wrong sweeps included. |
| PipelineSafety.AttemptsAreBounded | src/bott/shared/persistence/queue.py:159-197 | attempts never exceeds 2 and the handler is entered at most 3 times for a job. |
| PipelineSafety.TerminalRowChanges | src/bott/shared/persistence/queue.py:76-86 | A finished row changes exactly when a worker that still holds it writes its outcome; such a row is failed, never done. |
| PipelineSafety.FinishedForGood | src/bott/shared/persistence/queue.py:76-102 | A finished row held by nobody is the same over every continuation. |
| PipelineSafety.DoneIsForever | src/bott/shared/persistence/queue.py:76-79 | A done row never changes again, whatever the orphan sweeps do. |
| PipelineOutcomes.RowStep | src/bott/shared/persistence/queue.py:61-102 | Every step on every row: a claim stamps it with the time, a completion makes it done without error, an exception sends it back twice and fails it with a message the third time, a sweep fails it as interrupted; nothing else touches it. |
| PipelineOutcomes.StatusIsLastMark | src/bott/shared/persistence/queue.py:76-102 | Over every run a row is pending, running, done or failed as the last step that touched it left it; failed only after the third exception, with an error, or after a sweep. |
| PipelineOutcomes.DoneExactly | src/bott/shared/persistence/queue.py:178-182 | Over every run a row is done exactly when a worker completed it right after its handler came back. |
| PipelineOutcomes.PhaseIsLastMove | src/bott/shared/persistence/queue.py:180-197 | A worker stands where its own last step put it: about to complete exactly after its handler returned, about to settle exactly after an exception. |
| PipelineOutcomes.WorkerStep | src/bott/shared/persistence/queue.py:159-197 | Every step on every worker; the claim it works on is a copy of its row. |
| PipelineOutcomes.EnqueueAdds | src/bott/shared/persistence/queue.py:34-58 | Enqueueing appends one untried pending row with what was asked for, unless a pending row has the same non-empty key. |
| PipelineOutcomes.SelectsTheOldest | src/bott/shared/persistence/queue.py:61-70 | A free worker selects the first pending row that nobody else is selecting, if there is one. |
| PipelineOutcomes.SweepCounts | src/bott/shared/persistence/queue.py:89-102 | The sweep reports how many rows have been running for longer than its window. |
| PipelineDrain.SweepSparesLiveJobs | src/bott/shared/persistence/queue.py:89-102 | A sweep leaves all live jobs running exactly when every live claim is younger than the window. |
| PipelineDrain.FinishedRowsAreFinal | src/bott/shared/config.py:609-615 | If every sweep finds live claims younger than its window, failed is final too. |
| PipelineDrain.SweptLiveJobComesBack | src/bott/shared/persistence/queue.py:183-193 | A worker that still holds a job swept to failed puts the row back to pending, and the weight of the queue rises. |
| PipelineDrain.SweptLiveJobIsReachable | src/bott/shared/persistence/queue.py:89-102 | A handler that runs longer than the window reaches such a state, and its retry leaves the row pending. |
| PipelineDrain.EveryMoveLowersWeight | src/bott/shared/persistence/queue.py:61-102 | Every claim, completion, retry and effective sweep strictly lowers the weight of the queue; nothing raises it but new jobs. |
| PipelineDrain.QueueDrains | src/bott/shared/persistence/queue.py:159-197 | Without new jobs a fresh run moves the queue at most six times per row, so it runs dry. |
| PipelineDrain.UnfinishedJobsCanMove | src/bott/shared/persistence/queue.py:89-102 | An unfinished job is pending, or its holder can step, or it is an orphan that some later sweep fails. |
| Pipeline.QueueStep | src/bott/shared/persistence/queue.py:61-102 | Every step of any process keeps the queue invariant: exclusive holders, bounded attempts, handler entries. |
| Pipeline.DecideStep | src/bott/shared/approvals.py:40-51 | Every step keeps the rows in agreement with the log of successful decisions. |
| Pipeline.GateStep | src/bott/interfaces/slack_home/router.py:609-629 | Every step keeps implement jobs backed by approved, allowlisted rows, one each. |
| Database.Store.Enqueue | src/bott/shared/persistence/queue.py:34-58 | The row appended, or the pending duplicate returned and nothing changed. |
| Database.Store.ClaimOne | src/bott/shared/persistence/queue.py:61-73 | The first unlocked pending row is set running and returned as it was, or nothing changes. |
| Database.Store.Complete | src/bott/shared/persistence/queue.py:76-79 | The new table for both outcomes. |
| Database.Store.Requeue | src/bott/shared/persistence/queue.py:82-86 | The new table: pending again with one more attempt. |
| Database.Store.RecoverOrphans | src/bott/shared/persistence/queue.py:89-102 | The swept table and the number of rows swept. |
| Database.Store.CreateRequest | src/bott/shared/approvals.py:22-28 | The undecided row appended and its id. |
| Database.Store.Decide | src/bott/shared/approvals.py:40-51 | Returns True exactly when the row was undecided; the row then carries the verdict and can never flip again. |
| Database.Store.DispatchApprovedBuild | src/bott/interfaces/slack_home/router.py:609-629 | Returns a job exactly for an approved build or triage row; the table gains that implement job under its key. |
| Database.Store.SlackDecision | src/bott/interfaces/slack_home/router.py:457-468 | A click dispatches exactly when it approved an undecided buildable row. |
| Database.Store.ConsoleDecision | src/bott/interfaces/console/router.py:411-431 | 404 and 409 exactly as stated and without effect; otherwise the decision and at most one dispatch. |
| Database.Store.RunPlanJob | src/bott/agents/build_fix/planner.py:22-67 | Every refusal in order; an approval row is appended exactly when the job is awaiting approval. |
| Database.Store.RunTriageJob | src/bott/agents/triage/triage.py:50-85 | Every refusal in order; an approval row is appended exactly when the job is awaiting approval. |
| Database.Store.HandleTask | src/bott/interfaces/slack_app.py:193-233 | What the plan, triage and other branches append, and when an exception leaves them. |
| Database.Store.Loop | src/bott/shared/persistence/queue.py:167-197 | The loop is a run of the transition system, and each smooth turn takes at least two off the queue's weight or finds it empty. |
| Database.Store.WorkerMain | src/bott/shared/persistence/queue.py:159-197 | The loop is a run of the transition system; with no failing database call it leaves nothing pending after more than half as many turns as the queue weighs. |
| StrictSchemaShape.StrictIffSteady | src/bott/shared/codex_cli.py:87-103 | The result has additionalProperties false and required equal to the property names at every object node exactly when no kept property map is mistaken for an object node without having both keys. |
| StrictSchemaShape.IdempotentIffSteady | src/bott/shared/codex_cli.py:87-103 | A second application changes nothing exactly under the same condition. |
| StrictSchemaShape.TrapIsNotIdempotent | src/bott/shared/codex_cli.py:95-99 | A schema with one property named "properties" is changed again by a second application. |
| StrictSchemaShape.NothingElseChanges | src/bott/shared/codex_cli.py:87-103 | Apart from the two keys of object nodes nothing changes, at any depth. |
| StrictSchemaShape.NodeRewritten | src/bott/shared/codex_cli.py:94-102 | Key by key: an object node gets additionalProperties false and required with the names of its properties in order; every other key keeps its place with the rewritten value, and none is added. |
| StrictSchemaShape.RaisesExactly | src/bott/shared/codex_cli.py:95-97 | The traversal raises at a node exactly when its properties are a true value that is no object. |
| StrictSchemaShape.StrictIsFixed | src/bott/shared/codex_cli.py:87-103 | A strict schema is left as it is. |
| StrictSchemaShape.StrictifyWellFormed | src/bott/shared/codex_cli.py:87-103 | No repeated keys are introduced. |
| StrictSchemaHeap.Container.Seal | src/bott/shared/codex_cli.py:95-97 | The two in-place assignments at an object node; fails exactly on a non-empty `properties` that is not an object. |
| StrictSchemaHeap.Container.VisitAll | src/bott/shared/codex_cli.py:98-102 | The loop over values or items rewrites each in place and no other. |
| StrictSchemaHeap.Container.Strictify | src/bott/shared/codex_cli.py:87-103 | The in-place traversal of nested dicts and lists computes the rewrite, and raises exactly where it is not accepted. |
| SchemaNarrowing.StrictAcceptsLess | src/bott/shared/codex_cli.py:247-252 | Any value valid under the strictified schema is valid under the original, for every schema without oneOf and not whose object nodes require only listed properties, whatever properties and definitions are called. |
| SchemaNarrowing.Narrows | src/bott/shared/codex_cli.py:87-103 | The same for subschemas, relative to definitions and to how far references are followed. |
| SchemaNarrowing.OnlyListed | src/bott/shared/codex_cli.py:96-97 | A value valid under a rewritten object node has exactly the properties the original node lists. |
| SchemaValidity.StrictifyMeansExact | src/bott/shared/codex_cli.py:87-103 | For schemas of the keywords interpreted here, oneOf and not included, and of keywords that mean what they mean by themselves: valid under the rewritten schema if and only if valid under the original with every object held to exactly its listed properties, however far references are followed. |
| SchemaValidity.StrictSchemaMeansExact | src/bott/shared/codex_cli.py:247-252 | The same for the whole schema written for codex, where a schema accepts a value if it does so from some depth of references on. |
| SchemaValidity.NotOverReferenceAcceptsNothing | src/bott/shared/codex_cli.py:87-103 | A `not` over a reference to a definition that accepts everything accepts nothing, although it passes every value at depth 0. |
| SchemaNarrowing.SomeFuelIsEnough | src/bott/shared/codex_cli.py:247-252 | Without oneOf and not a schema accepts a value exactly when it does so at some depth of references. |
| SchemaNarrowing.StrictSchemaNarrows | src/bott/shared/codex_cli.py:247-252 | The same, and without oneOf and not the schema written accepts no more than the given one. |
| SchemaNarrowing.ExactNarrows | src/bott/shared/codex_cli.py:87-103 | Without oneOf and not, holding objects to their listed properties only removes valid values. |
| SchemaValidity.NotWidens | src/bott/shared/codex_cli.py:87-103 | Under `not` the rewrite accepts a value the original rejects. |
| SchemaValidity.OneOfWidens | src/bott/shared/codex_cli.py:94-103 | Under `oneOf` it does so too, because a branch that no longer accepts leaves one that does. |
| SchemaValidity.RequiredOutsideWidens | src/bott/shared/codex_cli.py:95-97 | A requirement outside the listed properties is lost. |
| Limiter.CapsRespected | src/bott/shared/codex_concurrency.py:30-52 | Over every interleaving running calls respect both caps; free, held and lost permits add up to each cap; each user has one semaphore. |
| Limiter.AnonymousSkipsTheUserCap | src/bott/shared/codex_concurrency.py:77-80 | A caller without a user, or with an empty one, runs as soon as it has its global permit; every other waits for its own user's. |
| Limiter.InvStep | src/bott/shared/codex_concurrency.py:74-86 | Every step keeps permits balanced and every caller attached to the right semaphores. |
| Limiter.SemaphoresStay | src/bott/shared/codex_concurrency.py:30-52 | A semaphore is made once and never replaced. |
| Limiter.StuckMeansAllLost | src/bott/shared/codex_concurrency.py:74-101 | With caps of at least one the nested acquire is stuck only if every global permit has been lost to cancelled waiters. |
| Limiter.DeadlockFreedom | src/bott/shared/codex_concurrency.py:74-86 | Without cancellation the nested acquire never deadlocks exactly when both caps are at least one. |
| Limiter.StuckExactly | src/bott/shared/codex_concurrency.py:74-101 | With caps of at least one nobody can move exactly when every global permit is lost and all callers inside wait for one. |
| LimiterRuns.OneUserCanHoldEverySlot | src/bott/shared/codex_concurrency.py:74-82 | For every user: some run without cancellation has all global slots held by that user's callers, only as many running as the user's cap allows and the rest waiting, if and only if there is a slot at all. |
| LimiterRuns.EverybodyElseWaits | src/bott/shared/codex_concurrency.py:77-80 | From such a state on nobody gets a global slot until one of that user's calls finishes. |
| LimiterRuns.DeadlockFreedomWithCancellation | src/bott/shared/codex_concurrency.py:89-101 | With cancellation no run gets stuck if and only if the global cap is at least one and at most the per-user cap. |
| LimiterRuns.NothingIsLost | src/bott/shared/codex_concurrency.py:89-101 | With such caps no task ever waits for its user permit, so no slot is ever lost. |
| Limiter.CancelLosesAPermit | src/bott/shared/codex_concurrency.py:89-101 | A task cancelled while it waits for its user permit takes its global permit with it. |
| Limiter.AllLostBlocksForever | src/bott/shared/codex_concurrency.py:89-101 | Once all global permits are lost no caller gets one in any continuation. |
| LimiterObjects.Semaphores.GlobalSync | src/bott/shared/codex_concurrency.py:30-35 | Creates the one global semaphore on first use and returns it afterwards. |
| LimiterObjects.Semaphores.UserSync | src/bott/shared/codex_concurrency.py:46-52 | Creates a user's semaphore on first use, disjoint from all others, and returns it afterwards. |
| LimiterObjects.Semaphores.Enter | src/bott/shared/codex_concurrency.py:74-82 | Takes one global and, for a named user, one user permit, and no other. |
| LimiterObjects.Semaphores.Leave | src/bott/shared/codex_concurrency.py:83-86 | Gives both back to the same semaphores. |
| LimiterObjects.Semaphores.EnterThenLeave | src/bott/shared/codex_concurrency.py:74-86 | A whole call leaves every semaphore as it was. |
| Reminders.RemindersAreConserved | src/bott/shared/persistence/action_items.py:77-145 | Over any mix of sweepers, user edits and failed DMs: sent plus in flight plus still snoozed never exceed the times an item was armed, with equality exactly when no step of the run loses a reminder of the item. |
| Reminders.DroppedExactlyWhenLost | src/bott/shared/reminders.py:37-52 | A reminder is dropped exactly when its sweeper dies, or a snoozed item is completed or re-snoozed, or an undo lands on a new snooze. |
| Reminders.NoReminderWithoutSnooze | src/bott/shared/persistence/action_items.py:104-129 | Without a new snooze an item is reminded of at most once per claim in flight and once for the snooze it has. |
| Reminders.DoneStaysDoneExactly | src/bott/shared/persistence/action_items.py:64-87 | A completed item stays completed through every step except its owner's snooze and the undo of a failed DM. |
| Reminders.CompletionCanBeUndone | src/bott/shared/persistence/action_items.py:132-145 | A completion between claim and failed DM is undone: the item sleeps again. |
| Reminders.EditsAreScoped | src/bott/shared/persistence/action_items.py:64-87 | An edit under the wrong user changes nothing, and no edit touches another item. |
| Reminders.SweepOutcome | src/bott/shared/reminders.py:37-52 | After an undisturbed sweep every item snoozed until now or earlier is open, or snoozed until 300 seconds on if its DM failed, and the rest is untouched. |
| Reminders.NothingStaysDue | src/bott/shared/persistence/action_items.py:104-129 | After a sweep no snoozed item has a time that has come; one that was not snoozed, has no time or a later one is as it was. |
| Reminders.NobodyIsRemindedEarly | src/bott/shared/reminders.py:37-52 | Over every run of many sweepers, whatever is still to be sent was snoozed until then or earlier when its sweeper claimed it. |
| Reminders.ItemStep | src/bott/shared/persistence/action_items.py:64-145 | Every step on every item, with the new row. |
| Reminders.NewItemIs | src/bott/shared/persistence/action_items.py:20-42 | A new item is asleep exactly when it was created with a time. |
| Reminders.ActionItems.SweepOnce | src/bott/shared/reminders.py:37-52 | The loop leaves the swept table and returns the number of items whose snooze was over and whose DM did not fail. |
| Reminders.ActionItems.AddItem | src/bott/shared/persistence/action_items.py:20-42 | The new row, pre-snoozed exactly when a time is given. |
| Reminders.ActionItems.CompleteItem | src/bott/shared/persistence/action_items.py:64-74 | Done exactly for the owner's row. |
| Reminders.ActionItems.SnoozeItem | src/bott/shared/persistence/action_items.py:77-87 | Snoozed exactly for the owner's row. |
| Reminders.ActionItems.ClaimDueReminders | src/bott/shared/persistence/action_items.py:104-129 | The per-row loop opens and returns exactly the unlocked rows snoozed until now or earlier. |
| Reminders.ActionItems.ResnoozeItem | src/bott/shared/persistence/action_items.py:132-145 | Snoozes the row whatever its status or owner. |
| SplitText.PiecesAreTheText | src/bott/interfaces/slack_blocks.py:31-57 | Every piece of an over-long text is non-empty and fits, and the text is the pieces with only newlines between and around them. |
| SplitText.SplitEmptyExactly | src/bott/interfaces/slack_blocks.py:18-57 | The list is empty exactly for an over-long text of newlines whose length is a multiple of limit + 1, for limits from 2. |
| SplitText.SplitNonEmptyExactly | src/bott/interfaces/slack_blocks.py:26-29 | Every element is non-empty exactly for a text that is not empty itself. |
| SplitText.SplitKeepsText | src/bott/interfaces/slack_blocks.py:18-57 | No character but newlines is lost, added or reordered. |
| SplitText.RFindIsLast | src/bott/interfaces/slack_blocks.py:39-47 | The cut is at the last boundary that fits. |
| SplitText.SplitsAtBoundaries | src/bott/interfaces/slack_blocks.py:34-57 | An over-long text splits at its first cut and then as the rest does: at the last paragraph end that fits, whatever line ends follow; only without one at the last line end that fits; only without either after limit characters. |
| SplitText.FirstCutIsUnique | src/bott/interfaces/slack_blocks.py:34-57 | There is only one such cut, so this determines the whole result. |
| SplitText.SplitLoop | src/bott/interfaces/slack_blocks.py:18-57 | The splitting as run, with all of the above and termination for every limit of at least 1. |
| SplitText.CutAll | src/bott/interfaces/slack_blocks.py:31-57 | The loop itself, against the recursive pieces. |
| SlackBlocks.SplitLongBlocks | src/bott/interfaces/slack_blocks.py:94-136 | The expansion and truncation loops compute the specified list. |
| SlackBlocks.BoundedExactly | src/bott/interfaces/slack_blocks.py:116-136 | The result has at most max_blocks blocks exactly when nothing was truncated, or max_blocks is at least 2, or it is 1 and no actions block is kept. |
| SlackBlocks.SplitExactly | src/bott/interfaces/slack_blocks.py:96-102 | A block is replaced exactly when it is a section whose text is a string longer than the limit. |
| SlackBlocks.PiecesAreSections | src/bott/interfaces/slack_blocks.py:103-112 | The first piece is the block with a shorter text; the others are bare sections in the same markup, mrkdwn if it names none. |
| SlackBlocks.TruncatesTo | src/bott/interfaces/slack_blocks.py:119-136 | A longer list becomes exactly max_blocks blocks: the first ones, the notice, and a final actions block. |
| SlackBlocks.SectionsFitExactly | src/bott/interfaces/slack_blocks.py:94-136 | Every section text fits exactly when nothing was truncated or the notice itself fits. |
| SlackBlocks.SplitIsIdempotent | src/bott/interfaces/slack_blocks.py:94-136 | Splitting twice is splitting once, and a payload within both limits is untouched. |
| SlackBlocks.ExpansionKeepsOthers | src/bott/interfaces/slack_blocks.py:94-114 | Ineligible blocks keep their order through expansion. |
| SlackBlocks.OthersSurvive | src/bott/interfaces/slack_blocks.py:116-136 | For every max_blocks, even below 2: the result is a prefix of the expansion and the notice; the other blocks kept are a prefix of those given. |
| SlackBlocks.FinalActionsSurvive | src/bott/interfaces/slack_blocks.py:119-132 | For every max_blocks a final actions block stays last. |
| SlackBlocks.ExpansionKeepsText | src/bott/interfaces/slack_blocks.py:94-114 | The sections read the same after expansion, newlines apart. |
| SlackBlocks.BlockIdsNotDuplicated | src/bott/interfaces/slack_blocks.py:105-112 | For every max_blocks no block_id occurs more often than before. |
| SlackBlocks.SectionVanishesExactly | src/bott/interfaces/slack_blocks.py:94-114 | A section is replaced by nothing exactly when its text splits to nothing; otherwise its first piece keeps its other keys and the rest have none. |
| Frontmatter.EditKeepsHeader | console/src/lib/skill-content.ts:7-19 | For any content with a header and any new body, splitting the joined text gives back exactly that header, and saving again changes nothing. |
| Frontmatter.HeaderIsShortest | console/src/lib/skill-content.ts:7-11 | The header found is the shortest prefix in the language of the regular expression, and none is found exactly when no prefix is in it. |
| Frontmatter.DropsLeadingLines | console/src/lib/skill-content.ts:12-12 | The line break a body starts with and the newlines after it are dropped, and nothing else. |
| Frontmatter.EditedText | console/src/lib/skill-content.ts:16-19 | An edited text keeps the header found, and one without a header gets none. |
| Frontmatter.UneditedSaveIsIdentity | console/src/lib/skill-content.ts:9-19 | Opening a printed skill and saving it unedited reproduces it exactly when its body has no outer white space. |
| Frontmatter.ParserRecoversHeader | src/bott/skills/capability_page.py:34-43 | The capability page reads back the slug and the description that were printed exactly when both are single lines without outer white space. |
| Frontmatter.ScanIsClean | src/bott/skills/capability_page.py:32-43 | Whatever the parser reads is a single line without outer white space. |
| Frontmatter.ScanExactly | src/bott/skills/capability_page.py:30-44 | Between the first two rule lines the last name and the last description are read; nothing outside counts. |
| Frontmatter.ScanWithoutRule | src/bott/skills/capability_page.py:33-37 | Without a rule line nothing is read. |
| Frontmatter.SpacesDiffer | console/src/lib/skill-content.ts:17-17 | JavaScript's trim and Python's strip differ on exactly six characters. |
| Frontmatter.HeaderOfEnd | src/bott/shared/persistence/skills_store.py:17-22 | The console finds the end of a printed header at the header's end, whatever follows. |
| Frontmatter.ReadEntry | src/bott/skills/capability_page.py:32-43 | The line loop computes what the parser is specified to read. |
| Frontmatter.TrimCuts | console/src/lib/skill-content.ts:17-19 | Trimming removes white space at both ends and nothing else. |
| SkillStore.SyncedStep | src/bott/skills/skill_authoring.py:43-73 | A step keeps rows, files and built-ins in agreement exactly when it does not clobber: no call names a built-in its library misses, no deploy brings an authored name. |
| SkillStore.SyncedRun | src/bott/interfaces/console/router.py:657-759 | Over every run without such a step each authored row's SKILL.md is its content, built-in files are as deployed, no authored slug is a built-in, version ids increase. |
| SkillStore.RemovedOnlyByRetire | src/bott/skills/skill_authoring.py:102-120 | A skill disappears exactly when an administrator retires it unpinned. |
| SkillStore.PinnedSurvives | src/bott/shared/persistence/skills_store.py:84-101 | A pinned skill survives every run in which no administrator unpins it. |
| SkillStore.EditsAreAuthorised | src/bott/interfaces/console/router.py:657-678 | A skill never changes author, and its text changes only through an administrator or its author, or from chat if it has no author. |
| SkillRules.CreatorsCanEdit | src/bott/interfaces/console/router.py:657-678 | Whoever creates a skill in chat or console can save any text that says something after every run in which no administrator retires it; the row, the file and the newest version then are that text. |
| SkillRules.SaveExactly | src/bott/interfaces/console/router.py:657-678 | A save is accepted exactly for a non-blank text of a stored skill by an administrator or its author in any letter case; what is written, and each other refusal. |
| SkillRules.AuthorExactly | src/bott/skills/skill_authoring.py:43-66 | The chat tool writes exactly for a complete draft by an administrator, the author, or on a skill nobody owns; the new row, file and version. |
| SkillRules.CreateExactly | src/bott/interfaces/console/router.py:691-724 | The console's post writes exactly for a complete draft by an administrator or the author; a repost keeps author and pin and records no version. |
| SkillRules.DraftRefused | src/bott/skills/skill_authoring.py:48-60 | Each refusal of a draft and when it is given. |
| SkillRules.PinExactly | src/bott/interfaces/console/router.py:726-733 | A pin is set exactly by an administrator on a stored skill, and nothing else changes. |
| SkillRules.RetireExactly | src/bott/interfaces/console/router.py:735-759 | A skill and its file go exactly when an administrator retires it unpinned; each refusal. |
| SkillRules.StartUpWrites | src/bott/shared/persistence/skills_store.py:150-166 | After start-up every authored skill has its file, and every other file was there before. |
| SkillRules.SlugIs | src/bott/skills/skill_authoring.py:23-24 | The slug is the stripped, lower-cased name with every other character a hyphen and the outer hyphens cut off. |
| SkillStore.HistoryGrows | src/bott/shared/persistence/skills_store.py:104-133 | History only grows, by at most one version a step, with a larger id. |
| SkillStore.HistoryStep | src/bott/interfaces/console/router.py:712-724 | The newest version stays the current text exactly until a repost that changes the text, which records nothing. |
| SkillStore.DeployIsOverwritten | src/bott/interfaces/app.py:61-62 | From an empty database: a skill is authored and a deploy brings a built-in of that name; the file holds the authored text. |
| SkillStore.RepostIsUnrecorded | src/bott/interfaces/console/router.py:712-724 | From an empty database: a skill is posted twice with different bodies; the row has the second text and the newest version the first. |
| SkillStore.SlugsAreFixed | src/bott/skills/skill_authoring.py:23-24 | A name becomes a slug or nothing, and slugs are left alone. |
| SkillStore.AuthoredSkillsStayListed | src/bott/skills/skill_authoring.py:61-66 | After any number of console body edits an authored skill lists under its slug and description exactly when the description is one line. |
| SkillStoreObjects.SkillLibrary.Upsert | src/bott/shared/persistence/skills_store.py:25-60 | The row inserted or updated, keeping author and pin. |
| SkillStoreObjects.SkillLibrary.Update | src/bott/shared/persistence/skills_store.py:104-133 | Row, version and file updated together, or nothing for an unknown slug. |
| SkillStoreObjects.SkillLibrary.SetPinned | src/bott/shared/persistence/skills_store.py:84-91 | The pin set exactly for a stored slug. |
| SkillStoreObjects.SkillLibrary.Delete | src/bott/shared/persistence/skills_store.py:94-101 | The row removed and whether it existed. |
| SkillStoreObjects.SkillLibrary.MaterializeToFs | src/bott/shared/persistence/skills_store.py:150-166 | The loop writes one file per row, in any order, and leaves the others. |
| SkillStoreObjects.SkillLibrary.AuthorTool | src/bott/skills/skill_authoring.py:43-73 | The chat tool is one step of the machine, with its refusal. |
| SkillStoreObjects.SkillLibrary.CreateRoute | src/bott/interfaces/console/router.py:693-724 | The create route is one step of the machine, with its refusal. |
| SkillStoreObjects.SkillLibrary.SaveRoute | src/bott/interfaces/console/router.py:657-678 | The save route is one step of the machine, with its refusal and version id. |
| SkillStoreObjects.SkillLibrary.PinSkill | src/bott/interfaces/console/router.py:726-733 | Pinning is one step of the machine, with its refusal. |
| SkillStoreObjects.SkillLibrary.RetireSkill | src/bott/interfaces/console/router.py:735-759 | Retiring is one step of the machine, with its refusal. |
| Settings.ListByPrefixIsExact | src/bott/shared/persistence/records.py:52-61 | The prefix query returns exactly the keys starting with the prefix, from every table, if and only if the prefix matches its own LIKE pattern. |
| Settings.PlainPrefixIsExact | src/bott/shared/persistence/records.py:52-61 | That is so on SQLite for every prefix and on PostgreSQL for every prefix without a backslash. |
| Settings.MatchSurvives | src/bott/shared/persistence/records.py:57-60 | A match of the pattern survives appended characters unless an escape swallows its last one. |
| Settings.PrefixMatches | src/bott/shared/persistence/records.py:57-60 | The LIKE pre-filter never loses a key of the prefix, `_` and `%` included. |
| Settings.LikeAloneOverMatches | src/bott/shared/persistence/records.py:53-56 | Without the second filter a wildcard in the prefix over-matches. |
| Settings.OneBackslashLosesKeys | src/bott/shared/persistence/records.py:57-61 | On PostgreSQL a prefix of one backslash loses keys and a prefix of two loses none. |
| Settings.SettingsTable.ListSettingsByPrefix | src/bott/shared/persistence/records.py:52-61 | The two filters as run. |
| Settings.SettingsTable.SetSetting | src/bott/shared/persistence/records.py:39-49 | The upsert. |
| PolicyOverrides.ListedIffFound | src/bott/shared/policy_overrides.py:31-49 | The list shows a pair exactly when looking it up finds it and its system has no colon. |
| PolicyOverrides.OverridesAreIndependent | src/bott/shared/policy_overrides.py:16-36 | Setting or removing one override changes the answer for that pair in any letter case and for no other colon-free pair. |
| PolicyOverrides.WritesStayListable | src/bott/shared/policy_overrides.py:16-28 | Overrides written here never make the listing fail. |
| PolicyOverrides.ListedExactly | src/bott/shared/policy_overrides.py:39-49 | An entry is listed exactly when it is stored under policy_override:system:method, neither deleted nor unreadable. |
| PolicyOverrides.SetExactly | src/bott/shared/policy_overrides.py:16-23 | An override is stored exactly for allow, gate or deny, with reason, author and time, under the lower-cased key. |
| PolicyOverrides.GetExactly | src/bott/shared/policy_overrides.py:31-36 | What a lookup of that key answers. |
| PolicyOverrides.List | src/bott/shared/policy_overrides.py:39-49 | The loop fails exactly when an entry cannot be parsed, and otherwise lists every entry and none twice. |
| PolicyOverrides.Set | src/bott/shared/policy_overrides.py:16-23 | The new table, or a refusal of an unknown verdict. |
| PolicyOverrides.Remove | src/bott/shared/policy_overrides.py:26-28 | The soft delete. |
| PolicyOverrides.Get | src/bott/shared/policy_overrides.py:31-36 | The lookup with its error. |
| Roles.UsableAdminsStep | src/bott/shared/roles.py:98-117 | Someone can pass the administrator check after a step exactly unless it demotes the only usable administrator while the empty email counts as one. |
| Roles.AdminsNeverEmpty | src/bott/shared/roles.py:108-117 | No operation empties the set the guard counts, sign-ins included. |
| Roles.AdminsNeverRunOut | src/bott/shared/roles.py:108-117 | Over every run that set never becomes empty. |
| Roles.NeverLockedOut | src/bott/shared/roles.py:89-117 | In a run that gives the empty email no role someone can always pass the check. |
| Roles.GuardHole | src/bott/shared/roles.py:98-117 | Promoting the empty email and then demoting the only administrator leaves nobody who passes the check. |
| Roles.EnvAdminsStay | src/bott/shared/roles.py:70-95 | Deployment administrators pass the check in every state. |
| Roles.SignInOutcome | src/bott/shared/roles.py:162-173 | A sign-in is refused exactly for an invite that would demote a deployment or the last administrator, and then keeps the invite; otherwise the role is applied and the invite gone. |
| Roles.InvitesApplyOnce | src/bott/shared/roles.py:135-173 | Invites applied plus the one pending never exceed those issued plus the one pending at the start. |
| Roles.InviteStep | src/bott/shared/roles.py:135-173 | How each step moves a pending invite. |
| Roles.RolesMoveOneAtATime | src/bott/shared/roles.py:98-117 | A step gives the named email the asked role or changes nobody's. |
| Roles.RefusedExactly | src/bott/shared/roles.py:108-113 | A valid role is refused exactly for a deployment administrator or the last administrator. |
| Roles.KvAdminsAre | src/bott/shared/roles.py:75-86 | The stored administrators are exactly the emails whose role entry says admin. |
| Roles.InvitesAre | src/bott/shared/roles.py:120-132 | The pending invites are exactly the emails with a valid invite entry. |
| Roles.NormIsFixed | src/bott/shared/roles.py:50-55 | Normalising an email twice is normalising it once. |
| RoleRules.NormIs | src/bott/shared/roles.py:50-55 | The outer white space is gone, and every other character is kept but for its case. |
| RoleRules.AdminExactly | src/bott/shared/roles.py:75-95 | An email passes the check exactly when it is not empty and is named by the deployment or stored as admin under role:. |
| RoleRules.RefusalExactly | src/bott/shared/roles.py:98-113 | bad_role, locked and last_admin, each exactly when. |
| RoleRules.ChangeExactly | src/bott/shared/roles.py:98-117 | A role that is not refused is written under role: with who gave it and when, and nothing else changes. |
| RoleRules.InviteExactly | src/bott/shared/roles.py:135-150 | An invite is written exactly for a valid role and an address of the allowed domain. |
| RoleRules.DomainIs | src/bott/shared/roles.py:143-143 | The domain is what stands behind the last @. |
| RoleRules.PendingExactly | src/bott/shared/roles.py:120-132 | An invite is pending exactly when a valid role is stored under invite:. |
| RoleRules.RevokeExactly | src/bott/shared/roles.py:153-159 | Revoking clears a pending invite and does nothing else. |
| RoleRules.SignInExactly | src/bott/shared/roles.py:162-173 | A sign-in with a pending role stores it and clears the invite, or does nothing if that is refused. |
| RoleStore.RoleBook.ReadAdmins | src/bott/shared/roles.py:75-86 | The loop collects exactly the stored administrators. |
| RoleStore.RoleBook.ReadInvites | src/bott/shared/roles.py:120-132 | The loop collects exactly the pending invites with their roles. |
| RoleStore.RoleBook.SetRoleOf | src/bott/shared/roles.py:98-117 | The new table and what is raised. |
| RoleStore.RoleBook.InviteUser | src/bott/shared/roles.py:135-150 | The new table, and refused exactly when the invite is not issued. |
| RoleStore.RoleBook.RevokeUser | src/bott/shared/roles.py:153-159 | The new table, and True exactly when an invite was pending. |
| RoleStore.RoleBook.Consume | src/bott/shared/roles.py:162-173 | The new table and the applied role, or what is raised. |
| TraceStats.WeekMargin | src/bott/shared/persistence/records.py:276-315 | Adding up a week's verdicts gives the weekly count of trace_stats, for every week. |
| TraceStats.WeekTotal | src/bott/shared/persistence/records.py:259-265 | Adding up the weeks gives the number of dated rows. |
| TraceStats.VerdictMargin | src/bott/shared/persistence/records.py:304-313 | Adding up a verdict over the weeks gives the dated rows with that label. |
| TraceStats.VerdictsAgreeExactly | src/bott/shared/persistence/records.py:209-221 | The verdict margin is by_verdict exactly when no two raw verdicts share a label, and always agrees on labels other than "unknown". |
| TraceStats.GroupsAreOverwritten | src/bott/shared/persistence/records.py:219-221 | One row without a verdict and one with "unknown": by_verdict says 1, the weekly table 2. |
| TraceStats.LabelCount | src/bott/shared/persistence/records.py:219-221 | by_verdict never over-counts a label, and counts it fully exactly when the label stands for one raw verdict. |
| TraceStats.CellsCount | src/bott/shared/persistence/records.py:304-313 | Each cell counts the rows of its week and verdict. |
| TraceStats.OrderDoesNotMatter | src/bott/shared/persistence/records.py:299-313 | The table depends only on the multiset of rows. |
| TraceStats.WindowExactly | src/bott/shared/persistence/records.py:195-207 | The cutoff keeps exactly the rows created at or after it, each as often as it was there. |
| TraceStats.CollapsesExactly | src/bott/shared/persistence/records.py:219-221 | Verdicts collapse exactly when two of NULL, "" and "unknown" occur; every other verdict is its own label. |
| TraceStats.CountWeeks | src/bott/shared/persistence/records.py:203-265 | The loop computes the weekly counts; they add up to the total exactly when every row is dated. |
| TraceStats.CountWeeksAndVerdicts | src/bott/shared/persistence/records.py:298-315 | The loop computes the table, whose weekly totals are those of trace_stats. |
| Cron.ShiftIsAnAction | src/bott/interfaces/slack_home/cron.py:85-90 | Shifting by a then b is shifting by a + b, whole days change nothing, and the opposite shift gives the time back. |
| Cron.ShiftReads | src/bott/interfaces/slack_home/cron.py:85-90 | A shifted time is written HH:MM and reads as the time moved back modulo a day. |
| Cron.ClockRoundTrip | src/bott/interfaces/slack_home/cron.py:45-52 | A written HH:MM parses back to its hour and minute. |
| Cron.TimeExactly | src/bott/interfaces/slack_home/cron.py:45-52 | What reads as a time: two integers around the only colon, 0 to 23 and 0 to 59. |
| Cron.IntExactly | src/bott/interfaces/slack_home/cron.py:49-49 | What reads as an integer: digits with single underscores between them, a sign in front, white space around. |
| Cron.ToCronExactly | src/bott/interfaces/slack_home/cron.py:55-64 | The generated line has five fields: the minute, the hour, two stars, and the days of the frequency. |
| Cron.ToCronWeekdayExactly | src/bott/interfaces/slack_home/cron.py:28-33 | Likewise with the weekday, refused exactly outside 0 to 6 or for an unreadable time. |
| Cron.TwelveHourReads | src/bott/interfaces/slack_home/cron.py:67-71 | The display reads back: an hour from 1 to 12, two digits of minutes, AM or PM for the half of the day. |
| Cron.OtherLinesAreShownRaw | src/bott/interfaces/slack_home/cron.py:93-108 | A line without five fields, or without a time of day in the first two, is shown as it is. |
| Cron.FriendlySchedule | src/bott/interfaces/slack_home/cron.py:55-64 | A generated cron line displays as the frequency's label and the 12-hour time; it is refused exactly for an unreadable time or unknown frequency. |
| Cron.FriendlyWeekday | src/bott/interfaces/slack_home/cron.py:28-33 | A schedule pinned to a weekday displays that day's name, except that Monday displays as "Weekly". |
| Cron.FriendlyLine | src/bott/interfaces/slack_home/cron.py:93-108 | Any generated line displays as its day label and its time. |
| Cron.TwelveHourIsFaithful | src/bott/interfaces/slack_home/cron.py:67-71 | Two times display alike exactly when they are the same time of day. |
| Text.DecRoundTrip | src/bott/interfaces/slack_home/cron.py:64-71 | A rendered number reads back as itself. |
| Text.DecIsCanonical | src/bott/interfaces/slack_home/cron.py:64-71 | A numeral without leading zero is rendered back as itself. |
| Text.LowerIs | src/bott/agents/build_fix/planner.py:33-33 | Lower-casing leaves no upper-case letter and keeps every character but for its case. |

## Left out

- Slack, GitHub, Jira, Sentry, Memra and Spin clients, the web framework, LLM calls and subprocesses: their answers are parameters of the steps.
- React components, Block Kit and HTML builders, regex-heavy text helpers, sessions, tickets and cryptography.
- todos, prompts, alerts, configuration getters, migrations, `recent_*`, `pending_*`, `status` and `wait_for_decision`: reads that would only add easy members. `by_repo` and `rereview_changed` of trace_stats: single queries.
- Pipeline.GateStep: the requests of general connector calls are written as "api:" plus a system, so that they never start a build; the code that writes them is not part of this model.
- Pipeline.QueueStep: admin checks before a decision are assumed to have passed; complete and requeue do not wait for a row lock, because a claimed row is never locked by another worker.
- PipelineSafety.BuildableRowsComeFromProducers: the JSON stored with a row is kept as structure; a missing key and a null are the same.
- PipelineDrain.QueueDrains: no fairness is claimed; it bounds the moves of the queue, and UnfinishedJobsCanMove says that a move is always possible.
- SQL isolation beyond row locks and atomic transactions. Ids are row positions, since rows are never deleted; the clock is a real number that each step reads once.
- Database.Store.HandleTask: a retried plan job can ask for approval twice; the machine allows this and the results count implement jobs per approval.
- Python's str.lower and isdigit beyond ASCII; white space is modelled as each language defines it.
- StrictSchemaHeap.Container.Strictify: the schema is a tree; a container shared between two places, which a deep copy preserves, is not modelled.
- SchemaNarrowing.StrictAcceptsLess: references are `#/$defs/Name`; keywords that change what others mean, or depend on them or on where they stand (patternProperties, unevaluatedProperties, unevaluatedItems, prefixItems, if, then, else, minContains, maxContains, $id, $anchor, $dynamicAnchor, $dynamicRef), are excluded; other uninterpreted keywords judge a value from their own content; oneOf and not are excluded because narrowing a branch can widen them, and a requirement outside the listed properties because it is dropped.
- SchemaValidity.StrictifyMeansExact: excludes the same context keywords, and property and definition maps with an entry named "properties", which the rewrite extends; SchemaNarrowing covers them.
- SchemaValidity.StrictSchemaMeansExact: the standard leaves references that loop without end undefined; here such a reference fails, and a verdict that never settles counts as a rejection.
- LimiterRuns.DeadlockFreedomWithCancellation: asyncio.Semaphore is taken as it is since Python 3.11, where a task suspends exactly when the semaphore is used up or others queue for it; a queued task may be served in any order.
- Limiter.DeadlockFreedom: says that some step is possible, not that a given waiter is served.
- Reminders.RemindersAreConserved: the DM sender is a parameter that succeeds or raises; the Slack sender swallows Slack's own errors, so a reminder counted as sent may not have arrived. mark_reminded and due_reminders are not used by the sweep.
- SplitText.SplitLoop: a limit below 1 makes the loop diverge and is a precondition.
- SlackBlocks.SplitLongBlocks: a block is its type, its text and its other keys; values of other keys are opaque.
- SkillStore.SyncedRun: each tool or route is atomic; skill_manage, other files in a skill's directory, the row timestamps and the loader that builds the library are not modelled, and the library a caller holds is any set of names.
- Settings.SettingsTable.ListSettingsByPrefix: LIKE is modelled with ASCII case folding on SQLite and with the default escape on PostgreSQL; tolerance of a missing table is not modelled.
- PolicyOverrides.OverridesAreIndependent: for systems without a colon; a colon in the system moves the split between system and method.
- Roles.InvitesApplyOnce: operations are sequential; two sign-ins racing between check and write are not modelled.
- TraceStats.CountWeeks: the ISO week of an instant is an arbitrary function, and the order of dictionary keys is not modelled.
- Cron.FriendlySchedule: int() is modelled for ASCII digits with signs, underscores and outer white space; format_next_run and time zones are left out.
