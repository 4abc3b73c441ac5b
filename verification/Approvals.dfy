/** The `approvals` table (shared/approvals.py) and which rows may start a build
    (dispatch_approved_build). Ids are row positions; rows are never deleted. */
module Approvals {
  import opened Wrappers
  import opened Text
  import opened JobQueue

  datatype Decision = Undecided | Approved | Dismissed

  datatype Approval = Approval(
    userId: string, action: string, summary: string, status: Decision,
    decidedBy: Option<string>, payload: Option<Args>)
  {
    /** `startswith(("build:", "triage:"))`. */
    predicate Buildable() { "build:" <= action || "triage:" <= action }

    /** `json.loads(payload or "{}")`. */
    function Parameters(): Args { payload.GetOr(NO_ARGS) }

    /** Everything but the decision is written once, when the row is created. */
    predicate SameRequest(that: Approval) {
      userId == that.userId && action == that.action && summary == that.summary && payload == that.payload
    }
  }

  function NewRequest(userId: string, action: string, summary: string, payload: Option<Args>): Approval {
    Approval(userId, action, summary, Undecided, None, payload)
  }

  /** `UPDATE ... WHERE id=:id AND status='pending'`: whether a row matched. */
  predicate Flips(rows: seq<Approval>, id: nat) {
    id < |rows| && rows[id].status.Undecided?
  }

  function Decided(rows: seq<Approval>, id: nat, approve: bool, who: string): seq<Approval> {
    if Flips(rows, id) then
      rows[id := rows[id].(status := if approve then Approved else Dismissed, decidedBy := Some(who))]
    else rows
  }

  /** The dedup key of the implement job for one approval. */
  function ImplementKey(id: nat): string { "implement:" + Dec(id) }

  lemma ImplementKeyInjective(m: nat, n: nat)
    requires ImplementKey(m) == ImplementKey(n)
    ensures m == n
  {
    assert ImplementKey(m)[10..] == Dec(m) && ImplementKey(n)[10..] == Dec(n);
    DecInjective(m, n);
  }

  /** `row.get("user_id") or "system@axelerant.com"`. */
  const SYSTEM_USER := "system@axelerant.com"

  function OrSystem(user: string): string { if user == "" then SYSTEM_USER else user }

  /** The only job dispatch_approved_build ever enqueues, if it enqueues one. */
  predicate Dispatchable(rows: seq<Approval>, id: nat) {
    id < |rows| && rows[id].status.Approved? && rows[id].Buildable()
  }
}
