/** The `jobs` table and the statements that change it (shared/persistence/queue.py).
    A row's id is its position: ids are handed out in order and rows are never deleted.
    Each function below is the effect of one committed transaction on the rows. */
module JobQueue {
  import opened Wrappers

  const MAX_ATTEMPTS := 3

  const INTERRUPTED := "interrupted by restart"

  /** The JSON object a job carries; a missing key and a null are both `None`. */
  datatype Args = Args(
    owner: Option<string>, name: Option<string>, repo: Option<string>, planText: Option<string>,
    channel: Option<string>, threadTs: Option<string>, userId: Option<string>,
    prNumber: Option<int>, sentryIssueId: Option<string>)

  const NO_ARGS := Args(None, None, None, None, None, None, None, None, None)

  datatype Status = Pending | Running | Done | Failed

  datatype Job = Job(
    kind: string, args: Args, userId: string, status: Status, attempts: nat,
    dedupKey: Option<string>, error: Option<string>, claimedAt: Option<real>)
  {
    predicate Terminal() { status.Done? || status.Failed? }

    /** What `recover_orphans` sweeps: running, and claimed before the cutoff (or never stamped). */
    predicate Stale(cutoff: real) {
      status.Running? && (claimedAt.None? || claimedAt.value < cutoff)
    }
  }

  /** What `claim_one` hands to the worker: a copy of the row, taken when it was claimed. */
  datatype Claim = Claim(id: nat, kind: string, args: Args, userId: string, attempts: nat)

  // ---- enqueue ----

  predicate Duplicate(job: Job, key: Option<string>) {
    key.Some? && key.value != "" && job.status.Pending? && job.dedupKey == key
  }

  /** The first pending row with this dedup key, if any; an empty key never matches. */
  function FindDuplicate(rows: seq<Job>, key: Option<string>): (r: Option<nat>)
    ensures r.Some? ==> r.value < |rows| && Duplicate(rows[r.value], key)
    ensures r.None? ==> forall i | 0 <= i < |rows| :: !Duplicate(rows[i], key)
  {
    if rows == [] then None
    else if Duplicate(rows[0], key) then Some(0)
    else
      var r := FindDuplicate(rows[1..], key);
      if r.Some? then
        assert rows[1..][r.value] == rows[r.value + 1];
        Some(r.value + 1)
      else
        assert forall i | 1 <= i < |rows| :: rows[i] == rows[1..][i - 1];
        None
  }

  function NewJob(kind: string, args: Args, userId: string, key: Option<string>): Job {
    Job(kind, args, userId, Pending, 0, key, None, None)
  }

  function Enqueued(rows: seq<Job>, kind: string, args: Args, userId: string, key: Option<string>): seq<Job> {
    if FindDuplicate(rows, key).Some? then rows else rows + [NewJob(kind, args, userId, key)]
  }

  // ---- claim_one ----

  /** `WHERE status='pending' ORDER BY id LIMIT 1 FOR UPDATE SKIP LOCKED`. */
  function NextPending(rows: seq<Job>, locked: set<nat>, from: nat): (r: Option<nat>)
    requires from <= |rows|
    ensures r.Some? ==> from <= r.value < |rows| && rows[r.value].status.Pending? && r.value !in locked
    ensures r.Some? ==> forall i | from <= i < r.value :: rows[i].status.Pending? ==> i in locked
    ensures r.None? ==> forall i | from <= i < |rows| :: rows[i].status.Pending? ==> i in locked
    decreases |rows| - from
  {
    if from == |rows| then None
    else if rows[from].status.Pending? && from !in locked then Some(from)
    else NextPending(rows, locked, from + 1)
  }

  function Claimed(rows: seq<Job>, id: nat, now: real): (r: seq<Job>)
    requires id < |rows|
  {
    rows[id := rows[id].(status := Running, claimedAt := Some(now))]
  }

  function ClaimOf(rows: seq<Job>, id: nat): Claim
    requires id < |rows|
  {
    Claim(id, rows[id].kind, rows[id].args, rows[id].userId, rows[id].attempts)
  }

  // ---- complete, requeue, recover_orphans: none of them looks at the current status ----

  function Completed(rows: seq<Job>, id: nat, error: Option<string>): seq<Job> {
    if id < |rows| then
      var failed := error.Some? && error.value != "";
      rows[id := rows[id].(status := if failed then Failed else Done, error := error)]
    else rows
  }

  function Requeued(rows: seq<Job>, id: nat): seq<Job> {
    if id < |rows| then rows[id := rows[id].(status := Pending, attempts := rows[id].attempts + 1)] else rows
  }

  function RecoveredJob(job: Job, cutoff: real): Job {
    if job.Stale(cutoff) then job.(status := Failed, error := Some(INTERRUPTED)) else job
  }

  function Recovered(rows: seq<Job>, cutoff: real): (r: seq<Job>)
    ensures |r| == |rows|
    ensures forall i | 0 <= i < |rows| :: r[i] == RecoveredJob(rows[i], cutoff)
  {
    seq(|rows|, i requires 0 <= i < |rows| => RecoveredJob(rows[i], cutoff))
  }

  /** How many rows a sweep changes: its return value. */
  function StaleCount(rows: seq<Job>, cutoff: real): nat {
    if rows == [] then 0
    else StaleCount(rows[..|rows| - 1], cutoff) + if rows[|rows| - 1].Stale(cutoff) then 1 else 0
  }

  // ---- how much work is left ----

  /** Two units for every attempt a pending row has left, one fewer once it is claimed. */
  function JobWeight(job: Job): int {
    match job.status
    case Pending => 2 * (MAX_ATTEMPTS - job.attempts)
    case Running => 2 * (MAX_ATTEMPTS - job.attempts) - 1
    case Done => 0
    case Failed => 0
  }

  function Weight(rows: seq<Job>): int {
    if rows == [] then 0 else Weight(rows[..|rows| - 1]) + JobWeight(rows[|rows| - 1])
  }

  lemma {:induction false} WeightUpdate(rows: seq<Job>, id: nat, job: Job)
    requires id < |rows|
    ensures Weight(rows[id := job]) == Weight(rows) - JobWeight(rows[id]) + JobWeight(job)
  {
    var n := |rows| - 1;
    if id == n {
      assert rows[id := job][..n] == rows[..n];
    } else {
      assert rows[id := job][..n] == rows[..n][id := job];
      WeightUpdate(rows[..n], id, job);
    }
  }

  lemma {:induction false} WeightPointwise(rows: seq<Job>, rows': seq<Job>)
    requires |rows| == |rows'|
    requires forall i | 0 <= i < |rows| :: JobWeight(rows'[i]) <= JobWeight(rows[i])
    ensures Weight(rows') <= Weight(rows)
    ensures (exists i | 0 <= i < |rows| :: JobWeight(rows'[i]) < JobWeight(rows[i])) ==> Weight(rows') < Weight(rows)
  {
    if rows != [] {
      var n := |rows| - 1;
      WeightPointwise(rows[..n], rows'[..n]);
      if i :| 0 <= i < |rows| && JobWeight(rows'[i]) < JobWeight(rows[i]) {
        assert i < n ==> JobWeight(rows'[..n][i]) < JobWeight(rows[..n][i]);
      }
    }
  }

  lemma {:induction false} WeightBounds(rows: seq<Job>)
    requires forall i | 0 <= i < |rows| :: rows[i].attempts < MAX_ATTEMPTS
    ensures 0 <= Weight(rows) <= 6 * |rows|
    ensures Weight(rows) == 0 <==> forall i | 0 <= i < |rows| :: rows[i].Terminal()
  {
    if rows != [] {
      var n := |rows| - 1;
      WeightBounds(rows[..n]);
      assert rows == rows[..n] + [rows[n]];
      assert 0 <= JobWeight(rows[n]) <= 6;
      assert JobWeight(rows[n]) == 0 <==> rows[n].Terminal();
    }
  }
}
