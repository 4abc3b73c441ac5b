/** Snoozed action items and the sweep that reminds their owners (shared/persistence/action_items.py,
    shared/reminders.py): the table as the program changes it, and the claim/undo protocol of any number of
    concurrent sweepers and user edits as a transition system. */
module Reminders {
  import opened Wrappers

  const RETRY_DELAY := 300.0

  datatype Status = Open | Snoozed | Done

  datatype Item = Item(
    userId: string, text: string, status: Status, remindAt: Option<real>, source: string, created: real, updated: real)
  {
    /** `status = 'snoozed' AND remind_at <= :now`; NULL is never due. */
    predicate Due(now: real) { status.Snoozed? && remindAt.Some? && remindAt.value <= now }

    function Opened(now: real): Item { this.(status := Open, remindAt := None, updated := now) }

    function SnoozedUntil(at: real, now: real): Item { this.(status := Snoozed, remindAt := Some(at), updated := now) }
  }

  function NewItem(userId: string, text: string, source: string, remindAt: Option<real>, now: real): Item {
    Item(userId, text, if remindAt.Some? then Snoozed else Open, remindAt, source, now, now)
  }

  /** `WHERE id = :iid AND user_id = :uid`. */
  predicate Owns(items: seq<Item>, userId: string, id: nat) { id < |items| && items[id].userId == userId }

  /** The due rows that no other transaction has locked, in id order. */
  function DueIds(items: seq<Item>, now: real, locked: set<nat>): (r: seq<nat>)
    ensures forall i :: i in r <==> 0 <= i < |items| && items[i].Due(now) && i !in locked
    ensures forall a, b | 0 <= a < b < |r| :: r[a] < r[b]
  {
    if items == [] then []
    else
      var n := |items| - 1;
      assert forall i | 0 <= i < n :: items[..n][i] == items[i];
      var before := DueIds(items[..n], now, locked);
      assert forall a | 0 <= a < |before| :: before[a] in before && before[a] < n;
      if items[n].Due(now) && n !in locked then before + [n] else before
  }

  function Claimed(items: seq<Item>, now: real, locked: set<nat>): (r: seq<Item>)
    ensures |r| == |items|
    ensures forall i | 0 <= i < |items| :: r[i] == if items[i].Due(now) && i !in locked then items[i].Opened(now) else items[i]
  {
    seq(|items|, i requires 0 <= i < |items| => if items[i].Due(now) && i !in locked then items[i].Opened(now) else items[i])
  }

  // ---- the table ----

  class ActionItems {
    var items: seq<Item>

    constructor ()
      ensures items == []
    {
      items := [];
    }

    method AddItem(userId: string, text: string, now: real, source: string, remindAt: Option<real>) returns (id: nat)
      modifies this
      ensures items == old(items) + [NewItem(userId, text, source, remindAt, now)] && id == |old(items)|
    {
      id := |items|;
      items := items + [Item(userId, text, if remindAt.Some? then Snoozed else Open, remindAt, source, now, now)];
    }

    method CompleteItem(userId: string, id: nat, now: real) returns (ok: bool)
      modifies this
      ensures ok == Owns(old(items), userId, id)
      ensures items == if ok then old(items)[id := old(items)[id].(status := Done, updated := now)] else old(items)
    {
      ok := id < |items| && items[id].userId == userId;
      if ok { items := items[id := items[id].(status := Done, updated := now)]; }
    }

    method SnoozeItem(userId: string, id: nat, remindAt: real, now: real) returns (ok: bool)
      modifies this
      ensures ok == Owns(old(items), userId, id)
      ensures items == if ok then old(items)[id := old(items)[id].SnoozedUntil(remindAt, now)] else old(items)
    {
      ok := id < |items| && items[id].userId == userId;
      if ok { items := items[id := items[id].(status := Snoozed, remindAt := Some(remindAt), updated := now)]; }
    }

    /** Select the due rows, then flip each of them, in one transaction. */
    method ClaimDueReminders(now: real, locked: set<nat>) returns (ids: seq<nat>)
      modifies this
      ensures ids == DueIds(old(items), now, locked)
      ensures items == Claimed(old(items), now, locked)
      ensures forall i :: i in ids <==> 0 <= i < |old(items)| && i !in locked && HasCome(old(items)[i].status, old(items)[i].remindAt, now)
    {
      ids := DueIds(items, now, locked);
      var k := 0;
      while k < |ids|
        invariant 0 <= k <= |ids| && |items| == |old(items)|
        invariant forall i | 0 <= i < |items| :: items[i] == if i in ids[..k] then old(items)[i].Opened(now) else old(items)[i]
      {
        assert ids[k] in ids && ids[k] !in ids[..k];
        items := items[ids[k] := items[ids[k]].Opened(now)];
        k := k + 1;
      }
      assert ids[..k] == ids;
    }

    /** The sweep's undo: it looks at neither the owner nor the current status. */
    method ResnoozeItem(id: nat, remindAt: real, now: real) returns (ok: bool)
      modifies this
      ensures ok == (id < |old(items)|)
      ensures items == if ok then old(items)[id := old(items)[id].SnoozedUntil(remindAt, now)] else old(items)
    {
      ok := id < |items|;
      if ok { items := items[id := items[id].(status := Snoozed, remindAt := Some(remindAt), updated := now)]; }
    }

    /** sweep_once with nobody else writing: `fails` are the items whose DM raises. */
    method SweepOnce(now: real, fails: set<nat>) returns (sent: nat)
      modifies this
      ensures items == Swept(old(items), fails, now)
      ensures sent == |Sent(old(items), fails, now)|
    {
      var ids := ClaimDueReminders(now, {});
      sent := SendAll(ids, now, fails);
      SentAre(old(items), fails, now);
    }

    /** The loop over the claimed items. */
    method SendAll(ids: seq<nat>, now: real, fails: set<nat>) returns (sent: nat)
      modifies this
      ensures items == AfterDms(old(items), ids, fails, now) && sent == Delivered(ids, fails)
    {
      sent := 0;
      var k := 0;
      while k < |ids|
        invariant 0 <= k <= |ids|
        invariant sent == Delivered(ids[..k], fails)
        invariant items == AfterDms(old(items), ids[..k], fails, now)
      {
        assert ids[..k + 1][..k] == ids[..k];
        if ids[k] in fails {
          var ok := ResnoozeItem(ids[k], now + RETRY_DELAY, now);
        } else {
          sent := sent + 1;
        }
        k := k + 1;
      }
      assert ids[..k] == ids;
    }
  }

  /** A snooze that is over: the time it was set to is not after `now`. */
  predicate HasCome(status: Status, remindAt: Option<real>, now: real) {
    status == Snoozed && remindAt != None && !(remindAt.value > now)
  }

  lemma {:induction false} DeliveredCount(ids: seq<nat>, fails: set<nat>)
    requires forall a, b | 0 <= a < b < |ids| :: ids[a] < ids[b]
    ensures Delivered(ids, fails) == |Reached(ids, fails)|
  {
    if ids != [] {
      var before, last := ids[..|ids| - 1], ids[|ids| - 1];
      DeliveredCount(before, fails);
      assert ids == before + [last] && last !in before;
      OneMoreReached(before, last, fails);
    }
  }

  lemma OneMoreReached(before: seq<nat>, last: nat, fails: set<nat>)
    requires last !in before
    ensures |Reached(before + [last], fails)| == |Reached(before, fails)| + if last in fails then 0 else 1
  {
    assert Reached(before + [last], fails) == Reached(before, fails) + if last in fails then {} else {last};
  }

  function Reached(ids: seq<nat>, fails: set<nat>): set<nat> { set i | i in ids && i !in fails }

  /** The items a sweep sends. */
  function Sent(items: seq<Item>, fails: set<nat>, now: real): set<nat> {
    set i: nat | i < |items| && HasCome(items[i].status, items[i].remindAt, now) && i !in fails
  }

  lemma SentAre(items: seq<Item>, fails: set<nat>, now: real)
    ensures Delivered(DueIds(items, now, {}), fails) == |Sent(items, fails, now)|
  {
    DeliveredCount(DueIds(items, now, {}), fails);
    assert Reached(DueIds(items, now, {}), fails) == Sent(items, fails, now);
  }

  /** The table after a whole sweep. */
  function Swept(items: seq<Item>, fails: set<nat>, now: real): seq<Item> {
    AfterDms(Claimed(items, now, {}), DueIds(items, now, {}), fails, now)
  }

  /** Every item whose snooze is over is either sent and open, or snoozed again five minutes on; the rest of the
      table is untouched. */
  lemma SweepOutcome(items: seq<Item>, fails: set<nat>, now: real)
    ensures var r := Swept(items, fails, now);
            && |r| == |items|
            && forall i | 0 <= i < |items| ::
                 r[i] == if !HasCome(items[i].status, items[i].remindAt, now) then items[i]
                         else if i in fails then items[i].(status := Snoozed, remindAt := Some(now + 300.0), updated := now)
                         else items[i].(status := Open, remindAt := None, updated := now)
  {
    AfterDmsAt(Claimed(items, now, {}), DueIds(items, now, {}), fails, now);
  }

  /** After a sweep nothing is due, failed DMs included, and an item that was not snoozed, or not until `now`, is as
      it was. */
  lemma NothingStaysDue(items: seq<Item>, fails: set<nat>, now: real)
    ensures |Swept(items, fails, now)| == |items|
    ensures forall i | 0 <= i < |items| ::
              var r := Swept(items, fails, now)[i];
              && (r.status == Snoozed && r.remindAt.Some? ==> r.remindAt.value > now)
              && (items[i].status != Snoozed || items[i].remindAt == None || items[i].remindAt.value > now ==> r == items[i])
  {
    SweepOutcome(items, fails, now);
  }

  /** The table after the DMs for `ids` have gone out or been undone. */
  function AfterDms(items: seq<Item>, ids: seq<nat>, fails: set<nat>, now: real): (r: seq<Item>)
    ensures |r| == |items|
  {
    if ids == [] then items
    else
      var id, r := ids[|ids| - 1], AfterDms(items, ids[..|ids| - 1], fails, now);
      if id in fails && id < |r| then r[id := r[id].SnoozedUntil(now + RETRY_DELAY, now)] else r
  }

  lemma {:induction false} AfterDmsAt(items: seq<Item>, ids: seq<nat>, fails: set<nat>, now: real)
    ensures forall i | 0 <= i < |items| ::
              AfterDms(items, ids, fails, now)[i] ==
              if i in ids && i in fails then items[i].SnoozedUntil(now + RETRY_DELAY, now) else items[i]
  {
    if ids != [] {
      AfterDmsAt(items, ids[..|ids| - 1], fails, now);
      assert ids == ids[..|ids| - 1] + [ids[|ids| - 1]];
    }
  }

  /** How many of these are sent. */
  function Delivered(ids: seq<nat>, fails: set<nat>): nat {
    if ids == [] then 0 else Delivered(ids[..|ids| - 1], fails) + if ids[|ids| - 1] in fails then 0 else 1
  }

  // ---- many sweepers and users at once ----

  /** A sweeper owns the items it has claimed and not yet dealt with. */
  datatype Sweeper =
    | Resting
    | Sending(batch: seq<nat>, now: real)            // the DM for batch[0] is next
    | Undoing(batch: seq<nat>, now: real)            // the DM for batch[0] raised, resnooze_item is next
  {
    function Owed(): seq<nat> { if Resting? then [] else batch }
  }

  /** Histories, one entry per item: reminders sent; times it was armed (created snoozed, or snoozed by its
      owner); and reminders that will never be sent, charged to what lost them. */
  datatype State = State(items: seq<Item>, sweepers: seq<Sweeper>, sent: seq<nat>, armed: seq<nat>, dropped: seq<nat>)

  const EMPTY := State([], [], [], [], [])

  datatype Event =
    | Add(userId: string, text: string, now: real, source: string, remindAt: Option<real>)
    | Complete(userId: string, id: nat, now: real)
    | Snooze(userId: string, id: nat, at: real, now: real)
    | StartSweeper
    | Claim(w: nat, now: real, locked: set<nat>)     // skipping whatever others have locked
    | SendOk(w: nat)
    | SendRaises(w: nat)
    | Resnooze(w: nat, now: real)
    | Crash(w: nat)

  function Bump(counts: seq<nat>, id: nat): seq<nat> {
    if id < |counts| then counts[id := counts[id] + 1] else counts
  }

  function Times(ids: seq<nat>, id: nat): nat { multiset(ids)[id] }

  predicate Enabled(s: State, e: Event) {
    match e
    case Add(_, _, _, _, _) => true
    case Complete(user, id, _) => Owns(s.items, user, id)
    case Snooze(user, id, _, _) => Owns(s.items, user, id)
    case StartSweeper => true
    case Claim(w, _, _) => w < |s.sweepers| && s.sweepers[w].Owed() == []
    case SendOk(w) => w < |s.sweepers| && s.sweepers[w].Sending? && s.sweepers[w].batch != []
    case SendRaises(w) => w < |s.sweepers| && s.sweepers[w].Sending? && s.sweepers[w].batch != []
    case Resnooze(w, _) => w < |s.sweepers| && s.sweepers[w].Undoing? && s.sweepers[w].batch != []
    case Crash(w) => w < |s.sweepers|
  }

  function Effect(s: State, e: Event): State
    requires Enabled(s, e)
  {
    match e
    case Add(user, text, now, source, remindAt) =>
      State(s.items + [NewItem(user, text, source, remindAt, now)], s.sweepers,
            s.sent + [0], s.armed + [if remindAt.Some? then 1 else 0], s.dropped + [0])
    case Complete(_, id, now) =>
      s.(items := s.items[id := s.items[id].(status := Done, updated := now)],
         dropped := if s.items[id].status.Snoozed? then Bump(s.dropped, id) else s.dropped)
    case Snooze(_, id, at, now) =>
      s.(items := s.items[id := s.items[id].SnoozedUntil(at, now)], armed := Bump(s.armed, id),
         dropped := if s.items[id].status.Snoozed? then Bump(s.dropped, id) else s.dropped)
    case StartSweeper => s.(sweepers := s.sweepers + [Resting])
    case Claim(w, now, locked) =>
      s.(items := Claimed(s.items, now, locked),
         sweepers := s.sweepers[w := Sending(DueIds(s.items, now, locked), now)])
    case SendOk(w) =>
      var sw := s.sweepers[w];
      s.(sweepers := s.sweepers[w := Sending(sw.batch[1..], sw.now)], sent := Bump(s.sent, sw.batch[0]))
    case SendRaises(w) => s.(sweepers := s.sweepers[w := Undoing(s.sweepers[w].batch, s.sweepers[w].now)])
    case Resnooze(w, now) =>
      var sw := s.sweepers[w];
      var id := sw.batch[0];
      var rest := s.(sweepers := s.sweepers[w := Sending(sw.batch[1..], sw.now)]);
      if id < |s.items| then
        rest.(items := s.items[id := s.items[id].SnoozedUntil(sw.now + RETRY_DELAY, now)],
              dropped := if s.items[id].status.Snoozed? then Bump(s.dropped, id) else s.dropped)
      else rest
    case Crash(w) =>
      s.(sweepers := s.sweepers[w := Resting],
         dropped := seq(|s.dropped|, i requires 0 <= i < |s.dropped| => s.dropped[i] + Times(s.sweepers[w].Owed(), i)))
  }

  function Do(s: State, e: Event): State { if Enabled(s, e) then Effect(s, e) else s }

  function Exec(s: State, events: seq<Event>): State {
    if events == [] then s else Do(Exec(s, events[..|events| - 1]), events[|events| - 1])
  }

  /** Claims of an item that no sweeper has dealt with yet. */
  function InFlight(sweepers: seq<Sweeper>, id: nat): nat {
    if sweepers == [] then 0
    else InFlight(sweepers[..|sweepers| - 1], id) + Times(sweepers[|sweepers| - 1].Owed(), id)
  }

  lemma {:induction false} InFlightMove(sweepers: seq<Sweeper>, w: nat, sweeper: Sweeper, id: nat)
    requires w < |sweepers|
    ensures InFlight(sweepers[w := sweeper], id) ==
            InFlight(sweepers, id) - Times(sweepers[w].Owed(), id) + Times(sweeper.Owed(), id)
  {
    var n := |sweepers| - 1;
    ReplacedButLast(sweepers, w, sweeper);
    if w != n {
      InFlightMove(sweepers[..n], w, sweeper, id);
    }
  }

  lemma ReplacedButLast(sweepers: seq<Sweeper>, w: nat, sweeper: Sweeper)
    requires w < |sweepers|
    ensures var n := |sweepers| - 1;
            && sweepers[w := sweeper][..n] == (if w == n then sweepers[..n] else sweepers[..n][w := sweeper])
            && sweepers[w := sweeper][n] == (if w == n then sweeper else sweepers[n])
            && (w != n ==> sweepers[..n][w] == sweepers[w])
  {
  }

  lemma {:induction false} InFlightUnknown(sweepers: seq<Sweeper>, id: nat)
    requires forall w | 0 <= w < |sweepers| :: id !in sweepers[w].Owed()
    ensures InFlight(sweepers, id) == 0
  {
    if sweepers != [] { InFlightUnknown(sweepers[..|sweepers| - 1], id); }
  }

  lemma {:induction false} TimesIncreasing(ids: seq<nat>, id: nat)
    requires forall a, b | 0 <= a < b < |ids| :: ids[a] < ids[b]
    ensures Times(ids, id) == if id in ids then 1 else 0
  {
    if ids != [] {
      var n := |ids| - 1;
      TimesIncreasing(ids[..n], id);
      assert ids == ids[..n] + [ids[n]];
    }
  }

  lemma TimesHead(ids: seq<nat>, id: nat)
    requires ids != []
    ensures Times(ids, id) == Times(ids[1..], id) + if ids[0] == id then 1 else 0
  {
    assert ids == [ids[0]] + ids[1..];
  }

  /** Every arming of an item is accounted for: sent, on its way, still waiting, or dropped. */
  ghost predicate Accounted(s: State, id: nat)
    requires id < |s.items| && |s.sent| == |s.armed| == |s.dropped| == |s.items|
  {
    s.sent[id] + InFlight(s.sweepers, id) + (if s.items[id].status.Snoozed? then 1 else 0) + s.dropped[id] == s.armed[id]
  }

  ghost predicate Inv(s: State) {
    && |s.sent| == |s.armed| == |s.dropped| == |s.items|
    && (forall w | 0 <= w < |s.sweepers| :: forall id | id in s.sweepers[w].Owed() :: id < |s.items|)
    && (forall id | 0 <= id < |s.items| :: Accounted(s, id))
  }

  lemma SameLengths(s: State, e: Event)
    requires Inv(s) && Enabled(s, e)
    ensures var s' := Effect(s, e); |s'.sent| == |s'.armed| == |s'.dropped| == |s'.items| >= |s.items|
  {
  }

  lemma EditAccounts(s: State, e: Event, id: nat)
    requires Inv(s) && Enabled(s, e) && id < |s.items| && (e.Add? || e.Complete? || e.Snooze? || e.StartSweeper?)
    ensures Accounted(Effect(s, e), id)
  {
    assert Accounted(s, id);
    if e.StartSweeper? { assert Effect(s, e).sweepers[..|s.sweepers|] == s.sweepers; }
  }

  lemma ClaimAccounts(s: State, e: Event, id: nat)
    requires Inv(s) && Enabled(s, e) && id < |s.items| && (e.Claim? || e.SendRaises? || e.Crash?)
    ensures Accounted(Effect(s, e), id)
  {
    assert Accounted(s, id);
    InFlightMove(s.sweepers, e.w, Effect(s, e).sweepers[e.w], id);
    if e.Claim? { TimesIncreasing(DueIds(s.items, e.now, e.locked), id); }
  }

  lemma SendAccounts(s: State, e: Event, id: nat)
    requires Inv(s) && Enabled(s, e) && id < |s.items| && (e.SendOk? || e.Resnooze?)
    ensures Accounted(Effect(s, e), id)
  {
    assert Accounted(s, id);
    InFlightMove(s.sweepers, e.w, Effect(s, e).sweepers[e.w], id);
    TimesHead(s.sweepers[e.w].batch, id);
    assert s.sweepers[e.w].batch[0] in s.sweepers[e.w].Owed();
  }

  lemma StepAccounts(s: State, e: Event, id: nat)
    requires Inv(s) && Enabled(s, e) && id < |s.items|
    ensures |Effect(s, e).sent| == |Effect(s, e).armed| == |Effect(s, e).dropped| == |Effect(s, e).items| >= |s.items|
    ensures Accounted(Effect(s, e), id)
  {
    SameLengths(s, e);
    if e.SendOk? || e.Resnooze? {
      SendAccounts(s, e, id);
    } else if e.Claim? || e.SendRaises? || e.Crash? {
      ClaimAccounts(s, e, id);
    } else {
      EditAccounts(s, e, id);
    }
  }

  lemma InvStep(s: State, e: Event)
    requires Inv(s)
    ensures Inv(Do(s, e))
  {
    if Enabled(s, e) {
      var s' := Effect(s, e);
      forall id | 0 <= id < |s.items| ensures id < |s'.items| && |s'.sent| == |s'.armed| == |s'.dropped| == |s'.items| && Accounted(s', id) {
        StepAccounts(s, e, id);
      }
      if e.Add? {
        InFlightUnknown(s.sweepers, |s.items|);
        assert Accounted(s', |s.items|);
      }
      forall w | 0 <= w < |s'.sweepers|, id | id in s'.sweepers[w].Owed() ensures id < |s'.items| {
        if w < |s.sweepers| && !e.Claim? {
          assert id in s.sweepers[w].Owed() ==> id < |s.items|;
        }
      }
    }
  }

  lemma {:induction false} InvExec(s: State, events: seq<Event>)
    requires Inv(s)
    ensures Inv(Exec(s, events))
  {
    if events != [] {
      InvExec(s, events[..|events| - 1]);
      InvStep(Exec(s, events[..|events| - 1]), events[|events| - 1]);
    }
  }

  /** What loses a reminder: its sweeper dies, its owner completes or re-snoozes the item while it is
      snoozed, or a failed DM is undone on top of a snooze its owner has set meanwhile. Nothing else. */
  predicate Loses(s: State, e: Event, id: nat)
    requires id < |s.items|
  {
    || (e.Crash? && Enabled(s, e) && id in s.sweepers[e.w].Owed())
    || ((e.Complete? || e.Snooze?) && Enabled(s, e) && e.id == id && s.items[id].status.Snoozed?)
    || (e.Resnooze? && Enabled(s, e) && s.sweepers[e.w].batch[0] == id && s.items[id].status.Snoozed?)
  }

  lemma DroppedExactlyWhenLost(s: State, e: Event, id: nat)
    requires Inv(s) && id < |s.items|
    ensures id < |Do(s, e).dropped| && Do(s, e).dropped[id] >= s.dropped[id]
    ensures Do(s, e).dropped[id] > s.dropped[id] <==> Loses(s, e, id)
  {
    if Enabled(s, e) { StepAccounts(s, e, id); }
  }

  /** No step of the run loses a reminder of this item. */
  predicate LosesNone(events: seq<Event>, id: nat) {
    events == [] ||
    var before := events[..|events| - 1];
    LosesNone(before, id) && (id < |Exec(EMPTY, before).items| ==> !Loses(Exec(EMPTY, before), events[|events| - 1], id))
  }

  lemma {:induction false} NothingLostBefore(events: seq<Event>, id: nat)
    requires id >= |Exec(EMPTY, events).items|
    ensures LosesNone(events, id)
  {
    if events != [] {
      var before := events[..|events| - 1];
      InvExec(EMPTY, before);
      if Enabled(Exec(EMPTY, before), events[|events| - 1]) { SameLengths(Exec(EMPTY, before), events[|events| - 1]); }
      NothingLostBefore(before, id);
    }
  }

  lemma {:induction false} DroppedOverRun(events: seq<Event>, id: nat)
    requires id < |Exec(EMPTY, events).items|
    ensures Inv(Exec(EMPTY, events)) && (Exec(EMPTY, events).dropped[id] == 0 <==> LosesNone(events, id))
  {
    InvExec(EMPTY, events);
    var before, e := events[..|events| - 1], events[|events| - 1];
    InvExec(EMPTY, before);
    if id < |Exec(EMPTY, before).items| {
      DroppedOverRun(before, id);
      DroppedExactlyWhenLost(Exec(EMPTY, before), e, id);
    } else {
      NothingLostBefore(before, id);
    }
  }

  /** Over every run, reminders sent plus reminders in flight plus the one a snooze still holds never
      exceed the times the item was armed; they are equal exactly when no step of the run loses one. */
  lemma RemindersAreConserved(events: seq<Event>, id: nat)
    requires id < |Exec(EMPTY, events).items|
    ensures var s := Exec(EMPTY, events);
            && |s.sent| == |s.armed| == |s.dropped| == |s.items|
            && var out := s.sent[id] + InFlight(s.sweepers, id) + (if s.items[id].status.Snoozed? then 1 else 0);
               out <= s.armed[id] && (out == s.armed[id] <==> LosesNone(events, id)) && out + s.dropped[id] == s.armed[id]
  {
    DroppedOverRun(events, id);
    assert Accounted(Exec(EMPTY, events), id);
  }

  predicate SnoozedByOwner(s: State, e: Event, id: nat) { e.Snooze? && e.id == id && Enabled(s, e) }

  ghost predicate NoSnooze(s: State, events: seq<Event>, id: nat) {
    forall k | 0 <= k < |events| :: !SnoozedByOwner(Exec(s, events[..k]), events[k], id)
  }

  lemma {:induction false} ArmedOnlyBySnooze(s: State, events: seq<Event>, id: nat)
    requires Inv(s) && id < |s.items| && NoSnooze(s, events, id)
    ensures Inv(Exec(s, events)) && |s.items| <= |Exec(s, events).items|
    ensures Exec(s, events).armed[id] == s.armed[id] && Exec(s, events).dropped[id] >= s.dropped[id]
  {
    if events != [] {
      var n := |events| - 1;
      var mid := Exec(s, events[..n]);
      forall k | 0 <= k < n ensures !SnoozedByOwner(Exec(s, events[..n][..k]), events[..n][k], id) {
        assert events[..n][..k] == events[..k];
      }
      ArmedOnlyBySnooze(s, events[..n], id);
      InvStep(mid, events[n]);
      DroppedExactlyWhenLost(mid, events[n], id);
      assert !SnoozedByOwner(mid, events[n], id);
      if Enabled(mid, events[n]) { StepAccounts(mid, events[n], id); }
    }
  }

  /** Without a new snooze by its owner an item is reminded of at most once for each claim in flight and
      once for the snooze it still has: in particular a completed item with no claim in flight never again. */
  lemma NoReminderWithoutSnooze(s: State, more: seq<Event>, id: nat)
    requires Inv(s) && id < |s.items| && NoSnooze(s, more, id)
    ensures Inv(Exec(s, more)) && id < |Exec(s, more).items|
    ensures Exec(s, more).sent[id] <= s.sent[id] + InFlight(s.sweepers, id) + if s.items[id].status.Snoozed? then 1 else 0
  {
    ArmedOnlyBySnooze(s, more, id);
    assert Accounted(s, id) && Accounted(Exec(s, more), id);
  }

  /** A completed item stays completed through every step except its owner's snooze and the undo of a
      DM that failed after the item had been claimed: resnooze_item does not look at the status. */
  lemma DoneStaysDoneExactly(s: State, e: Event, id: nat)
    requires Inv(s) && id < |s.items| && s.items[id].status.Done?
    ensures id < |Do(s, e).items|
    ensures Do(s, e).items[id].status.Done? <==>
              !(SnoozedByOwner(s, e, id) || (e.Resnooze? && Enabled(s, e) && s.sweepers[e.w].batch[0] == id))
  {
    if Enabled(s, e) { StepAccounts(s, e, id); }
  }

  // ---- what one step does to one item ----

  /** The steps that write to an item, and nothing else does: its owner completes or snoozes it, a sweeper claims it
      once its snooze is over, or puts it back to sleep for five minutes after its DM has failed. */
  lemma ItemStep(s: State, e: Event, id: nat)
    requires id < |s.items|
    ensures id < |Do(s, e).items|
    ensures var item, item' := s.items[id], Do(s, e).items[id];
            match e
            case Complete(user, i, now) => item' == if i == id && item.userId == user then item.(status := Done, updated := now) else item
            case Snooze(user, i, at, now) =>
              item' == if i == id && item.userId == user then item.(status := Snoozed, remindAt := Some(at), updated := now) else item
            case Claim(w, now, locked) =>
              item' == if w < |s.sweepers| && s.sweepers[w].Owed() == [] && id !in locked && HasCome(item.status, item.remindAt, now)
                       then item.(status := Open, remindAt := None, updated := now) else item
            case Resnooze(w, now) =>
              item' == if w < |s.sweepers| && s.sweepers[w].Undoing? && s.sweepers[w].batch != [] && s.sweepers[w].batch[0] == id
                       then item.(status := Snoozed, remindAt := Some(s.sweepers[w].now + 300.0), updated := now) else item
            case _ => item' == item
  {
  }

  /** A new item is asleep exactly when it was created with a time. */
  lemma NewItemIs(s: State, userId: string, text: string, now: real, source: string, remindAt: Option<real>)
    ensures Do(s, Add(userId, text, now, source, remindAt)).items
         == s.items + [Item(userId, text, if remindAt == None then Open else Snoozed, remindAt, source, now, now)]
  {
  }

  /** When a reminder counts as sent, and when an item as armed. */
  lemma HistoryStep(s: State, e: Event, id: nat)
    requires Inv(s) && id < |s.items|
    ensures id < |Do(s, e).sent| && id < |Do(s, e).armed|
    ensures Do(s, e).sent[id] == s.sent[id] +
              if e.SendOk? && e.w < |s.sweepers| && s.sweepers[e.w].Sending? && s.sweepers[e.w].batch != [] && s.sweepers[e.w].batch[0] == id
              then 1 else 0
    ensures Do(s, e).armed[id] == s.armed[id] + if e.Snooze? && e.id == id && s.items[id].userId == e.userId then 1 else 0
  {
  }

  /** Sweeper w has claimed the item at step m, when its snooze was over. */
  ghost predicate ClaimedDue(events: seq<Event>, m: nat, w: nat, id: nat)
    requires m < |events|
  {
    var s := Exec(EMPTY, events[..m]);
    && events[m].Claim? && events[m].w == w && id < |s.items| && id !in events[m].locked
    && s.items[id].status == Snoozed && s.items[id].remindAt.Some? && s.items[id].remindAt.value <= events[m].now
  }

  lemma ClaimedEarlier(events: seq<Event>, m: nat, w: nat, id: nat)
    requires events != [] && m < |events| - 1 && ClaimedDue(events[..|events| - 1], m, w, id)
    ensures ClaimedDue(events, m, w, id)
  {
    assert events[..|events| - 1][..m] == events[..m];
  }

  lemma OwedBefore(s: State, e: Event, w: nat, id: nat)
    requires w < |Do(s, e).sweepers| && id in Do(s, e).sweepers[w].Owed()
    ensures (w < |s.sweepers| && id in s.sweepers[w].Owed())
         || (e.Claim? && e.w == w && id < |s.items| && id !in e.locked && HasCome(s.items[id].status, s.items[id].remindAt, e.now))
  {
  }

  /** Whatever a sweeper still has to send was due when that sweeper claimed it: nobody is reminded early, and no DM
      goes out for an item that was not snoozed. */
  lemma {:induction false} NobodyIsRemindedEarly(events: seq<Event>, w: nat, id: nat)
    requires w < |Exec(EMPTY, events).sweepers| && id in Exec(EMPTY, events).sweepers[w].Owed()
    ensures exists m | 0 <= m < |events| :: ClaimedDue(events, m, w, id)
  {
    var n := |events| - 1;
    var s := Exec(EMPTY, events[..n]);
    OwedBefore(s, events[n], w, id);
    if w < |s.sweepers| && id in s.sweepers[w].Owed() {
      NobodyIsRemindedEarly(events[..n], w, id);
      var m :| 0 <= m < n && ClaimedDue(events[..n], m, w, id);
      ClaimedEarlier(events, m, w, id);
    } else {
      assert ClaimedDue(events, n, w, id);
    }
  }

  /** The race itself: a due item is claimed, completed by its owner, its DM fails, and the undo puts it
      back to sleep, to be reminded of again. */
  lemma CompletionCanBeUndone(s: State, w: nat, id: nat, now: real, doneAt: real, undoneAt: real)
    requires Inv(s) && w < |s.sweepers| && s.sweepers[w].Resting?
    requires DueIds(s.items, now, {}) != [] && DueIds(s.items, now, {})[0] == id
    ensures id < |s.items|
    ensures var claimed := Do(s, Claim(w, now, {}));
            var completed := Do(claimed, Complete(s.items[id].userId, id, doneAt));
            var undone := Do(Do(completed, SendRaises(w)), Resnooze(w, undoneAt));
            && |undone.items| == |completed.items| == |s.items|
            && completed.items[id].status.Done?
            && undone.items[id].status.Snoozed? && undone.items[id].remindAt == Some(now + RETRY_DELAY)
  {
    assert id in DueIds(s.items, now, {});
    var claimed := Do(s, Claim(w, now, {}));
    assert claimed.sweepers[w] == Sending(DueIds(s.items, now, {}), now) && claimed.items[id].userId == s.items[id].userId;
    var completed := Do(claimed, Complete(s.items[id].userId, id, doneAt));
    assert completed.sweepers == claimed.sweepers && completed.items[id].status.Done?;
    var raised := Do(completed, SendRaises(w));
    assert raised.sweepers[w] == Undoing(DueIds(s.items, now, {}), now) && raised.items == completed.items;
  }

  /** Nobody edits another user's items: an edit under the wrong user changes nothing. */
  lemma EditsAreScoped(s: State, e: Event)
    requires (e.Complete? || e.Snooze?) && e.id < |s.items|
    ensures Do(s, e).items != s.items ==> s.items[e.id].userId == e.userId
    ensures forall i | 0 <= i < |s.items| && i != e.id :: i < |Do(s, e).items| && Do(s, e).items[i] == s.items[i]
  {
  }
}
