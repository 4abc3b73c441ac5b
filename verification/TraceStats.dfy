/** The review-trace aggregates (shared/persistence/records.py): counts per week, per verdict, and per both. */
module TraceStats {
  import opened Wrappers

  /** The schema declares `created` NOT NULL; the loops skip a NULL anyway, so it is optional here. */
  datatype Trace = Trace(created: Option<real>, verdict: Option<string>)

  type Counts = map<string, nat>

  function At(m: Counts, k: string): nat { if k in m then m[k] else 0 }

  function Bump(m: Counts, k: string): Counts { m[k := At(m, k) + 1] }

  /** `verdict or "unknown"`. */
  function Label(verdict: Option<string>): string {
    if verdict.None? || verdict.value == "" then "unknown" else verdict.value
  }

  predicate InWindow(t: Trace, since: Option<real>) {
    since.None? || (t.created.Some? && t.created.value >= since.value)
  }

  /** `WHERE created >= :since`, when a cutoff is given. */
  function Window(rows: seq<Trace>, since: Option<real>): seq<Trace> {
    if rows == [] then []
    else
      var before, last := Window(rows[..|rows| - 1], since), rows[|rows| - 1];
      if InWindow(last, since) then before + [last] else before
  }

  // ---- the two bucketings; `week` names the ISO week of an instant ----

  function ByWeek(rows: seq<Trace>, week: real -> string): Counts {
    if rows == [] then map[]
    else
      var before, last := ByWeek(rows[..|rows| - 1], week), rows[|rows| - 1];
      if last.created.None? then before else Bump(before, week(last.created.value))
  }

  function BumpIn(m: map<string, Counts>, w: string, v: string): map<string, Counts> {
    m[w := Bump(if w in m then m[w] else map[], v)]
  }

  function ByWeekVerdict(rows: seq<Trace>, week: real -> string): map<string, Counts> {
    if rows == [] then map[]
    else
      var before, last := ByWeekVerdict(rows[..|rows| - 1], week), rows[|rows| - 1];
      if last.created.None? then before
      else BumpIn(before, week(last.created.value), Label(last.verdict))
  }

  /** Rows that satisfy a condition. */
  function Count(rows: seq<Trace>, p: Trace -> bool): nat {
    if rows == [] then 0 else Count(rows[..|rows| - 1], p) + (if p(rows[|rows| - 1]) then 1 else 0)
  }

  // ---- sums over a map ----

  ghost function Sum(m: Counts): nat {
    if m == map[] then 0 else var k :| k in m; m[k] + Sum(m - {k})
  }

  lemma {:induction false} SumWithout(m: Counts, k: string)
    requires k in m
    ensures Sum(m) == m[k] + Sum(m - {k})
    decreases |m|
  {
    var first :| first in m && Sum(m) == m[first] + Sum(m - {first});
    if first != k {
      SumWithout(m - {first}, k);
      SumWithout(m - {k}, first);
      assert m - {first} - {k} == m - {k} - {first};
    }
  }

  lemma SumPut(m: Counts, k: string, n: nat)
    ensures Sum(m[k := n]) == Sum(m) - At(m, k) + n
  {
    SumWithout(m[k := n], k);
    if k in m {
      SumWithout(m, k);
      assert m[k := n] - {k} == m - {k};
    } else {
      assert m[k := n] - {k} == m;
    }
  }

  /** One verdict's column of the table of weeks and verdicts. */
  function Column(table: map<string, Counts>, v: string): Counts { map w | w in table :: At(table[w], v) }

  /** One total per week. */
  ghost function Totals(table: map<string, Counts>): Counts { map w | w in table :: Sum(table[w]) }

  // ---- the margins ----

  function Dated(rows: seq<Trace>): nat { Count(rows, (t: Trace) => t.created.Some?) }

  function Labelled(rows: seq<Trace>, v: string): nat {
    Count(rows, (t: Trace) => t.created.Some? && Label(t.verdict) == v)
  }

  function InCell(rows: seq<Trace>, week: real -> string, w: string, v: string): nat {
    Count(rows, (t: Trace) => t.created.Some? && week(t.created.value) == w && Label(t.verdict) == v)
  }

  lemma BumpInTotals(table: map<string, Counts>, w: string, v: string)
    ensures Totals(BumpIn(table, w, v)) == Bump(Totals(table), w)
  {
    var cells := if w in table then table[w] else map[];
    SumPut(cells, v, At(cells, v) + 1);
  }

  lemma BumpInColumn(table: map<string, Counts>, w: string, v: string, u: string)
    ensures Sum(Column(BumpIn(table, w, v), u)) == Sum(Column(table, u)) + (if u == v then 1 else 0)
  {
    var column := Column(table, u);
    var n := At(column, w) + (if u == v then 1 else 0);
    assert Column(BumpIn(table, w, v), u) == column[w := n];
    SumPut(column, w, n);
  }

  /** Adding up a week's verdicts gives exactly the weekly count. */
  lemma {:induction false} WeekMargin(rows: seq<Trace>, week: real -> string)
    ensures Totals(ByWeekVerdict(rows, week)) == ByWeek(rows, week)
  {
    if rows != [] {
      var last := rows[|rows| - 1];
      WeekMargin(rows[..|rows| - 1], week);
      if last.created.Some? {
        BumpInTotals(ByWeekVerdict(rows[..|rows| - 1], week), week(last.created.value), Label(last.verdict));
      }
    }
  }

  /** Adding up the weekly counts gives the number of dated rows. */
  lemma {:induction false} WeekTotal(rows: seq<Trace>, week: real -> string)
    ensures Sum(ByWeek(rows, week)) == Dated(rows)
  {
    if rows != [] {
      var before, last := ByWeek(rows[..|rows| - 1], week), rows[|rows| - 1];
      WeekTotal(rows[..|rows| - 1], week);
      if last.created.Some? {
        SumPut(before, week(last.created.value), At(before, week(last.created.value)) + 1);
      }
    }
  }

  /** Adding up a verdict over the weeks gives the number of dated rows with that label. */
  lemma {:induction false} VerdictMargin(rows: seq<Trace>, week: real -> string, v: string)
    ensures Sum(Column(ByWeekVerdict(rows, week), v)) == Labelled(rows, v)
  {
    if rows == [] {
      assert Column(map[], v) == map[];
    } else {
      var last := rows[|rows| - 1];
      VerdictMargin(rows[..|rows| - 1], week, v);
      if last.created.Some? {
        BumpInColumn(ByWeekVerdict(rows[..|rows| - 1], week), week(last.created.value), Label(last.verdict), v);
      }
    }
  }

  /** Each cell counts the rows of its week and verdict. */
  lemma {:induction false} CellsCount(rows: seq<Trace>, week: real -> string, w: string, v: string)
    ensures var table := ByWeekVerdict(rows, week);
            At(if w in table then table[w] else map[], v) == InCell(rows, week, w, v)
  {
    if rows != [] {
      CellsCount(rows[..|rows| - 1], week, w, v);
    }
  }

  // ---- GROUP BY final_verdict, and the dictionary built from it ----

  datatype Group = Group(verdict: Option<string>, count: nat)

  function OfVerdict(rows: seq<Trace>, verdict: Option<string>): nat {
    Count(rows, (t: Trace) => t.verdict == verdict)
  }

  /** What the query may return: one group for each verdict present, NULL among them, largest first, ties in
      any order. */
  ghost predicate IsGrouping(rows: seq<Trace>, groups: seq<Group>) {
    && (forall i, j | 0 <= i < j < |groups| :: groups[i].verdict != groups[j].verdict && groups[i].count >= groups[j].count)
    && (forall i | 0 <= i < |groups| :: groups[i].count == OfVerdict(rows, groups[i].verdict) > 0)
    && (forall t | t in rows :: exists i | 0 <= i < |groups| :: groups[i].verdict == t.verdict)
  }

  /** `{(row[0] or "unknown"): int(row[1]) for row in verdict_rows}`: a later group overwrites an earlier one. */
  function ByVerdict(groups: seq<Group>): Counts {
    if groups == [] then map[]
    else
      var last := groups[|groups| - 1];
      ByVerdict(groups[..|groups| - 1])[Label(last.verdict) := last.count]
  }

  /** The group a dictionary key ends up with: the last one with that label. */
  lemma {:induction false} LastGroupWins(groups: seq<Group>, k: nat)
    requires k < |groups|
    requires forall j | k < j < |groups| :: Label(groups[j].verdict) != Label(groups[k].verdict)
    ensures At(ByVerdict(groups), Label(groups[k].verdict)) == groups[k].count
  {
    if k < |groups| - 1 {
      var before := groups[..|groups| - 1];
      assert before[k] == groups[k];
      LastGroupWins(before, k);
    }
  }

  lemma {:induction false} NoGroup(groups: seq<Group>, v: string)
    requires forall j | 0 <= j < |groups| :: Label(groups[j].verdict) != v
    ensures v !in ByVerdict(groups)
  {
    if groups != [] {
      NoGroup(groups[..|groups| - 1], v);
    }
  }

  /** Two rows with different raw verdicts share a label. */
  predicate Collapses(rows: seq<Trace>) {
    exists t, u | t in rows && u in rows :: t.verdict != u.verdict && Label(t.verdict) == Label(u.verdict)
  }

  function HasLabel(rows: seq<Trace>, v: string): nat { Count(rows, (t: Trace) => Label(t.verdict) == v) }

  lemma {:induction false} CountSplits(rows: seq<Trace>, verdict: Option<string>)
    ensures HasLabel(rows, Label(verdict)) >= OfVerdict(rows, verdict)
    ensures HasLabel(rows, Label(verdict)) == OfVerdict(rows, verdict) <==>
              forall t | t in rows :: Label(t.verdict) == Label(verdict) ==> t.verdict == verdict
  {
    if rows != [] {
      CountSplits(rows[..|rows| - 1], verdict);
      assert rows == rows[..|rows| - 1] + [rows[|rows| - 1]];
    }
  }

  lemma {:induction false} CountsNothing(rows: seq<Trace>, p: Trace -> bool)
    ensures Count(rows, p) == 0 <==> forall t | t in rows :: !p(t)
  {
    if rows != [] {
      CountsNothing(rows[..|rows| - 1], p);
      assert rows == rows[..|rows| - 1] + [rows[|rows| - 1]];
    }
  }

  /** The last group with a label, when some row has it. */
  lemma LastGroup(rows: seq<Trace>, groups: seq<Group>, v: string) returns (k: nat)
    requires IsGrouping(rows, groups) && HasLabel(rows, v) > 0
    ensures k < |groups| && Label(groups[k].verdict) == v
    ensures forall j | k < j < |groups| :: Label(groups[j].verdict) != v
  {
    CountsNothing(rows, (t: Trace) => Label(t.verdict) == v);
    var t :| t in rows && Label(t.verdict) == v;
    var i :| 0 <= i < |groups| && groups[i].verdict == t.verdict;
    k := i;
    var j := i;
    while j < |groups|
      invariant i <= k < |groups| && Label(groups[k].verdict) == v && k <= j <= |groups|
      invariant forall m | k < m < j :: Label(groups[m].verdict) != v
    {
      if Label(groups[j].verdict) == v { k := j; }
      j := j + 1;
    }
  }

  /** For one label the dictionary's count is the true count exactly when the label stands for one raw verdict. */
  lemma LabelCount(rows: seq<Trace>, groups: seq<Group>, v: string)
    requires IsGrouping(rows, groups)
    ensures At(ByVerdict(groups), v) <= HasLabel(rows, v)
    ensures At(ByVerdict(groups), v) == HasLabel(rows, v) <==> OneVerdict(rows, v)
  {
    CountsNothing(rows, (t: Trace) => Label(t.verdict) == v);
    if HasLabel(rows, v) == 0 {
      forall j | 0 <= j < |groups| ensures Label(groups[j].verdict) != v {
        GroupHasRow(rows, groups, j);
      }
      NoGroup(groups, v);
    } else {
      var k := LastGroup(rows, groups, v);
      LastGroupWins(groups, k);
      CountSplits(rows, groups[k].verdict);
      GroupHasRow(rows, groups, k);
    }
  }

  lemma GroupHasRow(rows: seq<Trace>, groups: seq<Group>, k: nat)
    requires IsGrouping(rows, groups) && k < |groups|
    ensures exists t | t in rows :: t.verdict == groups[k].verdict
  {
    CountsNothing(rows, (t: Trace) => t.verdict == groups[k].verdict);
  }

  lemma {:induction false} CountSame(rows: seq<Trace>, p: Trace -> bool, q: Trace -> bool)
    requires forall t | t in rows :: p(t) == q(t)
    ensures Count(rows, p) == Count(rows, q)
  {
    if rows != [] {
      assert forall t | t in rows[..|rows| - 1] :: t in rows;
      CountSame(rows[..|rows| - 1], p, q);
    }
  }

  lemma ColumnIsLabel(rows: seq<Trace>, week: real -> string, v: string)
    requires forall t | t in rows :: t.created.Some?
    ensures Sum(Column(ByWeekVerdict(rows, week), v)) == HasLabel(rows, v)
  {
    VerdictMargin(rows, week, v);
    CountSame(rows, (t: Trace) => t.created.Some? && Label(t.verdict) == v, (t: Trace) => Label(t.verdict) == v);
  }

  /** Rows with this label carry one raw verdict. */
  predicate OneVerdict(rows: seq<Trace>, v: string) {
    forall t, u | t in rows && u in rows && Label(t.verdict) == v && Label(u.verdict) == v :: t.verdict == u.verdict
  }

  lemma CollapsesSomewhere(rows: seq<Trace>)
    ensures Collapses(rows) <==> exists v :: !OneVerdict(rows, v)
    ensures forall v | v != "unknown" :: OneVerdict(rows, v)
  {
    if Collapses(rows) {
      var t, u :| t in rows && u in rows && t.verdict != u.verdict && Label(t.verdict) == Label(u.verdict);
      assert !OneVerdict(rows, Label(t.verdict));
    }
  }

  /** The verdict margin of the weekly table is what the dictionary says of this label. */
  ghost predicate Agrees(rows: seq<Trace>, groups: seq<Group>, week: real -> string, v: string) {
    Sum(Column(ByWeekVerdict(rows, week), v)) == At(ByVerdict(groups), v)
  }

  lemma AgreesExactly(rows: seq<Trace>, groups: seq<Group>, week: real -> string, v: string)
    requires IsGrouping(rows, groups) && forall t | t in rows :: t.created.Some?
    ensures Agrees(rows, groups, week, v) <==> OneVerdict(rows, v)
  {
    ColumnIsLabel(rows, week, v);
    LabelCount(rows, groups, v);
  }

  /** The per-verdict dictionary is the verdict margin of the weekly table exactly when no two raw verdicts share
      a label; since only NULL, "" and "unknown" can, every other verdict always agrees. */
  lemma VerdictsAgreeExactly(rows: seq<Trace>, groups: seq<Group>, week: real -> string)
    requires IsGrouping(rows, groups) && forall t | t in rows :: t.created.Some?
    ensures (forall v :: Agrees(rows, groups, week, v)) <==> !Collapses(rows)
    ensures forall v | v != "unknown" :: Agrees(rows, groups, week, v)
  {
    CollapsesSomewhere(rows);
    forall v | OneVerdict(rows, v) ensures Agrees(rows, groups, week, v) {
      AgreesExactly(rows, groups, week, v);
    }
    if Collapses(rows) {
      var v :| !OneVerdict(rows, v);
      AgreesExactly(rows, groups, week, v);
    }
  }

  lemma CountTwo(a: Trace, b: Trace, p: Trace -> bool)
    ensures Count([a, b], p) == (if p(a) then 1 else 0) + (if p(b) then 1 else 0)
  {
    assert [a, b][..1] == [a] && [a][..0] == [];
    assert Count([a], p) == Count([a][..0], p) + (if p(a) then 1 else 0);
  }

  /** One row without a verdict and one whose verdict is "unknown": the dictionary counts one of them, the weekly
      table both. */
  lemma GroupsAreOverwritten(created: real, week: real -> string)
    ensures var rows := [Trace(Some(created), None), Trace(Some(created), Some("unknown"))];
            var groups := [Group(None, 1), Group(Some("unknown"), 1)];
            && IsGrouping(rows, groups) && ByVerdict(groups) == map["unknown" := 1]
            && Sum(Column(ByWeekVerdict(rows, week), "unknown")) == 2
  {
    var none, unknown := Trace(Some(created), None), Trace(Some(created), Some("unknown"));
    var rows, groups := [none, unknown], [Group(None, 1), Group(Some("unknown"), 1)];
    CountTwo(none, unknown, (t: Trace) => t.verdict == None);
    CountTwo(none, unknown, (t: Trace) => t.verdict == Some("unknown"));
    assert OfVerdict(rows, None) == 1 && OfVerdict(rows, Some("unknown")) == 1;
    assert groups[0].verdict == none.verdict && groups[1].verdict == unknown.verdict;
    assert groups[..1] == [Group(None, 1)] && [Group(None, 1)][..0] == [];
    assert ByVerdict([Group(None, 1)]) == map["unknown" := 1];
    ColumnIsLabel(rows, week, "unknown");
    CountTwo(none, unknown, (t: Trace) => Label(t.verdict) == "unknown");
  }

  /** Verdicts NULL and "" are shown as "unknown", and every other one as itself; so two rows collapse exactly when two
      of NULL, "" and "unknown" occur. */
  lemma CollapsesExactly(rows: seq<Trace>)
    ensures Collapses(rows) <==>
              exists t, u | t in rows && u in rows ::
                t.verdict != u.verdict && t.verdict in {None, Some(""), Some("unknown")} && u.verdict in {None, Some(""), Some("unknown")}
    ensures forall t | t in rows :: t.verdict !in {None, Some("")} ==> Some(Label(t.verdict)) == t.verdict
    ensures Label(None) == Label(Some("")) == "unknown"
  {
  }

  /** The cutoff keeps, in order, the rows created at or after it, and all rows if there is none. */
  lemma {:induction false} WindowExactly(rows: seq<Trace>, since: Option<real>)
    ensures since == None ==> Window(rows, since) == rows
    ensures forall t :: multiset(Window(rows, since))[t] ==
              if since == None || (t.created != None && !(t.created.value < since.value)) then multiset(rows)[t] else 0
  {
    if rows != [] {
      var before, last := rows[..|rows| - 1], rows[|rows| - 1];
      WindowExactly(before, since);
      assert rows == before + [last];
    }
  }

  /** Splitting the table in two, the window is that of the first part followed by that of the second. */
  lemma {:induction false} WindowConcat(a: seq<Trace>, b: seq<Trace>, since: Option<real>)
    ensures Window(a + b, since) == Window(a, since) + Window(b, since)
  {
    if b == [] {
      assert a + b == a;
    } else {
      assert (a + b)[..|a + b| - 1] == a + b[..|b| - 1];
      WindowConcat(a, b[..|b| - 1], since);
    }
  }

  // ---- row order does not matter ----

  lemma {:induction false} CountAppend(a: seq<Trace>, b: seq<Trace>, p: Trace -> bool)
    ensures Count(a + b, p) == Count(a, p) + Count(b, p)
  {
    if b == [] {
      assert a + b == a;
    } else {
      assert (a + b)[..|a + b| - 1] == a + b[..|b| - 1];
      CountAppend(a, b[..|b| - 1], p);
    }
  }

  lemma {:induction false} CountPermutes(a: seq<Trace>, b: seq<Trace>, p: Trace -> bool)
    requires multiset(a) == multiset(b)
    ensures Count(a, p) == Count(b, p)
    decreases |a|
  {
    if a == [] {
      assert |multiset(a)| == |multiset(b)| == |b|;
    } else {
      var last := a[|a| - 1];
      assert last in multiset(a);
      var i: nat :| i < |b| && b[i] == last;
      var rest := b[..i] + b[i + 1..];
      TakenOut(b, i);
      assert a == a[..|a| - 1] + [last];
      assert multiset(rest) == multiset(a[..|a| - 1]);
      CountPermutes(a[..|a| - 1], rest, p);
      CountTakenOut(b, i, p);
    }
  }

  lemma TakenOut(b: seq<Trace>, i: nat)
    requires i < |b|
    ensures multiset(b[..i] + b[i + 1..]) == multiset(b) - multiset{b[i]}
  {
    assert b == b[..i] + [b[i]] + b[i + 1..];
  }

  lemma CountTakenOut(b: seq<Trace>, i: nat, p: Trace -> bool)
    requires i < |b|
    ensures Count(b, p) == Count(b[..i] + b[i + 1..], p) + if p(b[i]) then 1 else 0
  {
    var upTo := b[..i + 1];
    assert b == upTo + b[i + 1..];
    assert upTo[..|upTo| - 1] == b[..i] && upTo[|upTo| - 1] == b[i];
    assert Count(upTo, p) == Count(b[..i], p) + if p(b[i]) then 1 else 0;
    CountAppend(upTo, b[i + 1..], p);
    CountAppend(b[..i], b[i + 1..], p);
  }

  /** The database may return the rows in any order. */
  lemma OrderDoesNotMatter(a: seq<Trace>, b: seq<Trace>, week: real -> string, w: string, v: string)
    requires multiset(a) == multiset(b)
    ensures var s, t := ByWeekVerdict(a, week), ByWeekVerdict(b, week);
            At(if w in s then s[w] else map[], v) == At(if w in t then t[w] else map[], v)
  {
    CellsCount(a, week, w, v);
    CellsCount(b, week, w, v);
    CountPermutes(a, b, (t: Trace) => t.created.Some? && week(t.created.value) == w && Label(t.verdict) == v);
  }

  // ---- the loops ----

  method CountWeeks(rows: seq<Trace>, since: Option<real>, week: real -> string) returns (total: nat, byWeek: Counts)
    ensures total == |Window(rows, since)| && byWeek == ByWeek(Window(rows, since), week)
    ensures Sum(byWeek) <= total
    ensures Sum(byWeek) == total <==> forall t | t in Window(rows, since) :: t.created.Some?
  {
    var fetched := Window(rows, since);
    total := |fetched|;
    byWeek := map[];
    for i := 0 to |fetched|
      invariant byWeek == ByWeek(fetched[..i], week)
    {
      assert fetched[..i + 1][..i] == fetched[..i];
      var ts := fetched[i].created;
      if ts.Some? {
        byWeek := byWeek[week(ts.value) := At(byWeek, week(ts.value)) + 1];
      }
    }
    assert fetched[..|fetched|] == fetched;
    WeekTotal(fetched, week);
    DatedAtMost(fetched);
  }

  lemma {:induction false} DatedAtMost(rows: seq<Trace>)
    ensures Dated(rows) <= |rows|
    ensures Dated(rows) == |rows| <==> forall t | t in rows :: t.created.Some?
  {
    if rows != [] {
      DatedAtMost(rows[..|rows| - 1]);
      assert rows == rows[..|rows| - 1] + [rows[|rows| - 1]];
    }
  }

  method CountWeeksAndVerdicts(rows: seq<Trace>, since: Option<real>, week: real -> string) returns (byWeek: map<string, Counts>)
    ensures byWeek == ByWeekVerdict(Window(rows, since), week)
    ensures Totals(byWeek) == ByWeek(Window(rows, since), week)
  {
    var fetched := Window(rows, since);
    byWeek := map[];
    for i := 0 to |fetched|
      invariant byWeek == ByWeekVerdict(fetched[..i], week)
    {
      assert fetched[..i + 1][..i] == fetched[..i];
      if fetched[i].created.Some? {
        var w, v := week(fetched[i].created.value), Label(fetched[i].verdict);
        if w !in byWeek {
          byWeek := byWeek[w := map[]];
        }
        var bucket: Counts := byWeek[w];
        bucket := bucket[v := At(bucket, v) + 1];
        byWeek := byWeek[w := bucket];
      }
    }
    assert fetched[..|fetched|] == fetched;
    WeekMargin(fetched, week);
  }
}
