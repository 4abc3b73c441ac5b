/** Administrators and invites kept in the settings table (shared/roles.py). Operations run one after the other. */
module Roles {
  import opened Wrappers
  import opened Text
  import opened Frontmatter
  import opened Settings

  const ROLE := "role:"
  const INVITE := "invite:"

  /** `env` are the administrators named by the deployment: stripped, lower-cased and not empty. */
  datatype Config = Config(dialect: Dialect, env: set<string>, domain: string)

  predicate ValidConfig(cfg: Config) { forall email | email in cfg.env :: email != "" && Norm(email) == email }

  /** `_norm_email` and `_norm_role`. */
  function Norm(s: string): string { Lower(Trim(s, PySpace)) }

  predicate ValidRole(role: string) { role == "admin" || role == "member" }

  /** `_parse_role`. */
  function ParseRole(value: Value): Option<string> {
    if value.Grant? && ValidRole(value.role) then Some(value.role) else None
  }

  function RoleKey(email: string): string { ROLE + email }

  function InviteKey(email: string): string { INVITE + email }

  function KvAdmins(d: Dialect, table: Table): set<string> {
    var rows := ListByPrefix(d, table, ROLE);
    set key | key in rows && ParseRole(rows[key]) == Some("admin") :: key[|ROLE|..]
  }

  function Invites(d: Dialect, table: Table): map<string, string> {
    var rows := ListByPrefix(d, table, INVITE);
    var emails := set key | key in rows && ParseRole(rows[key]).Some? :: key[|INVITE|..];
    map email | email in emails && InviteKey(email) in rows && ParseRole(rows[InviteKey(email)]).Some? ::
      ParseRole(rows[InviteKey(email)]).value
  }

  function Admins(cfg: Config, table: Table): set<string> { cfg.env + KvAdmins(cfg.dialect, table) }

  predicate IsAdmin(cfg: Config, table: Table, email: string) {
    Norm(email) != "" && Norm(email) in Admins(cfg, table)
  }

  datatype Refusal = BadRole | Locked | LastAdmin | WrongDomain

  /** What `set_role` refuses, on a normalised email and role. */
  function RoleRefusal(cfg: Config, table: Table, email: string, role: string): Option<Refusal> {
    if !ValidRole(role) then Some(BadRole)
    else if role == "member" && email in cfg.env then Some(Locked)
    else if role == "member" && email in Admins(cfg, table) && |Admins(cfg, table)| <= 1 then Some(LastAdmin)
    else None
  }

  function Grants(table: Table, email: string, role: string, actor: string, now: real): Table {
    table[RoleKey(email) := Grant(role, Norm(actor), now)]
  }

  function SetRole(cfg: Config, table: Table, email: string, role: string, actor: string, now: real): Result<Table, Refusal> {
    var refused := RoleRefusal(cfg, table, Norm(email), Norm(role));
    if refused.Some? then Err(refused.value) else Ok(Grants(table, Norm(email), Norm(role), actor, now))
  }

  /** What follows the last "@", or nothing without one. */
  function Domain(email: string): string {
    if email == "" then ""
    else if '@' in email[1..] then Domain(email[1..])
    else if email[0] == '@' then email[1..]
    else ""
  }

  function AddInvite(cfg: Config, table: Table, email: string, role: string, actor: string, now: real): Result<Table, Refusal> {
    if !ValidRole(Norm(role)) then Err(BadRole)
    else if Domain(Norm(email)) != Lower(cfg.domain) then Err(WrongDomain)
    else Ok(table[InviteKey(Norm(email)) := Grant(Norm(role), Norm(actor), now)])
  }

  function RevokeInvite(cfg: Config, table: Table, email: string): Table {
    if Norm(email) in Invites(cfg.dialect, table) then table[InviteKey(Norm(email)) := Cleared] else table
  }

  /** The pending role of a normalised email. */
  function PendingRole(table: Table, email: string): Option<string> {
    if InviteKey(email) in table then ParseRole(table[InviteKey(email)]) else None
  }

  /** A sign-in: the role that is applied, if any, and the table after it. */
  datatype Consumed = Consumed(table: Table, applied: Option<string>)

  function ConsumeInvite(cfg: Config, table: Table, email: string, now: real): Result<Consumed, Refusal> {
    var invites := Invites(cfg.dialect, table);
    if Norm(email) !in invites then Ok(Consumed(table, None))
    else
      var role := invites[Norm(email)];
      var granted := SetRole(cfg, table, Norm(email), role, "invite", now);
      if granted.Err? then Err(granted.error)
      else Ok(Consumed(granted.value[InviteKey(Norm(email)) := Cleared], Some(role)))
  }

  // ---- normal forms ----

  lemma LowerCharFacts(c: char)
    ensures LowerChar(LowerChar(c)) == LowerChar(c) && (PySpace(LowerChar(c)) <==> PySpace(c))
  {
  }

  lemma LowerFixed(s: string)
    ensures Lower(Lower(s)) == Lower(s)
  {
    forall i | 0 <= i < |s| ensures Lower(Lower(s))[i] == Lower(s)[i] {
      LowerAt(s, i);
      LowerAt(Lower(s), i);
      LowerCharFacts(s[i]);
    }
  }

  lemma LowerKeepsTrimmed(s: string)
    requires Trimmed(s, PySpace)
    ensures Trimmed(Lower(s), PySpace)
  {
    if s != "" {
      LowerAt(s, 0);
      LowerAt(s, |s| - 1);
      LowerCharFacts(s[0]);
      LowerCharFacts(s[|s| - 1]);
    }
  }

  lemma NormIsFixed(s: string)
    ensures Norm(Norm(s)) == Norm(s)
  {
    TrimIsTrimmed(s, PySpace);
    LowerKeepsTrimmed(Trim(s, PySpace));
    LowerFixed(Trim(s, PySpace));
    TrimFixes(Norm(s), PySpace);
  }

  lemma RolesAreNormal(role: string)
    requires ValidRole(role)
    ensures Norm(role) == role
  {
    TrimFixes(role, PySpace);
    forall i | 0 <= i < |role| ensures Lower(role)[i] == role[i] {
      LowerAt(role, i);
      assert 'a' <= role[i] <= 'z';
    }
  }

  // ---- the two listings, pointwise ----

  predicate IsKvAdmin(table: Table, email: string) {
    RoleKey(email) in table && ParseRole(table[RoleKey(email)]) == Some("admin")
  }

  lemma PrefixesArePlain()
    ensures '\\' !in ROLE && '\\' !in INVITE
  {
  }

  lemma KvAdminsAre(d: Dialect, table: Table, email: string)
    ensures email in KvAdmins(d, table) <==> IsKvAdmin(table, email)
  {
    PrefixesArePlain();
    PlainPrefixIsExact(d, table, ROLE);
    var key := RoleKey(email);
    assert ROLE <= key && key[|ROLE|..] == email;
    forall other | other in table && ROLE <= other && other[|ROLE|..] == email ensures other == key {
      assert other == ROLE + other[|ROLE|..];
    }
  }

  lemma InvitesAre(d: Dialect, table: Table, email: string)
    ensures email in Invites(d, table) <==> PendingRole(table, email).Some?
    ensures email in Invites(d, table) ==> Invites(d, table)[email] == PendingRole(table, email).value
  {
    PrefixesArePlain();
    PlainPrefixIsExact(d, table, INVITE);
    var key := InviteKey(email);
    assert INVITE <= key && key[|INVITE|..] == email;
    forall other | other in table && INVITE <= other && other[|INVITE|..] == email ensures other == key {
      assert other == INVITE + other[|INVITE|..];
    }
  }

  lemma KeysDiffer(a: string, b: string)
    ensures RoleKey(a) != InviteKey(b)
    ensures RoleKey(a) == RoleKey(b) ==> a == b
    ensures InviteKey(a) == InviteKey(b) ==> a == b
  {
    assert RoleKey(a)[0] == 'r' && InviteKey(b)[0] == 'i';
    assert RoleKey(a)[|ROLE|..] == a && RoleKey(b)[|ROLE|..] == b;
    assert InviteKey(a)[|INVITE|..] == a && InviteKey(b)[|INVITE|..] == b;
  }

  predicate InAdmins(cfg: Config, table: Table, email: string) { email in cfg.env || IsKvAdmin(table, email) }

  lemma AdminsAre(cfg: Config, table: Table, email: string)
    ensures email in Admins(cfg, table) <==> InAdmins(cfg, table, email)
  {
    KvAdminsAre(cfg.dialect, table, email);
  }

  // ---- the steps ----

  datatype Event =
    | Change(email: string, role: string, actor: string, now: real)
    | Invite(email: string, role: string, actor: string, now: real)
    | Revoke(email: string)
    | SignIn(email: string, now: real)

  function Do(cfg: Config, table: Table, e: Event): Table {
    match e
    case Change(email, role, actor, now) =>
      var r := SetRole(cfg, table, email, role, actor, now);
      if r.Ok? then r.value else table
    case Invite(email, role, actor, now) =>
      var r := AddInvite(cfg, table, email, role, actor, now);
      if r.Ok? then r.value else table
    case Revoke(email) => RevokeInvite(cfg, table, email)
    case SignIn(email, now) =>
      var r := ConsumeInvite(cfg, table, email, now);
      if r.Ok? then r.value.table else table
  }

  function Run(cfg: Config, table: Table, events: seq<Event>): Table {
    if events == [] then table else Do(cfg, Run(cfg, table, events[..|events| - 1]), events[|events| - 1])
  }

  /** The role a step asks for, on a normalised email. */
  function Asked(cfg: Config, table: Table, e: Event): Option<string> {
    match e
    case Change(_, role, _, _) => Some(Norm(role))
    case SignIn(email, _) => PendingRole(table, Norm(email))
    case _ => None
  }

  /** The role a step gives to its email. */
  function Given(cfg: Config, table: Table, e: Event): Option<string> {
    var asked := Asked(cfg, table, e);
    if asked.Some? && RoleRefusal(cfg, table, Norm(e.email), asked.value).None? then asked else None
  }

  /** A role is refused exactly for a deployment administrator or the last administrator. */
  lemma RefusedExactly(cfg: Config, table: Table, email: string, role: string)
    requires ValidRole(role)
    ensures RoleRefusal(cfg, table, email, role).Some?
       <==> role == "member" && (email in cfg.env || Admins(cfg, table) == {email})
  {
    var admins := Admins(cfg, table);
    if email in admins && |admins| <= 1 {
      SoleElement(admins, email);
    }
  }

  /** A sign-in is refused exactly when the invite would demote a deployment administrator or the last one, and
      then changes nothing; otherwise the invited role is applied and the invite is gone. */
  lemma SignInOutcome(cfg: Config, table: Table, email: string, now: real)
    ensures var who, outcome, t := Norm(email), ConsumeInvite(cfg, table, email, now), Do(cfg, table, SignIn(email, now));
            var pending := PendingRole(table, who);
            && (outcome.Err? <==> pending == Some("member") && (who in cfg.env || Admins(cfg, table) == {who}))
            && (outcome.Err? ==> t == table)
            && (outcome.Ok? ==> outcome.value.applied == pending && PendingRole(t, who).None?)
            && (outcome.Ok? && pending.Some? ==> (IsKvAdmin(t, who) <==> pending == Some("admin")))
  {
    var who := Norm(email);
    var pending := PendingRole(table, who);
    SignInIs(cfg, table, email, now);
    if pending.Some? {
      RefusedExactly(cfg, table, who, pending.value);
      KeysDiffer(who, who);
    }
  }

  /** `consume_invite` in terms of the pending role alone. */
  lemma SignInIs(cfg: Config, table: Table, email: string, now: real)
    ensures var who := Norm(email);
            var pending := PendingRole(table, who);
            ConsumeInvite(cfg, table, email, now) ==
              (if pending.None? then Ok(Consumed(table, None))
               else if RoleRefusal(cfg, table, who, pending.value).Some? then Err(RoleRefusal(cfg, table, who, pending.value).value)
               else Ok(Consumed(Grants(table, who, pending.value, "invite", now)[InviteKey(who) := Cleared], pending)))
  {
    var who := Norm(email);
    InvitesAre(cfg.dialect, table, who);
    if PendingRole(table, who).Some? {
      NormIsFixed(email);
      RolesAreNormal(PendingRole(table, who).value);
    }
  }

  lemma SoleElement(s: set<string>, x: string)
    requires x in s && |s| <= 1
    ensures s == {x}
  {
    forall y | y in s ensures y == x {
      if y != x {
        assert {x, y} <= s;
        CardinalityOfSubset({x, y}, s);
      }
    }
  }

  lemma {:induction false} CardinalityOfSubset(a: set<string>, b: set<string>)
    requires a <= b
    ensures |a| <= |b|
    decreases a
  {
    if a != {} {
      var x :| x in a;
      CardinalityOfSubset(a - {x}, b - {x});
    }
  }

  /** What a step does to everyone's role: the email it names gets the role it gives, and nothing else moves. */
  lemma RolesMoveOneAtATime(cfg: Config, table: Table, e: Event, email: string)
    ensures IsKvAdmin(Do(cfg, table, e), email) <==>
              if Given(cfg, table, e).Some? && email == Norm(e.email) then Given(cfg, table, e) == Some("admin")
              else IsKvAdmin(table, email)
  {
    var who := Norm(e.email);
    KeysDiffer(email, who);
    if e.SignIn? {
      SignInIs(cfg, table, e.email, e.now);
    }
  }

  // ---- administrators never run out ----

  ghost predicate SomeoneIsAdmin(cfg: Config, table: Table) { exists email :: IsAdmin(cfg, table, email) }

  /** Stored roles sit under normalised emails, as every write here puts them. */
  ghost predicate NormalKeys(table: Table) { forall email | IsKvAdmin(table, email) :: Norm(email) == email }

  lemma NormalKeysStep(cfg: Config, table: Table, e: Event)
    requires NormalKeys(table)
    ensures NormalKeys(Do(cfg, table, e))
  {
    NormIsFixed(e.email);
    forall email | IsKvAdmin(Do(cfg, table, e), email) ensures Norm(email) == email {
      RolesMoveOneAtATime(cfg, table, e, email);
    }
  }

  /** The set the guard counts never becomes empty, through any operation, sign-ins included. */
  lemma AdminsNeverEmpty(cfg: Config, table: Table, e: Event)
    requires Admins(cfg, table) != {}
    ensures Admins(cfg, Do(cfg, table, e)) != {}
  {
    var t, who := Do(cfg, table, e), Norm(e.email);
    var keeper := Keeper(cfg, table, e);
    RolesMoveOneAtATime(cfg, table, e, keeper);
    AdminsAre(cfg, table, keeper);
    AdminsAre(cfg, t, keeper);
  }

  /** Nor over any run. */
  lemma {:induction false} AdminsNeverRunOut(cfg: Config, table: Table, events: seq<Event>)
    requires Admins(cfg, table) != {}
    ensures Admins(cfg, Run(cfg, table, events)) != {}
  {
    if events != [] {
      AdminsNeverRunOut(cfg, table, events[..|events| - 1]);
      AdminsNeverEmpty(cfg, Run(cfg, table, events[..|events| - 1]), events[|events| - 1]);
    }
  }

  /** An administrator the step does not demote. */
  lemma Keeper(cfg: Config, table: Table, e: Event) returns (keeper: string)
    requires Admins(cfg, table) != {}
    ensures keeper in Admins(cfg, table)
    ensures Given(cfg, table, e).Some? && Given(cfg, table, e) != Some("admin") && keeper == Norm(e.email) ==> keeper in cfg.env
  {
    keeper :| keeper in Admins(cfg, table);
    if keeper == Norm(e.email) && keeper !in cfg.env && Given(cfg, table, e) == Some("member") {
      keeper := AnotherOne(Admins(cfg, table), keeper);
    }
  }

  lemma AnotherOne(emails: set<string>, who: string) returns (other: string)
    requires |emails| > 1
    ensures other in emails && other != who
  {
    assert |emails - {who}| >= |emails| - 1 > 0;
    other :| other in emails - {who};
  }

  /** The step demotes the only usable administrator while the empty email counts as one. */
  predicate LocksOut(cfg: Config, table: Table, e: Event) {
    Asked(cfg, table, e) == Some("member") && Norm(e.email) != "" && Admins(cfg, table) == {"", Norm(e.email)}
    && Norm(e.email) !in cfg.env
  }

  /** Someone can still pass the administrator check after a step exactly when it does not lock out: the guard
      counts a role given to the empty email, which no check accepts. */
  lemma UsableAdminsStep(cfg: Config, table: Table, e: Event)
    requires ValidConfig(cfg) && NormalKeys(table) && SomeoneIsAdmin(cfg, table)
    ensures SomeoneIsAdmin(cfg, Do(cfg, table, e)) <==> !LocksOut(cfg, table, e)
  {
    var t, who := Do(cfg, table, e), Norm(e.email);
    if LocksOut(cfg, table, e) {
      forall email ensures !IsAdmin(cfg, t, email) {
        LockedOut(cfg, table, e, email);
      }
    } else {
      var keeper := UsableKeeper(cfg, table, e);
      RolesMoveOneAtATime(cfg, table, e, keeper);
      AdminsAre(cfg, table, keeper);
      AdminsAre(cfg, t, keeper);
      assert IsAdmin(cfg, t, keeper);
    }
  }

  lemma LockedOut(cfg: Config, table: Table, e: Event, email: string)
    requires LocksOut(cfg, table, e)
    ensures !IsAdmin(cfg, Do(cfg, table, e), email)
  {
    var t, who := Do(cfg, table, e), Norm(e.email);
    assert |{"", who}| == 2;
    assert Given(cfg, table, e) == Some("member");
    RolesMoveOneAtATime(cfg, table, e, Norm(email));
    AdminsAre(cfg, table, Norm(email));
    AdminsAre(cfg, t, Norm(email));
  }

  lemma OnlyThose(admins: set<string>, who: string)
    requires who in admins && |admins| > 1
    ensures admins - {"", who} != {} || admins == {"", who}
  {
    assert |admins - {who}| == |admins| - 1 > 0;
    var other :| other in admins - {who};
  }

  lemma UsableKeeper(cfg: Config, table: Table, e: Event) returns (keeper: string)
    requires ValidConfig(cfg) && NormalKeys(table) && SomeoneIsAdmin(cfg, table) && !LocksOut(cfg, table, e)
    ensures keeper != "" && Norm(keeper) == keeper && keeper in Admins(cfg, table)
    ensures Given(cfg, table, e) == Some("member") && keeper == Norm(e.email) ==> keeper in cfg.env
  {
    var admins, who := Admins(cfg, table), Norm(e.email);
    var email :| IsAdmin(cfg, table, email);
    keeper := Norm(email);
    NormIsFixed(email);
    if keeper == who && Given(cfg, table, e) == Some("member") {
      assert who !in cfg.env && |admins| > 1;
      OnlyThose(admins, who);
      assert admins - {"", who} != {};
      keeper :| keeper in admins - {"", who};
      AdminsAre(cfg, table, keeper);
    }
  }

  /** Deployment administrators pass the check in every state. */
  lemma EnvAdminsStay(cfg: Config, table: Table, email: string)
    requires ValidConfig(cfg) && email in cfg.env
    ensures IsAdmin(cfg, table, email)
  {
  }

  predicate GivesEmptyEmail(e: Event) { (e.Change? || e.SignIn?) && Norm(e.email) == "" }

  /** In a run that never gives a role to the empty email, someone can always pass the check. */
  lemma {:induction false} NeverLockedOut(cfg: Config, table: Table, events: seq<Event>)
    requires ValidConfig(cfg) && NormalKeys(table) && SomeoneIsAdmin(cfg, table) && !IsKvAdmin(table, "")
    requires forall k | 0 <= k < |events| :: !GivesEmptyEmail(events[k])
    ensures var t := Run(cfg, table, events); NormalKeys(t) && SomeoneIsAdmin(cfg, t) && !IsKvAdmin(t, "")
  {
    if events != [] {
      var before, e := Run(cfg, table, events[..|events| - 1]), events[|events| - 1];
      NeverLockedOut(cfg, table, events[..|events| - 1]);
      NormalKeysStep(cfg, before, e);
      RolesMoveOneAtATime(cfg, before, e, "");
      AdminsAre(cfg, before, "");
      assert LocksOut(cfg, before, e) ==> "" in Admins(cfg, before);
      UsableAdminsStep(cfg, before, e);
    }
  }

  /** The guard hole, concretely: the empty email is promoted, then the only real administrator is demoted. */
  lemma GuardHole(d: Dialect, domain: string, now: real)
    ensures var cfg := Config(d, {}, domain);
            var table := map[RoleKey("a") := Grant("admin", "x", now)];
            SomeoneIsAdmin(cfg, table)
            && !SomeoneIsAdmin(cfg, Run(cfg, table, [Change("", "admin", "a", now), Change("a", "member", "a", now)]))
  {
    var cfg, table := Config(d, {}, domain), map[RoleKey("a") := Grant("admin", "x", now)];
    var promote, demote := Change("", "admin", "a", now), Change("a", "member", "a", now);
    RolesAreNormal("admin");
    TrimFixes("a", PySpace);
    TrimFixes("", PySpace);
    OneAdmin(cfg, table, "a", now);
    PromoteNobody(cfg, table, promote, "a");
    var middle := Do(cfg, table, promote);
    RolesAreNormal("member");
    assert LocksOut(cfg, middle, demote);
    UsableAdminsStep(cfg, middle, demote);
    TwoSteps(cfg, table, promote, demote);
  }

  lemma OneAdmin(cfg: Config, table: Table, email: string, now: real)
    requires cfg.env == {} && email != "" && Norm(email) == email
    requires table == map[RoleKey(email) := Grant("admin", "x", now)]
    ensures Admins(cfg, table) == {email} && SomeoneIsAdmin(cfg, table) && NormalKeys(table)
  {
    forall other ensures other in Admins(cfg, table) <==> other == email {
      AdminsAre(cfg, table, other);
      KeysDiffer(other, email);
    }
    forall other | IsKvAdmin(table, other) ensures Norm(other) == other { KeysDiffer(other, email); }
    assert IsAdmin(cfg, table, email);
  }

  lemma PromoteNobody(cfg: Config, table: Table, e: Event, email: string)
    requires cfg.env == {} && email != "" && Norm(email) == email
    requires Admins(cfg, table) == {email} && NormalKeys(table)
    requires e.Change? && Norm(e.email) == "" && Norm(e.role) == "admin"
    ensures Admins(cfg, Do(cfg, table, e)) == {"", email}
    ensures NormalKeys(Do(cfg, table, e)) && SomeoneIsAdmin(cfg, Do(cfg, table, e))
  {
    var t := Do(cfg, table, e);
    forall other ensures other in Admins(cfg, t) <==> other in {"", email} {
      RolesMoveOneAtATime(cfg, table, e, other);
      AdminsAre(cfg, table, other);
      AdminsAre(cfg, t, other);
    }
    assert Admins(cfg, t) == {"", email};
    NormalKeysStep(cfg, table, e);
    assert IsAdmin(cfg, t, email);
  }

  lemma TwoSteps(cfg: Config, table: Table, a: Event, b: Event)
    ensures Run(cfg, table, [a, b]) == Do(cfg, Do(cfg, table, a), b)
  {
    assert [a, b][..1] == [a] && [a][..0] == [];
    assert Run(cfg, table, [a]) == Do(cfg, Run(cfg, table, []), a);
  }

  // ---- each invite at most once ----

  function One(b: bool): nat { if b then 1 else 0 }

  predicate AppliesInvite(cfg: Config, table: Table, e: Event, email: string) {
    e.SignIn? && Norm(e.email) == email && ConsumeInvite(cfg, table, e.email, e.now).Ok? && PendingRole(table, email).Some?
  }

  predicate IssuesInvite(cfg: Config, table: Table, e: Event, email: string) {
    e.Invite? && Norm(e.email) == email && AddInvite(cfg, table, e.email, e.role, e.actor, e.now).Ok?
  }

  function Applied(cfg: Config, table: Table, events: seq<Event>, email: string): nat {
    if events == [] then 0
    else
      var before := events[..|events| - 1];
      Applied(cfg, table, before, email) + One(AppliesInvite(cfg, Run(cfg, table, before), events[|events| - 1], email))
  }

  function Issued(cfg: Config, table: Table, events: seq<Event>, email: string): nat {
    if events == [] then 0
    else
      var before := events[..|events| - 1];
      Issued(cfg, table, before, email) + One(IssuesInvite(cfg, Run(cfg, table, before), events[|events| - 1], email))
  }

  /** How one step moves a pending invite. */
  lemma InviteStep(cfg: Config, table: Table, e: Event, email: string)
    ensures var t := Do(cfg, table, e);
            PendingRole(t, email) ==
              (if IssuesInvite(cfg, table, e, email) then Some(Norm(e.role))
               else if AppliesInvite(cfg, table, e, email) || (e.Revoke? && Norm(e.email) == email) then None
               else PendingRole(table, email))
  {
    var who := Norm(e.email);
    KeysDiffer(who, email);
    KeysDiffer(email, who);
    InvitesAre(cfg.dialect, table, who);
    if e.SignIn? {
      SignInIs(cfg, table, e.email, e.now);
    }
  }

  /** Invites applied, plus the one pending, never exceed those issued plus the one pending at the start. */
  lemma {:induction false} InvitesApplyOnce(cfg: Config, table: Table, events: seq<Event>, email: string)
    ensures Applied(cfg, table, events, email) + One(PendingRole(Run(cfg, table, events), email).Some?)
         <= Issued(cfg, table, events, email) + One(PendingRole(table, email).Some?)
  {
    if events != [] {
      InvitesApplyOnce(cfg, table, events[..|events| - 1], email);
      InviteStep(cfg, Run(cfg, table, events[..|events| - 1]), events[|events| - 1], email);
    }
  }
}
