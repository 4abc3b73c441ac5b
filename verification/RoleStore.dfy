/** The role operations as shared/roles.py performs them on the settings table, with its two reading loops.
    Each is proved to compute what Roles says of the table. */
module RoleStore {
  import opened Wrappers
  import opened Text
  import opened Settings
  import opened Roles

  class RoleBook {
    const env: set<string>
    const domain: string
    const settings: SettingsTable

    constructor (env: set<string>, domain: string, settings: SettingsTable)
      ensures this.env == env && this.domain == domain && this.settings == settings
    {
      this.env, this.domain, this.settings := env, domain, settings;
    }

    function Cfg(): Config { Config(settings.dialect, env, domain) }

    /** `kv_admins`. */
    method ReadAdmins() returns (out: set<string>)
      ensures out == KvAdmins(settings.dialect, settings.rows)
    {
      var rows := settings.ListSettingsByPrefix(ROLE);
      out := {};
      var pending := rows.Keys;
      while pending != {}
        invariant pending <= rows.Keys
        invariant out == set key | key in rows && key !in pending && ParseRole(rows[key]) == Some("admin") :: key[|ROLE|..]
      {
        var key :| key in pending;
        pending := pending - {key};
        if ParseRole(rows[key]) == Some("admin") {
          out := out + {key[|ROLE|..]};
        }
      }
    }

    /** `invites`. */
    method ReadInvites() returns (out: map<string, string>)
      ensures out == Invites(settings.dialect, settings.rows)
    {
      var rows := settings.ListSettingsByPrefix(INVITE);
      out := map[];
      var pending := rows.Keys;
      while pending != {}
        invariant pending <= rows.Keys
        invariant forall email :: email in out <==> InviteAmong(rows, pending, email)
        invariant forall email | email in out :: out[email] == ParseRole(rows[InviteKey(email)]).value
      {
        var key :| key in pending;
        var email := key[|INVITE|..];
        assert key == InviteKey(email);
        OneMoreInvite(rows, pending, email);
        pending := pending - {key};
        var role := ParseRole(rows[key]);
        if role.Some? {
          out := out[email := role.value];
        }
      }
      InvitesRebuilt(settings.dialect, settings.rows, rows, out);
    }

    /** `set_role`; the refusal is what it raises. */
    method SetRoleOf(email: string, role: string, actor: string, now: real) returns (refused: Option<Refusal>)
      modifies settings
      ensures settings.rows == Do(Cfg(), old(settings.rows), Change(email, role, actor, now))
      ensures refused == RoleRefusal(Cfg(), old(settings.rows), Norm(email), Norm(role))
    {
      var who, wanted := Norm(email), Norm(role);
      if !ValidRole(wanted) {
        return Some(BadRole);
      }
      if wanted == "member" {
        if who in env {
          return Some(Locked);
        }
        var stored := ReadAdmins();
        var current := env + stored;
        if who in current && |current| <= 1 {
          return Some(LastAdmin);
        }
      }
      settings.SetSetting(RoleKey(who), Grant(wanted, Norm(actor), now));
      return None;
    }

    /** `add_invite`. */
    method InviteUser(email: string, role: string, actor: string, now: real) returns (refused: Option<Refusal>)
      modifies settings
      ensures settings.rows == Do(Cfg(), old(settings.rows), Invite(email, role, actor, now))
      ensures refused.None? <==> IssuesInvite(Cfg(), old(settings.rows), Invite(email, role, actor, now), Norm(email))
    {
      var who, wanted := Norm(email), Norm(role);
      if !ValidRole(wanted) {
        return Some(BadRole);
      }
      if Domain(who) != Lower(domain) {
        return Some(WrongDomain);
      }
      settings.SetSetting(InviteKey(who), Grant(wanted, Norm(actor), now));
      return None;
    }

    /** `revoke_invite`. */
    method RevokeUser(email: string) returns (revoked: bool)
      modifies settings
      ensures settings.rows == Do(Cfg(), old(settings.rows), Revoke(email))
      ensures revoked <==> PendingRole(old(settings.rows), Norm(email)).Some?
    {
      var pending := ReadInvites();
      InvitesAre(settings.dialect, settings.rows, Norm(email));
      revoked := Norm(email) in pending;
      if revoked {
        settings.SetSetting(InviteKey(Norm(email)), Cleared);
      }
    }

    /** `consume_invite`: the role first, then the invite. */
    method Consume(email: string, now: real) returns (outcome: Result<Option<string>, Refusal>)
      modifies settings
      ensures settings.rows == Do(Cfg(), old(settings.rows), SignIn(email, now))
      ensures var r := ConsumeInvite(Cfg(), old(settings.rows), email, now);
              outcome == if r.Ok? then Ok(r.value.applied) else Err(r.error)
    {
      ghost var before := settings.rows;
      var pending := ReadInvites();
      if Norm(email) !in pending {
        return Ok(None);
      }
      var role := pending[Norm(email)];
      var refused := SetRoleOf(Norm(email), role, "invite", now);
      ConsumedInSteps(Cfg(), before, email, role, now);
      if refused.Some? {
        return Err(refused.value);
      }
      settings.SetSetting(InviteKey(Norm(email)), Cleared);
      return Ok(Some(role));
    }
  }

  /** A pending invite is consumed by setting the role and then clearing the invite, if the role is not refused. */
  lemma ConsumedInSteps(cfg: Config, table: Table, email: string, role: string, now: real)
    requires Norm(email) in Invites(cfg.dialect, table) && role == Invites(cfg.dialect, table)[Norm(email)]
    ensures var refused := RoleRefusal(cfg, table, Norm(Norm(email)), Norm(role));
            var granted := Do(cfg, table, Change(Norm(email), role, "invite", now));
            if refused.Some? then
              granted == table == Do(cfg, table, SignIn(email, now)) && ConsumeInvite(cfg, table, email, now) == Err(refused.value)
            else
              var consumed := granted[InviteKey(Norm(email)) := Cleared];
              && consumed == Do(cfg, table, SignIn(email, now))
              && ConsumeInvite(cfg, table, email, now) == Ok(Consumed(consumed, Some(role)))
  {
  }

  predicate InviteAmong(rows: Table, pending: set<string>, email: string) {
    InviteKey(email) in rows && InviteKey(email) !in pending && ParseRole(rows[InviteKey(email)]).Some?
  }

  lemma OneMoreInvite(rows: Table, pending: set<string>, email: string)
    requires InviteKey(email) in rows && InviteKey(email) in pending
    ensures forall other :: InviteAmong(rows, pending - {InviteKey(email)}, other)
              <==> InviteAmong(rows, pending, other) || (other == email && ParseRole(rows[InviteKey(email)]).Some?)
  {
    forall other | InviteKey(other) == InviteKey(email) ensures other == email {
      KeysDiffer(other, email);
    }
  }

  lemma InvitesRebuilt(d: Dialect, table: Table, rows: Table, out: map<string, string>)
    requires rows == StartingWith(table, INVITE)
    requires forall email :: email in out <==> InviteAmong(rows, {}, email)
    requires forall email | email in out ::
               InviteKey(email) in rows && Some(out[email]) == ParseRole(rows[InviteKey(email)])
    ensures out == Invites(d, table)
  {
    forall email ensures email in out <==> email in Invites(d, table)
                 ensures email in out ==> out[email] == Invites(d, table)[email] {
      InvitesAre(d, table, email);
      AllInvites(table, rows, email);
    }
  }

  lemma AllInvites(table: Table, rows: Table, email: string)
    requires rows == StartingWith(table, INVITE)
    ensures InviteAmong(rows, {}, email) <==> PendingRole(table, email).Some?
    ensures InviteAmong(rows, {}, email) ==> ParseRole(rows[InviteKey(email)]) == PendingRole(table, email)
  {
    assert INVITE <= InviteKey(email);
  }
}
