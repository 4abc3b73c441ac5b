/** The role operations told in the settings table alone: who passes the administrator check, what is refused, and
    what is written. */
module RoleRules {
  import opened Wrappers
  import opened Text
  import opened Frontmatter
  import opened Settings
  import opened Roles

  /** A role entry of a role: what is stored under "role:<email>" or "invite:<email>". */
  predicate Stores(table: Table, key: string, role: string) { key in table && table[key].Grant? && table[key].role == role }

  predicate StoredAdmin(table: Table, email: string) { Stores(table, "role:" + email, "admin") }

  /** An email or role is stripped of outer white space and lower-cased. */
  lemma NormIs(s: string) returns (from: nat, to: nat)
    ensures from <= to <= |s| && (forall i | 0 <= i < from || to <= i < |s| :: PySpace(s[i]))
    ensures from < to ==> !PySpace(s[from]) && !PySpace(s[to - 1])
    ensures |Norm(s)| == to - from
    ensures forall i | from <= i < to :: !('A' <= Norm(s)[i - from] <= 'Z') && SameLetter(s[i], Norm(s)[i - from])
  {
    from, to := TrimCuts(s, PySpace);
    LowerIs(s[from..to]);
    if from < to {
      assert s[from..to][0] == s[from] && s[from..to][to - from - 1] == s[to - 1];
    }
    forall i | from <= i < to ensures !('A' <= Norm(s)[i - from] <= 'Z') && SameLetter(s[i], Norm(s)[i - from]) {
      assert s[from..to][i - from] == s[i];
    }
  }

  /** The check: an administrator named by the deployment, or one whose stored role says so; never the empty email. */
  lemma AdminExactly(cfg: Config, table: Table, email: string)
    ensures IsAdmin(cfg, table, email) <==> Norm(email) != "" && (Norm(email) in cfg.env || StoredAdmin(table, Norm(email)))
  {
    AdminsAre(cfg, table, Norm(email));
  }

  // ---- set_role ----

  predicate SomeAdmin(cfg: Config, table: Table, email: string) { email in cfg.env || StoredAdmin(table, email) }

  ghost predicate OnlyAdmin(cfg: Config, table: Table, who: string) {
    SomeAdmin(cfg, table, who) && forall other :: SomeAdmin(cfg, table, other) ==> other == who
  }

  lemma OnlyAdminIs(cfg: Config, table: Table, who: string)
    ensures OnlyAdmin(cfg, table, who) <==> Admins(cfg, table) == {who}
  {
    forall other ensures other in Admins(cfg, table) <==> SomeAdmin(cfg, table, other) {
      AdminsAre(cfg, table, other);
    }
  }

  /** Each refusal and when it is given. */
  lemma RefusalExactly(cfg: Config, table: Table, who: string, role: string)
    ensures var refused := RoleRefusal(cfg, table, who, role);
            && (refused == Some(BadRole) <==> role !in {"admin", "member"})
            && (refused == Some(Locked) <==> role == "member" && who in cfg.env)
            && (refused == Some(LastAdmin) <==> role == "member" && who !in cfg.env && OnlyAdmin(cfg, table, who))
            && refused != Some(WrongDomain)
  {
    OnlyAdminIs(cfg, table, who);
    if ValidRole(role) {
      RefusedExactly(cfg, table, who, role);
    }
  }

  /** A role that is not refused is written under the email, with who gave it and when. */
  lemma ChangeExactly(cfg: Config, table: Table, email: string, role: string, actor: string, now: real)
    ensures var who, wanted := Norm(email), Norm(role);
            var refused := wanted !in {"admin", "member"} || (wanted == "member" && (who in cfg.env || OnlyAdmin(cfg, table, who)));
            Do(cfg, table, Change(email, role, actor, now))
              == if refused then table else table["role:" + who := Grant(wanted, Norm(actor), now)]
  {
    RefusalExactly(cfg, table, Norm(email), Norm(role));
  }

  // ---- invites ----

  /** The part behind the last "@". */
  lemma {:induction false} DomainIs(email: string)
    ensures '@' !in Domain(email)
    ensures '@' !in email ==> Domain(email) == ""
    ensures '@' in email ==> exists local :: email == local + "@" + Domain(email)
  {
    if email != "" {
      assert email == [email[0]] + email[1..];
      DomainIs(email[1..]);
      if '@' in email[1..] {
        var local :| email[1..] == local + "@" + Domain(email[1..]);
        assert email == ([email[0]] + local) + "@" + Domain(email);
      } else if email[0] == '@' {
        assert email == "" + "@" + Domain(email);
      }
    }
  }

  /** An address of the domain; the domain "" is that of an address without "@", or with nothing behind it. */
  ghost predicate OfDomain(email: string, domain: string) {
    '@' !in domain && ((exists local :: email == local + "@" + domain) || (domain == "" && '@' !in email))
  }

  lemma SameEnd(a: string, b: string, local: string, local': string)
    requires '@' !in a && '@' !in b && local + "@" + a == local' + "@" + b
    ensures a == b
  {
    var s := local + "@" + a;
    assert s[|local|] == '@' && s[|local'|] == '@';
    assert forall i | |local| < i < |s| :: s[i] == a[i - |local| - 1];
    assert forall i | |local'| < i < |s| :: s[i] == b[i - |local'| - 1];
    assert |local| == |local'|;
    assert s[|local| + 1..] == a && s[|local| + 1..] == b;
  }

  lemma OfDomainIs(email: string, domain: string)
    ensures OfDomain(email, domain) <==> Domain(email) == domain
  {
    DomainIs(email);
    if OfDomain(email, domain) && exists local :: email == local + "@" + domain {
      var local :| email == local + "@" + domain;
      assert email[|local|] == '@';
      var local' :| email == local' + "@" + Domain(email);
      SameEnd(domain, Domain(email), local, local');
    }
  }

  /** An invite is written exactly for a valid role and an address of the allowed domain. */
  lemma InviteExactly(cfg: Config, table: Table, email: string, role: string, actor: string, now: real)
    ensures var who, wanted := Norm(email), Norm(role);
            var valid, inside := wanted in {"admin", "member"}, OfDomain(who, Lower(cfg.domain));
            && AddInvite(cfg, table, email, role, actor, now) ==
                 (if !valid then Err(BadRole) else if !inside then Err(WrongDomain)
                  else Ok(table["invite:" + who := Grant(wanted, Norm(actor), now)]))
            && Do(cfg, table, Invite(email, role, actor, now))
                 == if valid && inside then table["invite:" + who := Grant(wanted, Norm(actor), now)] else table
  {
    OfDomainIs(Norm(email), Lower(cfg.domain));
  }

  /** An invite is pending when a valid role is stored under it. */
  lemma PendingExactly(d: Dialect, table: Table, email: string, role: string)
    ensures email in Invites(d, table) && Invites(d, table)[email] == role
       <==> role in {"admin", "member"} && Stores(table, "invite:" + email, role)
    ensures PendingRole(table, email) == Some(role) <==> role in {"admin", "member"} && Stores(table, "invite:" + email, role)
  {
    InvitesAre(d, table, email);
  }

  lemma RevokeExactly(cfg: Config, table: Table, email: string)
    ensures var who := Norm(email);
            Do(cfg, table, Revoke(email)) ==
              if Stores(table, "invite:" + who, "admin") || Stores(table, "invite:" + who, "member")
              then table["invite:" + who := Cleared] else table
  {
    InvitesAre(cfg.dialect, table, Norm(email));
  }

  /** A sign-in turns the pending role into a stored one and clears the invite, in one step; it does nothing if there is
      none, or if it would demote a deployment administrator or the only one. */
  lemma SignInExactly(cfg: Config, table: Table, email: string, now: real, role: string)
    requires role in {"admin", "member"} && Stores(table, "invite:" + Norm(email), role)
    ensures var who := Norm(email);
            Do(cfg, table, SignIn(email, now)) ==
              if role == "member" && (who in cfg.env || OnlyAdmin(cfg, table, who)) then table
              else table["role:" + who := Grant(role, "invite", now)]["invite:" + who := Cleared]
  {
    var who := Norm(email);
    SignInIs(cfg, table, email, now);
    RefusalExactly(cfg, table, who, role);
    InviterIsNormal();
  }

  lemma InviterIsNormal()
    ensures Norm("invite") == "invite"
  {
    TrimFixes("invite", PySpace);
    forall i | 0 <= i < 6 ensures Lower("invite")[i] == "invite"[i] {
      LowerAt("invite", i);
      assert 'a' <= "invite"[i] <= 'z';
    }
  }

  lemma SignInWithoutInvite(cfg: Config, table: Table, email: string, now: real)
    requires !Stores(table, "invite:" + Norm(email), "admin") && !Stores(table, "invite:" + Norm(email), "member")
    ensures Do(cfg, table, SignIn(email, now)) == table
  {
    SignInIs(cfg, table, email, now);
  }
}
