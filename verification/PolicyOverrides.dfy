/** Policy overrides kept in the settings table under "policy_override:<system>:<method>"
    (shared/policy_overrides.py). */
module PolicyOverrides {
  import opened Wrappers
  import opened Text
  import opened Settings

  const BASE := "policy_override:"

  function Key(system: string, name: string): string {
    BASE + (Lower(system) + ":" + Lower(name))
  }

  datatype Entry = Entry(system: string, name: string, data: Value)

  /** Why a stored value or key cannot be read back. */
  datatype Fault = BadVerdict | BadJson | BadKey

  predicate ValidVerdict(verdict: string) { verdict in {"allow", "gate", "deny"} }

  function SetOverride(table: Table, system: string, name: string, verdict: string, reason: string, actor: string, now: real): Result<Table, Fault> {
    if ValidVerdict(verdict) then Ok(table[Key(system, name) := Verdict(verdict, reason, actor, now)]) else Err(BadVerdict)
  }

  function RemoveOverride(table: Table, system: string, name: string): Table {
    table[Key(system, name) := Cleared]
  }

  function GetOverride(table: Table, system: string, name: string): Result<Option<Value>, Fault> {
    var key := Key(system, name);
    if key !in table || table[key].Cleared? then Ok(None)
    else if table[key].Raw? then Err(BadJson)
    else Ok(Some(table[key]))
  }

  /** `_, system, method = key.split(":", 2)` on a key that starts with BASE, and the parsed value. */
  function ParseEntry(key: string, value: Value): Result<Entry, Fault>
    requires BASE <= key
  {
    var rest := key[|BASE|..];
    var i := FirstColon(rest);
    if i == |rest| then Err(BadKey)
    else if value.Raw? then Err(BadJson)
    else Ok(Entry(rest[..i], rest[i + 1..], value))
  }

  predicate Listable(table: Table) {
    forall key | key in table && BASE <= key && !table[key].Cleared? :: ParseEntry(key, table[key]).Ok?
  }

  /** `list_overrides` finds this entry. */
  predicate Listed(table: Table, e: Entry) {
    exists key :: key in table && BASE <= key && !table[key].Cleared? && ParseEntry(key, table[key]) == Ok(e)
  }

  lemma {:induction false} LowerKeepsColons(s: string)
    ensures ':' in Lower(s) <==> ':' in s
    ensures Lower(Lower(s)) == Lower(s)
  {
    if s != "" {
      LowerKeepsColons(s[1..]);
      assert ':' in s <==> s[0] == ':' || ':' in s[1..];
      assert Lower(s)[1..] == Lower(s[1..]);
      assert ':' in Lower(s) <==> Lower(s)[0] == ':' || ':' in Lower(s)[1..];
    }
  }

  lemma ParseKey(system: string, name: string, value: Value)
    requires ':' !in system && !value.Raw?
    ensures BASE <= Key(system, name)
    ensures ParseEntry(Key(system, name), value) == Ok(Entry(Lower(system), Lower(name), value))
  {
    LowerKeepsColons(system);
    var rest := Lower(system) + ":" + Lower(name);
    assert Key(system, name) == BASE + rest && Key(system, name)[|BASE|..] == rest;
    FirstColonAt(rest, |Lower(system)|);
    assert rest[..|Lower(system)|] == Lower(system) && rest[|Lower(system)| + 1..] == Lower(name);
  }

  /** A key is determined by the entry it parses to. */
  lemma ParseDetermines(key: string, value: Value, e: Entry)
    requires BASE <= key && ParseEntry(key, value) == Ok(e)
    ensures key == BASE + (e.system + ":" + e.name) && ':' !in e.system && e.data == value
  {
    var rest := key[|BASE|..];
    var i := FirstColon(rest);
    FirstColonIs(rest);
    assert rest == rest[..i] + ":" + rest[i + 1..];
    assert key == BASE + rest;
  }

  /** The list shows a (system, method) pair exactly when looking the pair up finds it and the system has no
      colon: a colon in the system moves the split. */
  lemma ListedIffFound(table: Table, system: string, name: string, data: Value)
    requires Listable(table)
    ensures Listed(table, Entry(Lower(system), Lower(name), data))
       <==> ':' !in system && GetOverride(table, system, name) == Ok(Some(data))
  {
    var e, key := Entry(Lower(system), Lower(name), data), Key(system, name);
    LowerKeepsColons(system);
    if Listed(table, e) {
      var found :| found in table && BASE <= found && !table[found].Cleared? && ParseEntry(found, table[found]) == Ok(e);
      ParseDetermines(found, table[found], e);
      assert found == key;
    }
    if ':' !in system && GetOverride(table, system, name) == Ok(Some(data)) {
      ParseKey(system, name, data);
      assert key in table && BASE <= key && ParseEntry(key, table[key]) == Ok(e);
    }
  }

  lemma KeyIs(system: string, name: string)
    ensures Key(system, name) == "policy_override:" + Lower(system) + ":" + Lower(name)
  {
    assert BASE + (Lower(system) + ":" + Lower(name)) == BASE + Lower(system) + ":" + Lower(name);
  }

  /** An entry is listed exactly when its key is stored with a value that is neither deleted nor unreadable. */
  lemma ListedExactly(table: Table, e: Entry)
    ensures Listed(table, e) <==>
              && ':' !in e.system && !e.data.Cleared? && !e.data.Raw?
              && "policy_override:" + (e.system + ":" + e.name) in table
              && table["policy_override:" + (e.system + ":" + e.name)] == e.data
  {
    var rest := e.system + ":" + e.name;
    var key := "policy_override:" + rest;
    assert BASE <= key && key[|BASE|..] == rest;
    if Listed(table, e) {
      var found :| found in table && BASE <= found && !table[found].Cleared? && ParseEntry(found, table[found]) == Ok(e);
      ParseDetermines(found, table[found], e);
    }
    if ':' !in e.system && !e.data.Cleared? && !e.data.Raw? && key in table && table[key] == e.data {
      assert forall j | 0 <= j < |e.system| :: rest[j] == e.system[j];
      FirstColonAt(rest, |e.system|);
      assert rest[..|e.system|] == e.system && rest[|e.system| + 1..] == e.name;
      assert ParseEntry(key, e.data) == Ok(e);
    }
  }

  /** An override is stored exactly for one of the three verdicts, with its reason, its author and the time. */
  lemma SetExactly(table: Table, system: string, name: string, verdict: string, reason: string, actor: string, now: real)
    ensures SetOverride(table, system, name, verdict, reason, actor, now) ==
              if verdict == "allow" || verdict == "gate" || verdict == "deny"
              then Ok(table["policy_override:" + Lower(system) + ":" + Lower(name) := Verdict(verdict, reason, actor, now)])
              else Err(BadVerdict)
  {
    KeyIs(system, name);
  }

  lemma GetExactly(table: Table, system: string, name: string)
    ensures var key := "policy_override:" + Lower(system) + ":" + Lower(name);
            GetOverride(table, system, name) ==
              if key !in table || table[key] == Cleared then Ok(None)
              else if table[key].Raw? then Err(BadJson) else Ok(Some(table[key]))
  {
    KeyIs(system, name);
  }

  lemma SplitAtColon(a: string, b: string, c: string, d: string)
    requires ':' !in a && ':' !in c && a + ":" + b == c + ":" + d
    ensures a == c && b == d
  {
    var s := a + ":" + b;
    assert s[|a|] == ':' && (c + ":" + d)[|c|] == ':';
    assert forall j | 0 <= j < |a| :: s[j] == a[j];
    assert forall j | 0 <= j < |c| :: s[j] == c[j];
    FirstColonAt(s, |a|);
    FirstColonAt(s, |c|);
    assert s[..|a|] == a && s[..|c|] == c && s[|a| + 1..] == b && (c + ":" + d)[|c| + 1..] == d;
  }

  lemma SameBehind(base: string, a: string, b: string, key: string)
    requires key == base + a == base + b
    ensures a == b
  {
    assert (base + a)[|base|..] == a && (base + b)[|base|..] == b;
  }

  lemma KeyIsInjective(system: string, name: string, system': string, name': string)
    requires ':' !in system && ':' !in system'
    requires Key(system, name) == Key(system', name')
    ensures Lower(system) == Lower(system') && Lower(name) == Lower(name')
  {
    LowerKeepsColons(system);
    LowerKeepsColons(system');
    SameBehind(BASE, Lower(system) + ":" + Lower(name), Lower(system') + ":" + Lower(name'), Key(system, name));
    SplitAtColon(Lower(system), Lower(name), Lower(system'), Lower(name'));
  }

  /** Setting one override changes the answer for that pair, in any letter case, and for no other
      colon-free pair; removing it makes the pair answer "none". */
  lemma OverridesAreIndependent(table: Table, system: string, name: string, verdict: string, reason: string, actor: string, now: real,
                                system': string, name': string)
    requires ValidVerdict(verdict) && ':' !in system && ':' !in system'
    ensures var t := SetOverride(table, system, name, verdict, reason, actor, now).value;
            var same := Lower(system) == Lower(system') && Lower(name) == Lower(name');
            && GetOverride(t, system', name') ==
                 (if same then Ok(Some(Verdict(verdict, reason, actor, now))) else GetOverride(table, system', name'))
            && GetOverride(RemoveOverride(t, system, name), system', name') ==
                 (if same then Ok(None) else GetOverride(table, system', name'))
  {
    if Key(system, name) == Key(system', name') {
      KeyIsInjective(system, name, system', name');
    }
  }

  /** Overrides written here are always listable. */
  lemma WritesStayListable(table: Table, system: string, name: string, verdict: string, reason: string, actor: string, now: real)
    requires Listable(table) && ValidVerdict(verdict)
    ensures Listable(SetOverride(table, system, name, verdict, reason, actor, now).value)
    ensures Listable(RemoveOverride(table, system, name))
  {
    var rest := Lower(system) + ":" + Lower(name);
    assert Key(system, name) == BASE + rest && Key(system, name)[|BASE|..] == rest;
    assert rest[|Lower(system)|] == ':';
    FirstColonIs(rest);
    assert FirstColon(rest) < |rest|;
  }

  // ---- in place ----

  method Set(settings: SettingsTable, system: string, name: string, verdict: string, reason: string, actor: string, now: real)
    returns (done: bool)
    modifies settings
    ensures done == SetOverride(old(settings.rows), system, name, verdict, reason, actor, now).Ok?
    ensures settings.rows ==
              if done then SetOverride(old(settings.rows), system, name, verdict, reason, actor, now).value else old(settings.rows)
  {
    done := ValidVerdict(verdict);
    if done {
      settings.SetSetting(Key(system, name), Verdict(verdict, reason, actor, now));
    }
  }

  method Remove(settings: SettingsTable, system: string, name: string)
    modifies settings
    ensures settings.rows == RemoveOverride(old(settings.rows), system, name)
  {
    settings.SetSetting(Key(system, name), Cleared);
  }

  method Get(settings: SettingsTable, system: string, name: string) returns (found: Result<Option<Value>, Fault>)
    ensures found == GetOverride(settings.rows, system, name)
  {
    var raw := settings.GetSetting(Key(system, name));
    if raw.None? || raw.value.Cleared? {
      return Ok(None);
    }
    if raw.value.Raw? {
      return Err(BadJson);
    }
    return Ok(Some(raw.value));
  }

  /** Fails exactly when some entry cannot be parsed; otherwise lists every entry, none twice. */
  method List(settings: SettingsTable) returns (out: Result<seq<Entry>, Fault>)
    ensures out.Ok? <==> Listable(settings.rows)
    ensures out.Ok? ==> forall e :: e in out.value <==> Listed(settings.rows, e)
    ensures out.Ok? ==> forall i, j | 0 <= i < j < |out.value| :: (out.value[i].system, out.value[i].name) != (out.value[j].system, out.value[j].name)
  {
    var rows := settings.ListSettingsByPrefix(BASE);
    BaseIsPlain();
    assert rows == StartingWith(settings.rows, BASE);
    var pending, entries := rows.Keys, [];
    while pending != {}
      invariant pending <= rows.Keys
      invariant forall key | key in rows && key !in pending && !rows[key].Cleared? :: ParseEntry(key, rows[key]).Ok?
      invariant forall e :: e in entries <==> ListedAmong(rows, rows.Keys - pending, e)
      invariant forall i, j | 0 <= i < j < |entries| :: (entries[i].system, entries[i].name) != (entries[j].system, entries[j].name)
    {
      var key :| key in pending;
      ghost var before := entries;
      if !rows[key].Cleared? {
        var parsed := ParseEntry(key, rows[key]);
        if parsed.Err? {
          assert key in settings.rows && BASE <= key;
          return Err(parsed.error);
        }
        forall e | e in entries ensures (e.system, e.name) != (parsed.value.system, parsed.value.name) {
          NotListedTwice(rows, rows.Keys - pending, key, parsed.value, e);
        }
        entries := entries + [parsed.value];
      }
      ListedAmongGrows(rows, rows.Keys - pending, key);
      assert rows.Keys - (pending - {key}) == (rows.Keys - pending) + {key};
      pending := pending - {key};
    }
    AllParse(settings.rows, rows);
    assert rows.Keys - {} == rows.Keys;
    forall e ensures ListedAmong(rows, rows.Keys, e) <==> Listed(settings.rows, e) {
      AllListed(settings.rows, rows, e);
    }
    out := Ok(entries);
  }

  lemma BaseIsPlain()
    ensures '\\' !in BASE
  {
  }

  predicate ListedAmong(rows: Table, keys: set<string>, e: Entry) {
    exists key :: key in keys && key in rows && BASE <= key && !rows[key].Cleared? && ParseEntry(key, rows[key]) == Ok(e)
  }

  lemma AllListed(table: Table, rows: Table, e: Entry)
    requires rows == StartingWith(table, BASE)
    ensures ListedAmong(rows, rows.Keys, e) <==> Listed(table, e)
  {
    if ListedAmong(rows, rows.Keys, e) {
      var key :| key in rows && BASE <= key && !rows[key].Cleared? && ParseEntry(key, rows[key]) == Ok(e);
      assert key in table && table[key] == rows[key];
    }
    if Listed(table, e) {
      var key :| key in table && BASE <= key && !table[key].Cleared? && ParseEntry(key, table[key]) == Ok(e);
      assert key in rows && rows[key] == table[key];
    }
  }

  lemma AllParse(table: Table, rows: Table)
    requires rows == StartingWith(table, BASE)
    requires forall key | key in rows && !rows[key].Cleared? :: ParseEntry(key, rows[key]).Ok?
    ensures Listable(table)
  {
    forall key | key in table && BASE <= key && !table[key].Cleared? ensures ParseEntry(key, table[key]).Ok? {
      assert key in rows;
    }
  }

  lemma ListedAmongGrows(rows: Table, keys: set<string>, key: string)
    requires key in rows && BASE <= key
    ensures forall e :: ListedAmong(rows, keys + {key}, e) <==>
              ListedAmong(rows, keys, e) || (!rows[key].Cleared? && ParseEntry(key, rows[key]) == Ok(e))
  {
  }

  lemma NotListedTwice(rows: Table, keys: set<string>, key: string, parsed: Entry, e: Entry)
    requires key in rows && key !in keys && BASE <= key && ParseEntry(key, rows[key]) == Ok(parsed)
    requires ListedAmong(rows, keys, e)
    ensures (e.system, e.name) != (parsed.system, parsed.name)
  {
    var other :| other in keys && other in rows && BASE <= other && !rows[other].Cleared? && ParseEntry(other, rows[other]) == Ok(e);
    ParseDetermines(other, rows[other], e);
    ParseDetermines(key, rows[key], parsed);
  }
}
