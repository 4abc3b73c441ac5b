/** The settings table and its prefix query (shared/persistence/records.py). Values written by the modules of
    this model are JSON objects; JSON is kept as structure, and any other text is `Raw`. */
module Settings {
  import opened Wrappers
  import opened Text

  /** "" stands for a soft-deleted value. */
  datatype Value =
    | Cleared
    | Verdict(verdict: string, reason: string, updatedBy: string, updatedAt: real)
    | Grant(role: string, grantedBy: string, at: real)
    | Raw(text: string)

  type Table = map<string, Value>

  // ---- SQL LIKE ----

  /** SQLite compares ASCII letters without case and has no escape character; PostgreSQL is exact and
      takes a backslash as one. */
  datatype Dialect = Sqlite | Postgres

  predicate SameChar(d: Dialect, p: char, c: char) {
    p == c || (d.Sqlite? && LowerChar(p) == LowerChar(c))
  }

  predicate Like(d: Dialect, pattern: string, s: string)
    decreases |pattern|, |s|
  {
    if pattern == "" then s == ""
    else if pattern[0] == '%' then Like(d, pattern[1..], s) || (s != "" && Like(d, pattern, s[1..]))
    else if s == "" then false
    else if d.Postgres? && pattern[0] == '\\' then
      |pattern| >= 2 && pattern[1] == s[0] && Like(d, pattern[2..], s[1..])
    else (pattern[0] == '_' || SameChar(d, pattern[0], s[0])) && Like(d, pattern[1..], s[1..])
  }

  /** The rows the query fetches, filtered again by startswith. */
  function ListByPrefix(d: Dialect, table: Table, prefix: string): Table {
    map key | key in table && Like(d, prefix + "%", key) && prefix <= key :: table[key]
  }

  function StartingWith(table: Table, prefix: string): Table {
    map key | key in table && prefix <= key :: table[key]
  }

  lemma {:induction false} PercentMatchesAll(d: Dialect, s: string)
    ensures Like(d, "%", s)
  {
    if s == "" {
      assert "%"[1..] == "";
    } else {
      PercentMatchesAll(d, s[1..]);
    }
  }

  /** The pre-filter never loses a key of the prefix, wildcards or not. */
  lemma {:induction false} PrefixMatches(d: Dialect, prefix: string, s: string)
    requires prefix <= s && (d.Sqlite? || '\\' !in prefix)
    ensures Like(d, prefix + "%", s)
  {
    if prefix == "" {
      assert prefix + "%" == "%";
      PercentMatchesAll(d, s);
    } else {
      PrefixMatches(d, prefix[1..], s[1..]);
      assert (prefix + "%")[1..] == prefix[1..] + "%";
      assert s[0] == prefix[0];
      if prefix[0] == '%' {
        assert Like(d, prefix + "%", s[1..]);
      }
    }
  }

  /** The pattern made from q ends in an escape that swallows the final "%" of the match. */
  predicate Swallows(q: string, s: string) {
    q != "" && q[|q| - 1] == '\\' && s != "" && s[|s| - 1] == '%'
  }

  /** A match of such a pattern survives whatever is appended, unless its "%" is swallowed by an escape. */
  lemma {:induction false} MatchSurvives(d: Dialect, q: string, s: string, more: string)
    requires Like(d, q + "%", s) && !Swallows(q, s)
    ensures Like(d, q + "%", s + more)
    decreases |q|, |s|
  {
    var pattern := q + "%";
    if q == "" {
      assert pattern == "%";
      PercentMatchesAll(d, s + more);
    } else {
      assert pattern[1..] == q[1..] + "%";
      assert s != "" ==> (s + more)[1..] == s[1..] + more && (s + more)[0] == s[0];
      if q[0] == '%' {
        if Like(d, pattern[1..], s) {
          MatchSurvives(d, q[1..], s, more);
        } else {
          MatchSurvives(d, q, s[1..], more);
        }
      } else if d.Postgres? && q[0] == '\\' {
        assert |q| >= 2;
        assert pattern[1] == q[1] && pattern[2..] == q[2..] + "%";
        MatchSurvives(d, q[2..], s[1..], more);
      } else {
        MatchSurvives(d, q[1..], s[1..], more);
      }
    }
  }

  /** For one prefix the query returns exactly the keys that start with it, from every table, if and only if the
      prefix matches its own pattern. */
  lemma ListByPrefixIsExact(d: Dialect, prefix: string)
    ensures (forall table: Table :: ListByPrefix(d, table, prefix) == StartingWith(table, prefix)) <==> Like(d, prefix + "%", prefix)
  {
    if Like(d, prefix + "%", prefix) {
      forall table: Table ensures ListByPrefix(d, table, prefix) == StartingWith(table, prefix) {
        forall key | key in table && prefix <= key ensures Like(d, prefix + "%", key) {
          assert key == prefix + key[|prefix|..];
          MatchSurvives(d, prefix, prefix, key[|prefix|..]);
        }
      }
    } else {
      var table: Table := map[prefix := Cleared];
      assert prefix in StartingWith(table, prefix) && prefix !in ListByPrefix(d, table, prefix);
    }
  }

  /** In particular on SQLite, and for every prefix without a backslash. */
  lemma PlainPrefixIsExact(d: Dialect, table: Table, prefix: string)
    requires d.Sqlite? || '\\' !in prefix
    ensures ListByPrefix(d, table, prefix) == StartingWith(table, prefix)
  {
    PrefixMatches(d, prefix, prefix);
    ListByPrefixIsExact(d, prefix);
  }

  /** Without the second filter the wildcards would over-match. */
  lemma LikeAloneOverMatches(d: Dialect)
    ensures Like(d, "a_:" + "%", "ab:x") && !("a_:" <= "ab:x")
  {
    var pattern, s := "a_:%", "ab:x";
    assert "a_:" + "%" == pattern;
    assert pattern[1..] == "_:%" && "_:%"[1..] == ":%" && ":%"[1..] == "%";
    assert s[1..] == "b:x" && "b:x"[1..] == ":x" && ":x"[1..] == "x";
    PercentMatchesAll(d, "x");
    assert Like(d, ":%", ":x");
    assert Like(d, "_:%", "b:x");
    assert s[1] == 'b' && "a_:"[1] == '_';
  }

  /** On PostgreSQL a prefix of one backslash loses keys; a prefix of two loses none. */
  lemma OneBackslashLosesKeys()
    ensures exists table: Table :: ListByPrefix(Postgres, table, "\\") != StartingWith(table, "\\")
    ensures forall table: Table :: ListByPrefix(Postgres, table, "\\\\") == StartingWith(table, "\\\\")
  {
    var one, two := "\\", "\\\\";
    assert |one + "%"| == 2 && (one + "%")[0] == '\\' && (one + "%")[1] == '%';
    assert !Like(Postgres, one + "%", one);
    ListByPrefixIsExact(Postgres, one);
    assert |two + "%"| == 3 && (two + "%")[0] == '\\' && (two + "%")[1] == '\\' && (two + "%")[2..] == "%";
    PercentMatchesAll(Postgres, two[1..]);
    assert Like(Postgres, two + "%", two);
    ListByPrefixIsExact(Postgres, two);
  }

  // ---- the table, in place ----

  class SettingsTable {
    const dialect: Dialect
    var rows: Table

    constructor (dialect: Dialect)
      ensures this.dialect == dialect && rows == map[]
    {
      this.dialect := dialect;
      rows := map[];
    }

    method SetSetting(key: string, value: Value)
      modifies this
      ensures rows == old(rows)[key := value]
    {
      rows := rows[key := value];
    }

    method GetSetting(key: string) returns (value: Option<Value>)
      ensures value == if key in rows then Some(rows[key]) else None
    {
      value := if key in rows then Some(rows[key]) else None;
    }

    /** Fetch by LIKE, then keep what starts with the prefix. */
    method ListSettingsByPrefix(prefix: string) returns (found: Table)
      ensures found == ListByPrefix(dialect, rows, prefix)
      ensures Like(dialect, prefix + "%", prefix) ==> found == StartingWith(rows, prefix)
      ensures dialect.Sqlite? || '\\' !in prefix ==> found == StartingWith(rows, prefix)
    {
      var fetched := map key | key in rows && Like(dialect, prefix + "%", key) :: rows[key];
      found := map key | key in fetched && prefix <= key :: fetched[key];
      assert found == ListByPrefix(dialect, rows, prefix);
      ListByPrefixIsExact(dialect, prefix);
      if dialect.Sqlite? || '\\' !in prefix {
        PlainPrefixIsExact(dialect, rows, prefix);
      }
    }
  }
}
