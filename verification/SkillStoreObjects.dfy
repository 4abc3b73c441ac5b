/** The skill tables and the skills folder changed in place, as the tools and routes change them. Every entry
    point is proved to be one step of the machine in SkillStore. */
module SkillStoreObjects {
  import opened Wrappers
  import opened Frontmatter
  import opened SkillStore

  /** The files once every row outside `pending` has been written. */
  ghost function Mirrored(files: map<string, string>, rows: map<string, Row>, pending: set<string>): map<string, string> {
    files + (map slug | slug in rows && slug !in pending :: rows[slug].content)
  }

  lemma MirrorEnds(files: map<string, string>, rows: map<string, Row>)
    ensures Mirrored(files, rows, rows.Keys) == files
    ensures Mirrored(files, rows, {}) == files + Contents(rows)
  {
    assert (map slug | slug in rows && slug !in {} :: rows[slug].content) == Contents(rows);
  }

  lemma MirrorOne(files: map<string, string>, rows: map<string, Row>, pending: set<string>, slug: string)
    requires slug in pending && slug in rows
    ensures Mirrored(files, rows, pending - {slug}) == Mirrored(files, rows, pending)[slug := rows[slug].content]
  {
  }

  class SkillLibrary {
    var builtins: map<string, string>
    var rows: map<string, Row>
    var versions: seq<Version>
    var files: map<string, string>

    ghost function Now(): State
      reads this
    {
      State(builtins, rows, versions, files)
    }

    constructor (bundle: map<string, string>)
      ensures Now() == State(bundle, map[], [], bundle)
      ensures Synced(Now()) && HistoryCurrent(Now())
    {
      builtins, rows, versions, files := bundle, map[], [], bundle;
    }

    method Upsert(slug: string, name: string, description: string, content: string, author: string)
      modifies this`rows
      ensures Now() == UpsertSkill(old(Now()), slug, name, description, content, author)
    {
      if slug in rows {
        var row := rows[slug];
        rows := rows[slug := row.(name := name, description := description, content := content, usage := row.usage + 1)];
      } else {
        rows := rows[slug := Row(name, description, content, author, false, 1)];
      }
    }

    method Update(slug: string, content: string, author: string, note: string) returns (version: Option<nat>)
      modifies this`rows, this`versions, this`files
      ensures Now() == UpdateContent(old(Now()), slug, content, author, note)
      ensures version == if slug in old(rows) then Some(NextId(old(versions))) else None
    {
      if slug !in rows {
        return None;
      }
      rows := rows[slug := rows[slug].(content := content)];
      var id := NextId(versions);
      versions := versions + [Version(id, slug, content, note, author)];
      files := files[slug := content];
      return Some(id);
    }

    method SetPinned(slug: string, pinned: bool) returns (found: bool)
      modifies this`rows
      ensures found == (slug in old(rows))
      ensures rows == if found then old(rows)[slug := old(rows)[slug].(pinned := pinned)] else old(rows)
    {
      found := slug in rows;
      if found {
        rows := rows[slug := rows[slug].(pinned := pinned)];
      }
    }

    method Delete(slug: string) returns (found: bool)
      modifies this`rows
      ensures found == (slug in old(rows)) && rows == old(rows) - {slug}
    {
      found := slug in rows;
      rows := rows - {slug};
    }

    /** The rows come in some order; the loop writes one file for each. */
    method MaterializeToFs() returns (count: nat)
      modifies this`files
      ensures Now() == Materialize(old(Now())) && count == |rows|
    {
      count := 0;
      ghost var start := files;
      var all := rows;
      var pending := all.Keys;
      MirrorEnds(start, all);
      while pending != {}
        invariant pending <= all.Keys && count + |pending| == |all|
        invariant files == Mirrored(start, all, pending)
      {
        var slug :| slug in pending;
        MirrorOne(start, all, pending, slug);
        pending := pending - {slug};
        files := files[slug := all[slug].content];
        count := count + 1;
      }
    }

    /** `_author_skill_impl`. */
    method AuthorTool(library: set<string>, caller: Caller, name: string, description: string, body: string)
      returns (refused: Option<Reason>)
      modifies this`rows, this`versions, this`files
      ensures var e := Author(library, caller, name, description, body);
              Now() == Do(old(Now()), e) && refused == Refusal(old(Now()), e)
    {
      var slug := Slugify(name);
      refused := AuthorRefusal(Snapshot(), library, caller, slug, description, body);
      if refused.Some? {
        return;
      }
      var content := WrapFrontmatter(slug, Trim(description, PySpace), Trim(body, PySpace));
      if slug !in rows {
        Upsert(slug, slug, Trim(description, PySpace), content, caller.email);
        var _ := Update(slug, content, caller.email, "Created");
      } else {
        var _ := Update(slug, content, caller.email, "Edited via Slack");
      }
    }

    function Snapshot(): (s: State)
      reads this
      ensures s == Now()
    {
      State(builtins, rows, versions, files)
    }

    /** `create_skill_route`. */
    method CreateRoute(library: set<string>, caller: Caller, rawSlug: string, title: string, description: string, body: string)
      returns (refused: Option<Reason>)
      modifies this`rows, this`versions, this`files
      ensures var e := Create(library, caller, rawSlug, title, description, body);
              Now() == Do(old(Now()), e) && refused == Refusal(old(Now()), e)
    {
      var slug := Slugify(rawSlug);
      refused := CreateRefusal(Snapshot(), library, caller, slug, description, body);
      if refused.Some? {
        return;
      }
      var isNew := slug !in rows;
      var content := WrapFrontmatter(slug, Trim(description, PySpace), Trim(body, PySpace));
      Upsert(slug, if Blank(title) then slug else Trim(title, PySpace), Trim(description, PySpace), content, caller.email);
      if isNew {
        var _ := Update(slug, content, caller.email, "Created");
      } else {
        files := files[slug := content];
      }
    }

    /** `save_skill_route`. */
    method SaveRoute(library: set<string>, caller: Caller, slug: string, content: string, note: string)
      returns (refused: Option<Reason>, version: Option<nat>)
      modifies this`rows, this`versions, this`files
      ensures var e := Save(library, caller, slug, content, note);
              Now() == Do(old(Now()), e) && refused == Refusal(old(Now()), e)
      ensures version == if refused.None? then Some(NextId(old(versions))) else None
    {
      refused := SaveRefusal(Snapshot(), library, caller, slug, content);
      version := None;
      if refused.None? {
        version := Update(slug, content, caller.email, note);
      }
    }

    /** `_pin_impl` (after slugifying) and `pin_skill_route`. */
    method PinSkill(caller: Caller, slug: string, pinned: bool) returns (refused: Option<Reason>)
      modifies this`rows
      ensures Now() == Do(old(Now()), Pin(caller, slug, pinned)) && refused == Refusal(old(Now()), Pin(caller, slug, pinned))
    {
      if !caller.admin {
        return Some(NotAdmin);
      }
      var found := SetPinned(slug, pinned);
      return if found then None else Some(NotFound);
    }

    /** `_retire_impl` (after slugifying) and `retire_skill_route`. */
    method RetireSkill(library: set<string>, caller: Caller, slug: string) returns (refused: Option<Reason>)
      modifies this`rows, this`files
      ensures Now() == Do(old(Now()), Retire(library, caller, slug))
      ensures refused == Refusal(old(Now()), Retire(library, caller, slug))
    {
      if !caller.admin {
        return Some(NotAdmin);
      }
      if slug in library && slug !in rows {
        return Some(BuiltIn);
      }
      if slug in rows && rows[slug].pinned {
        return Some(Pinned);
      }
      var found := Delete(slug);
      if !found {
        assert rows == old(rows);
        return Some(NotFound);
      }
      files := files - {slug};
      return None;
    }
  }
}
