/** What the entry points of the skill library accept, refuse and write, told in their inputs and the tables alone;
    and that whoever creates a skill can go on editing it. */
module SkillRules {
  import opened Wrappers
  import opened Text
  import opened Frontmatter
  import opened SkillStore

  /** There is something besides white space. */
  predicate Says(text: string) { exists i | 0 <= i < |text| :: !PySpace(text[i]) }

  lemma BlankExactly(text: string)
    ensures Blank(text) <==> !Says(text)
  {
    if Says(text) {
      var i :| 0 <= i < |text| && !PySpace(text[i]);
      var from, to := TrimCuts(text, PySpace);
      assert from <= i < to;
    } else {
      TrimBlank(text, PySpace);
    }
  }

  predicate Kebab(c: char) { 'a' <= c <= 'z' || '0' <= c <= '9' || c == '-' }

  /** A slug is the stripped, lower-cased name with every other character turned into a hyphen and the outer hyphens
      cut off. */
  lemma SlugIs(name: string) returns (from: nat, to: nat)
    ensures var text, slug := Lower(Trim(name, PySpace)), Slugify(name);
            && from <= to <= |text| && |slug| == to - from
            && (forall i | 0 <= i < |slug| :: slug[i] == if Kebab(text[from + i]) then text[from + i] else '-')
            && (forall i | 0 <= i < from || to <= i < |text| :: text[i] == '-' || !Kebab(text[i]))
            && (slug != "" ==> slug[0] != '-' && slug[|slug| - 1] != '-')
  {
    var text := Lower(Trim(name, PySpace));
    from, to := DashedCut(text);
  }

  lemma DashedCut(text: string) returns (from: nat, to: nat)
    ensures var slug := Trim(Dashed(text), IsDash);
            && from <= to <= |text| && |slug| == to - from
            && (forall i | 0 <= i < |slug| :: slug[i] == if Kebab(text[from + i]) then text[from + i] else '-')
            && (forall i | 0 <= i < from || to <= i < |text| :: text[i] == '-' || !Kebab(text[i]))
            && (slug != "" ==> slug[0] != '-' && slug[|slug| - 1] != '-')
  {
    var dashed := Dashed(text);
    from, to := TrimCuts(dashed, IsDash);
    assert forall i | 0 <= i < |text| :: dashed[i] == if Kebab(text[i]) then text[i] else '-';
    assert forall i | 0 <= i < to - from :: dashed[from..to][i] == dashed[from + i];
  }

  predicate SamePerson(a: string, b: string) { Lower(a) == Lower(b) }

  /** The SKILL.md text of a draft. */
  function TextOf(slug: string, description: string, body: string): string {
    "---\nname: " + slug + "\ndescription: " + Trim(description, PySpace) + "\n---\n\n" + Trim(body, PySpace) + "\n"
  }

  lemma PrintedIs(e: Event)
    requires e.Author? || e.Create?
    ensures Printed(e) == TextOf(Target(e), e.description, e.body)
  {
    var slug, d, b := Target(e), Trim(e.description, PySpace), Trim(e.body, PySpace);
    Flattened(slug, d, b);
  }

  lemma Flattened(slug: string, d: string, b: string)
    ensures WrapFrontmatter(slug, d, b) == "---\nname: " + slug + "\ndescription: " + d + "\n---\n\n" + b + "\n"
  {
    assert "---\n" + ("name: " + slug) == "---\nname: " + slug;
    assert "---\nname: " + slug + "\n" + ("description: " + d) == "---\nname: " + slug + "\ndescription: " + d;
    assert "---\nname: " + slug + "\ndescription: " + d + "\n" + "---\n" + "\n" == "---\nname: " + slug + "\ndescription: " + d + "\n---\n\n";
  }

  // ---- the console's save ----

  /** A text is saved exactly for an administrator or the author, letter case ignored; then it is the row's content, the
      file and a new version under the saver's name. Otherwise nothing changes. */
  lemma SaveExactly(s: State, e: Event)
    requires e.Save?
    ensures var accepted := && Says(e.content) && e.slug in s.rows
                            && (e.caller.admin || SamePerson(s.rows[e.slug].author, e.caller.email));
            && (Refusal(s, e) == None <==> accepted)
            && Do(s, e) ==
                 if accepted then
                   State(s.builtins, s.rows[e.slug := s.rows[e.slug].(content := e.content)],
                         s.versions + [Version(NextId(s.versions), e.slug, e.content, e.note, e.caller.email)],
                         s.files[e.slug := e.content])
                 else s
    ensures Refusal(s, e) == Some(MissingField) <==> !Says(e.content)
    ensures Refusal(s, e) == Some(BuiltIn) <==> Says(e.content) && e.slug !in s.rows && e.slug in e.library
    ensures Refusal(s, e) == Some(NotFound) <==> Says(e.content) && e.slug !in s.rows && e.slug !in e.library
  {
    BlankExactly(e.content);
  }

  // ---- the chat tool and the console's post ----

  /** A draft names a slug that is not a built-in's and has a description and a body. */
  predicate Complete(s: State, e: Event)
    requires e.Author? || e.Create?
  {
    Target(e) != "" && Says(e.description) && Says(e.body) && (Target(e) in s.rows || Target(e) !in e.library)
  }

  predicate MayAuthor(s: State, e: Event)
    requires e.Author?
  {
    Target(e) in s.rows ==>
      var author := s.rows[Target(e)].author;
      e.caller.admin || !Says(author) || SamePerson(Trim(author, PySpace), e.caller.email)
  }

  predicate MayCreate(s: State, e: Event)
    requires e.Create?
  {
    Target(e) in s.rows ==> e.caller.admin || SamePerson(s.rows[Target(e)].author, e.caller.email)
  }

  lemma DraftRefused(s: State, e: Event)
    requires e.Author? || e.Create?
    ensures Refusal(s, e) == None <==> Complete(s, e) && if e.Author? then MayAuthor(s, e) else MayCreate(s, e)
    ensures Refusal(s, e) == Some(NoSlug) <==> Target(e) == ""
    ensures Refusal(s, e) == Some(MissingField) <==> Target(e) != "" && !(Says(e.description) && Says(e.body))
    ensures Refusal(s, e) == Some(BuiltIn) <==>
              Target(e) != "" && Says(e.description) && Says(e.body) && Target(e) !in s.rows && Target(e) in e.library
  {
    BlankExactly(e.description);
    BlankExactly(e.body);
    if Target(e) in s.rows {
      BlankExactly(s.rows[Target(e)].author);
    }
  }

  /** A first version: the row, its file and the history start out with the text and its author. */
  predicate Starts(s: State, t: State, slug: string, name: string, description: string, text: string, author: string) {
    t == State(s.builtins, s.rows[slug := Row(name, description, text, author, false, 1)],
               s.versions + [Version(NextId(s.versions), slug, text, "Created", author)], s.files[slug := text])
  }

  /** A row that is there gets a new title, description and text, keeps its author and pin, and counts one use more; its
      file follows, and the history stays. */
  predicate Rewrites(s: State, t: State, slug: string, name: string, description: string, text: string)
    requires slug in s.rows
  {
    var row := s.rows[slug];
    t == State(s.builtins, s.rows[slug := Row(name, description, text, row.author, row.pinned, row.usage + 1)],
               s.versions, s.files[slug := text])
  }

  /** The chat tool writes exactly for an administrator, the author, or a skill nobody owns: a new skill starts out with
      its author, an old one gets a new text and nothing else. */
  lemma AuthorExactly(s: State, e: Event)
    requires e.Author?
    ensures var slug, text, email := Target(e), TextOf(Target(e), e.description, e.body), e.caller.email;
            if !(Complete(s, e) && MayAuthor(s, e)) then Do(s, e) == s
            else if slug !in s.rows then Starts(s, Do(s, e), slug, slug, Trim(e.description, PySpace), text, email)
            else Do(s, e) == State(s.builtins, s.rows[slug := s.rows[slug].(content := text)],
                                   s.versions + [Version(NextId(s.versions), slug, text, "Edited via Slack", email)],
                                   s.files[slug := text])
  {
    DraftRefused(s, e);
    if Refusal(s, e) == None {
      PrintedIs(e);
      if Target(e) !in s.rows {
        Authored(s, e);
      }
    }
  }

  lemma Authored(s: State, e: Event)
    requires e.Author? && Refusal(s, e) == None && Target(e) !in s.rows
    ensures Starts(s, Do(s, e), Target(e), Target(e), Trim(e.description, PySpace), Printed(e), e.caller.email)
  {
  }

  /** The console's post writes exactly for an administrator or the author; posted again, a skill keeps its author and
      its pin, and no version is recorded. */
  lemma CreateExactly(s: State, e: Event)
    requires e.Create?
    ensures var slug, text, email := Target(e), TextOf(Target(e), e.description, e.body), e.caller.email;
            var name, description := if Says(e.title) then Trim(e.title, PySpace) else slug, Trim(e.description, PySpace);
            if !(Complete(s, e) && MayCreate(s, e)) then Do(s, e) == s
            else if slug !in s.rows then Starts(s, Do(s, e), slug, name, description, text, email)
            else Rewrites(s, Do(s, e), slug, name, description, text)
  {
    DraftRefused(s, e);
    if Refusal(s, e) == None {
      PrintedIs(e);
      BlankExactly(e.title);
      var name := if Blank(e.title) then Target(e) else Trim(e.title, PySpace);
      if Target(e) in s.rows {
        Reposted(s, e, Target(e), name, Trim(e.description, PySpace), Printed(e));
      } else {
        Posted(s, e, Target(e), name, Trim(e.description, PySpace), Printed(e));
      }
    }
  }

  lemma Posted(s: State, e: Event, slug: string, name: string, description: string, text: string)
    requires e.Create? && Refusal(s, e) == None && slug == Target(e) && slug !in s.rows && text == Printed(e)
    requires name == (if Blank(e.title) then slug else Trim(e.title, PySpace)) && description == Trim(e.description, PySpace)
    ensures Starts(s, Do(s, e), slug, name, description, text, e.caller.email)
  {
    assert Do(s, e) == CreateSkill(s, e);
  }

  lemma Reposted(s: State, e: Event, slug: string, name: string, description: string, text: string)
    requires e.Create? && Refusal(s, e) == None && slug == Target(e) && slug in s.rows && text == Printed(e)
    requires name == (if Blank(e.title) then slug else Trim(e.title, PySpace)) && description == Trim(e.description, PySpace)
    ensures Rewrites(s, Do(s, e), slug, name, description, text)
  {
    assert Do(s, e) == CreateSkill(s, e);
    Upserted(s, slug, name, description, text, e.caller.email);
  }

  lemma Upserted(s: State, slug: string, name: string, description: string, text: string, author: string)
    requires slug in s.rows
    ensures var row := s.rows[slug];
            UpsertSkill(s, slug, name, description, text, author)
            == State(s.builtins, s.rows[slug := Row(name, description, text, row.author, row.pinned, row.usage + 1)], s.versions, s.files)
  {
  }

  // ---- pins, retirement, start-up ----

  lemma PinExactly(s: State, e: Event)
    requires e.Pin?
    ensures Do(s, e) == if e.caller.admin && e.slug in s.rows then s.(rows := s.rows[e.slug := s.rows[e.slug].(pinned := e.pinned)]) else s
    ensures Refusal(s, e) == if !e.caller.admin then Some(NotAdmin) else if e.slug !in s.rows then Some(NotFound) else None
  {
  }

  lemma RetireExactly(s: State, e: Event)
    requires e.Retire?
    ensures Do(s, e) == if e.caller.admin && e.slug in s.rows && !s.rows[e.slug].pinned
                        then s.(rows := s.rows - {e.slug}, files := s.files - {e.slug}) else s
    ensures Refusal(s, e) == Some(NotAdmin) <==> !e.caller.admin
    ensures Refusal(s, e) == Some(Pinned) <==> e.caller.admin && e.slug in s.rows && s.rows[e.slug].pinned
    ensures Refusal(s, e) == Some(BuiltIn) <==> e.caller.admin && e.slug !in s.rows && e.slug in e.library
  {
  }

  /** After a start-up every authored skill has its file, and every other file is one that was there before, which after
      a deploy are those of the new code. */
  lemma StartUpWrites(s: State, e: Event, path: string)
    requires e.Sync? || e.Deploy?
    ensures var t, disk := Do(s, e), if e.Sync? then s.files else e.bundle;
            && t.rows == s.rows && t.versions == s.versions && t.builtins == (if e.Sync? then s.builtins else e.bundle)
            && (path in t.files <==> path in s.rows || path in disk)
            && (path in t.files ==> t.files[path] == if path in s.rows then s.rows[path].content else disk[path])
  {
  }

  // ---- whoever creates a skill keeps it ----

  lemma {:induction false} SkillStays(s: State, events: seq<Event>, slug: string)
    requires slug in s.rows
    requires forall k | 0 <= k < |events| :: !(events[k].Retire? && events[k].slug == slug && events[k].caller.admin)
    ensures slug in Run(s, events).rows && Run(s, events).rows[slug].author == s.rows[slug].author
  {
    if events != [] {
      var n := |events| - 1;
      SkillStays(s, events[..n], slug);
      RemovedOnlyByRetire(Run(s, events[..n]), events[n], slug);
      EditsAreAuthorised(Run(s, events[..n]), events[n], slug);
    }
  }

  /** Whoever creates a skill, in chat or in the console, can save any text that says something to it after every run in
      which no administrator retires it, whoever has edited or pinned it meanwhile. */
  lemma CreatorsCanEdit(s: State, create: Event, events: seq<Event>, save: Event)
    requires (create.Author? || create.Create?) && Refusal(s, create) == None && Target(create) !in s.rows
    requires forall k | 0 <= k < |events| :: !(events[k].Retire? && events[k].slug == Target(create) && events[k].caller.admin)
    requires save.Save? && save.slug == Target(create) && SamePerson(save.caller.email, create.caller.email) && Says(save.content)
    ensures var before := Run(Do(s, create), events);
            var t := Do(before, save);
            && save.slug in t.rows && t.rows[save.slug].content == save.content
            && save.slug in t.files && t.files[save.slug] == save.content
            && Tip(t.versions, save.slug) == Some(save.content)
  {
    DraftRefused(s, create);
    if create.Author? {
      AuthorExactly(s, create);
    } else {
      CreateExactly(s, create);
    }
    assert Target(create) in Do(s, create).rows && Do(s, create).rows[Target(create)].author == create.caller.email;
    SkillStays(Do(s, create), events, Target(create));
    var before := Run(Do(s, create), events);
    SaveExactly(before, save);
    TipAppend(before.versions, Version(NextId(before.versions), save.slug, save.content, save.note, save.caller.email), save.slug);
  }
}
