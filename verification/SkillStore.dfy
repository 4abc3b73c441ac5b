/** Authored skills: the `skills` and `skill_versions` tables, the SKILL.md files made from them, and the
    chat tools and console routes that change them (skills_store.py, skill_authoring.py, console/router.py).
    Each operation is one atomic step. The library a caller holds may be stale: it is a parameter. */
module SkillStore {
  import opened Wrappers
  import opened Text
  import opened Frontmatter

  // ---- slugs ----

  predicate IsSlugChar(c: char) { 'a' <= c <= 'z' || '0' <= c <= '9' || c == '-' }

  predicate IsDash(c: char) { c == '-' }

  function Dashed(s: string): (r: string)
    ensures |r| == |s|
    ensures forall i | 0 <= i < |s| :: r[i] == if IsSlugChar(s[i]) then s[i] else '-'
  {
    if s == "" then "" else [if IsSlugChar(s[0]) then s[0] else '-'] + Dashed(s[1..])
  }

  /** `_slugify`. */
  function Slugify(name: string): string {
    Trim(Dashed(Lower(Trim(name, PySpace))), IsDash)
  }

  predicate IsSlug(s: string) {
    s != "" && (forall i | 0 <= i < |s| :: IsSlugChar(s[i])) && Trimmed(s, IsDash)
  }

  lemma {:induction false} LowerKeepsSlugs(s: string)
    requires forall i | 0 <= i < |s| :: IsSlugChar(s[i])
    ensures Lower(s) == s
  {
    if s != "" {
      LowerKeepsSlugs(s[1..]);
    }
  }

  /** Every name becomes a slug or nothing, and a slug is left alone: whatever is stored under a slug can be
      addressed again by the chat tools, which slugify what they are given. */
  lemma SlugsAreFixed(name: string)
    ensures Slugify(name) == "" || IsSlug(Slugify(name))
    ensures Slugify(Slugify(name)) == Slugify(name)
  {
    var dashed := Dashed(Lower(Trim(name, PySpace)));
    var slug := Slugify(name);
    var from, to := TrimCuts(dashed, IsDash);
    assert forall i | 0 <= i < |slug| :: slug[i] == dashed[from + i];
    SlugIsFixed(slug);
  }

  lemma SlugCharIsPlain(c: char)
    requires IsSlugChar(c)
    ensures !PySpace(c) && !PyBreak(c)
  {
  }

  lemma SlugIsPlain(slug: string)
    requires forall i | 0 <= i < |slug| :: IsSlugChar(slug[i])
    ensures Trimmed(slug, PySpace) && NoBreak(slug)
  {
    forall i | 0 <= i < |slug| ensures !PySpace(slug[i]) && !PyBreak(slug[i]) {
      SlugCharIsPlain(slug[i]);
    }
  }

  lemma SlugIsFixed(slug: string)
    requires forall i | 0 <= i < |slug| :: IsSlugChar(slug[i])
    requires Trimmed(slug, IsDash)
    ensures Slugify(slug) == slug && Trimmed(slug, PySpace) && NoBreak(slug)
  {
    SlugIsPlain(slug);
    TrimFixes(slug, PySpace);
    TrimFixes(slug, IsDash);
    LowerKeepsSlugs(slug);
    assert Dashed(slug) == slug;
  }

  // ---- the state ----

  /** A NULL author reads as "". */
  datatype Row = Row(name: string, description: string, content: string, author: string, pinned: bool, usage: nat)

  datatype Version = Version(id: nat, slug: string, content: string, note: string, author: string)

  /** `files` maps a directory of the skills folder to its SKILL.md; `builtins` is what the deployed code brought. */
  datatype State = State(
    builtins: map<string, string>,
    rows: map<string, Row>,
    versions: seq<Version>,
    files: map<string, string>)

  datatype Caller = Caller(email: string, admin: bool)

  function NextId(versions: seq<Version>): nat {
    if versions == [] then 1 else versions[|versions| - 1].id + 1
  }

  function UpsertSkill(s: State, slug: string, name: string, description: string, content: string, author: string): State {
    var row :=
      if slug in s.rows then
        s.rows[slug].(name := name, description := description, content := content, usage := s.rows[slug].usage + 1)
      else Row(name, description, content, author, false, 1);
    s.(rows := s.rows[slug := row])
  }

  function UpdateContent(s: State, slug: string, content: string, author: string, note: string): State {
    if slug !in s.rows then s
    else
      s.(rows := s.rows[slug := s.rows[slug].(content := content)],
         versions := s.versions + [Version(NextId(s.versions), slug, content, note, author)],
         files := s.files[slug := content])
  }

  function DeleteSkill(s: State, slug: string): State {
    s.(rows := s.rows - {slug}, files := s.files - {slug})
  }

  function Contents(rows: map<string, Row>): map<string, string> {
    map slug | slug in rows :: rows[slug].content
  }

  function Materialize(s: State): State {
    s.(files := s.files + Contents(s.rows))
  }

  // ---- what each entry point refuses ----

  datatype Reason = NoSlug | MissingField | BuiltIn | NotOwner | NotFound | Pinned | NotAdmin

  /** `_is_builtin`: in the library the caller holds, without a row. */
  predicate SeenAsBuiltin(s: State, library: set<string>, slug: string) { slug in library && slug !in s.rows }

  predicate Blank(text: string) { Trim(text, PySpace) == "" }

  predicate Owns(row: Row, caller: Caller) { Lower(row.author) == Lower(caller.email) }

  function DraftRefusal(s: State, library: set<string>, slug: string, description: string, body: string): Option<Reason> {
    if slug == "" then Some(NoSlug)
    else if Blank(description) || Blank(body) then Some(MissingField)
    else if SeenAsBuiltin(s, library, slug) then Some(BuiltIn)
    else None
  }

  function AuthorRefusal(s: State, library: set<string>, caller: Caller, slug: string, description: string, body: string): Option<Reason> {
    var draft := DraftRefusal(s, library, slug, description, body);
    if draft.Some? then draft
    else if slug in s.rows && !Blank(s.rows[slug].author)
         && Lower(Trim(s.rows[slug].author, PySpace)) != Lower(caller.email) && !caller.admin then Some(NotOwner)
    else None
  }

  function CreateRefusal(s: State, library: set<string>, caller: Caller, slug: string, description: string, body: string): Option<Reason> {
    var draft := DraftRefusal(s, library, slug, description, body);
    if draft.Some? then draft
    else if slug in s.rows && !caller.admin && !Owns(s.rows[slug], caller) then Some(NotOwner)
    else None
  }

  function SaveRefusal(s: State, library: set<string>, caller: Caller, slug: string, content: string): Option<Reason> {
    if Blank(content) then Some(MissingField)
    else if slug !in s.rows then Some(if slug in library then BuiltIn else NotFound)
    else if !caller.admin && !Owns(s.rows[slug], caller) then Some(NotOwner)
    else None
  }

  function PinRefusal(s: State, caller: Caller, slug: string): Option<Reason> {
    if !caller.admin then Some(NotAdmin) else if slug !in s.rows then Some(NotFound) else None
  }

  function RetireRefusal(s: State, library: set<string>, caller: Caller, slug: string): Option<Reason> {
    if !caller.admin then Some(NotAdmin)
    else if slug !in s.rows then Some(if slug in library then BuiltIn else NotFound)
    else if s.rows[slug].pinned then Some(Pinned)
    else None
  }

  // ---- the steps ----

  /** Author: the chat tool. Save, Create: the console's PUT and POST. Pin and Retire: either surface.
      Deploy: new code on a fresh disk, followed by the start-up materialize. */
  datatype Event =
    | Author(library: set<string>, caller: Caller, name: string, description: string, body: string)
    | Save(library: set<string>, caller: Caller, slug: string, content: string, note: string)
    | Create(library: set<string>, caller: Caller, rawSlug: string, title: string, description: string, body: string)
    | Pin(caller: Caller, slug: string, pinned: bool)
    | Retire(library: set<string>, caller: Caller, slug: string)
    | Sync
    | Deploy(bundle: map<string, string>)

  function Target(e: Event): string {
    match e
    case Author(_, _, name, _, _) => Slugify(name)
    case Create(_, _, rawSlug, _, _, _) => Slugify(rawSlug)
    case Save(_, _, slug, _, _) => slug
    case Pin(_, slug, _) => slug
    case Retire(_, _, slug) => slug
    case _ => ""
  }

  function Refusal(s: State, e: Event): Option<Reason> {
    match e
    case Author(library, caller, _, description, body) => AuthorRefusal(s, library, caller, Target(e), description, body)
    case Create(library, caller, _, _, description, body) => CreateRefusal(s, library, caller, Target(e), description, body)
    case Save(library, caller, slug, content, _) => SaveRefusal(s, library, caller, slug, content)
    case Pin(caller, slug, _) => PinRefusal(s, caller, slug)
    case Retire(library, caller, slug) => RetireRefusal(s, library, caller, slug)
    case _ => None
  }

  /** What an accepted author or create call prints. */
  function Printed(e: Event): string
    requires e.Author? || e.Create?
  {
    WrapFrontmatter(Target(e), Trim(e.description, PySpace), Trim(e.body, PySpace))
  }

  function AuthorSkill(s: State, e: Event): State
    requires e.Author?
  {
    var slug, email := Target(e), e.caller.email;
    if slug !in s.rows then
      var inserted := UpsertSkill(s, slug, slug, Trim(e.description, PySpace), Printed(e), email);
      UpdateContent(inserted, slug, Printed(e), email, "Created")
    else UpdateContent(s, slug, Printed(e), email, "Edited via Slack")
  }

  function CreateSkill(s: State, e: Event): State
    requires e.Create?
  {
    var slug, email := Target(e), e.caller.email;
    var title := if Blank(e.title) then slug else Trim(e.title, PySpace);
    var upserted := UpsertSkill(s, slug, title, Trim(e.description, PySpace), Printed(e), email);
    if slug !in s.rows then UpdateContent(upserted, slug, Printed(e), email, "Created")
    else upserted.(files := upserted.files[slug := Printed(e)])
  }

  function Do(s: State, e: Event): State {
    if Refusal(s, e).Some? then s
    else
      match e
      case Author(_, _, _, _, _) => AuthorSkill(s, e)
      case Create(_, _, _, _, _, _) => CreateSkill(s, e)
      case Save(_, caller, slug, content, note) => UpdateContent(s, slug, content, caller.email, note)
      case Pin(_, slug, pinned) => s.(rows := s.rows[slug := s.rows[slug].(pinned := pinned)])
      case Retire(_, _, slug) => DeleteSkill(s, slug)
      case Sync => Materialize(s)
      case Deploy(bundle) => Materialize(s.(builtins := bundle, files := bundle))
  }

  function Run(s: State, events: seq<Event>): State {
    if events == [] then s else Do(Run(s, events[..|events| - 1]), events[|events| - 1])
  }

  // ---- files and rows agree ----

  predicate FilesMatch(s: State) {
    forall slug | slug in s.rows :: slug in s.files && s.files[slug] == s.rows[slug].content
  }

  predicate BuiltinsIntact(s: State) {
    forall slug | slug in s.builtins :: slug !in s.rows && slug in s.files && s.files[slug] == s.builtins[slug]
  }

  predicate SlugsOnly(s: State) { forall slug | slug in s.rows :: IsSlug(slug) }

  predicate IdsGrow(versions: seq<Version>) {
    forall i, j | 0 <= i < j < |versions| :: versions[i].id < versions[j].id
  }

  predicate Synced(s: State) {
    FilesMatch(s) && BuiltinsIntact(s) && SlugsOnly(s) && IdsGrow(s.versions)
  }

  /** A caller can check it beforehand: the call names a built-in that its library does not list, or the new
      code brings a directory of the same name as an authored skill. */
  predicate Clobbers(s: State, e: Event) {
    match e
    case Author(library, _, _, description, body) =>
      Target(e) in s.builtins && Target(e) !in library && Target(e) != "" && !Blank(description) && !Blank(body)
    case Create(library, _, _, _, description, body) =>
      Target(e) in s.builtins && Target(e) !in library && Target(e) != "" && !Blank(description) && !Blank(body)
    case Deploy(bundle) => exists slug :: slug in bundle && slug in s.rows
    case _ => false
  }

  /** Inserting or rewriting a row and its file, whatever else the write records. */
  predicate Writes(s: State, t: State, slug: string, content: string) {
    && t.builtins == s.builtins
    && t.files == s.files[slug := content]
    && t.rows.Keys == s.rows.Keys + {slug}
    && t.rows[slug].content == content
    && (slug in s.rows ==> t.rows[slug].author == s.rows[slug].author && t.rows[slug].pinned == s.rows[slug].pinned)
    && (forall other | other in s.rows && other != slug :: t.rows[other] == s.rows[other])
  }

  lemma UpdateWrites(s: State, slug: string, content: string, author: string, note: string)
    requires slug in s.rows
    ensures Writes(s, UpdateContent(s, slug, content, author, note), slug, content)
  {
  }

  lemma InsertWrites(s: State, slug: string, name: string, description: string, content: string, author: string)
    ensures var t := UpdateContent(UpsertSkill(s, slug, name, description, content, author), slug, content, author, "Created");
            Writes(s, t, slug, content)
  {
  }

  lemma RepostWrites(s: State, slug: string, name: string, description: string, content: string, author: string)
    ensures var t := UpsertSkill(s, slug, name, description, content, author);
            Writes(s, t.(files := t.files[slug := content]), slug, content)
  {
  }

  lemma DraftWrites(s: State, e: Event)
    requires (e.Author? || e.Create?) && Refusal(s, e).None?
    ensures Writes(s, Do(s, e), Target(e), Printed(e))
  {
    var slug, email, content, description := Target(e), e.caller.email, Printed(e), Trim(e.description, PySpace);
    if e.Author? {
      if slug in s.rows {
        UpdateWrites(s, slug, content, email, "Edited via Slack");
      } else {
        InsertWrites(s, slug, slug, description, content, email);
      }
    } else {
      var title := if Blank(e.title) then slug else Trim(e.title, PySpace);
      InsertWrites(s, slug, title, description, content, email);
      RepostWrites(s, slug, title, description, content, email);
    }
  }

  lemma DraftKeeps(s: State, e: Event)
    requires Synced(s) && (e.Author? || e.Create?)
    ensures Synced(Do(s, e)) <==> !Clobbers(s, e)
  {
    if Refusal(s, e).None? {
      var slug := Target(e);
      SlugsAreFixed(if e.Author? then e.name else e.rawSlug);
      HistoryGrows(s, e);
      DraftWrites(s, e);
      WriteKeeps(s, Do(s, e), slug, Printed(e));
    }
  }

  /** Writing one row and its file keeps the agreement unless the slug is a built-in's. */
  lemma WriteKeeps(s: State, t: State, slug: string, content: string)
    requires Synced(s) && IsSlug(slug) && IdsGrow(t.versions) && Writes(s, t, slug, content)
    ensures Synced(t) <==> slug !in s.builtins
  {
    assert slug in t.rows;
  }

  lemma SyncKeeps(s: State, e: Event)
    requires Synced(s) && (e.Sync? || e.Deploy?)
    ensures Synced(Do(s, e)) <==> !Clobbers(s, e)
  {
    var t := Do(s, e);
    assert t.rows == s.rows;
    if e.Deploy? && Clobbers(s, e) {
      var slug :| slug in e.bundle && slug in s.rows;
      assert slug in t.builtins;
    }
  }

  lemma EditKeeps(s: State, e: Event)
    requires Synced(s) && (e.Save? || e.Pin? || e.Retire?)
    ensures Synced(Do(s, e))
  {
    var t := Do(s, e);
    if Refusal(s, e).None? {
      assert e.slug in s.rows && e.slug !in s.builtins;
    }
  }

  /** One step keeps rows, files and built-ins in agreement exactly when it does not clobber. */
  lemma SyncedStep(s: State, e: Event)
    requires Synced(s)
    ensures Synced(Do(s, e)) <==> !Clobbers(s, e)
  {
    if e.Author? || e.Create? {
      DraftKeeps(s, e);
    } else if e.Sync? || e.Deploy? {
      SyncKeeps(s, e);
    } else {
      EditKeeps(s, e);
    }
  }

  /** No step of the run clobbers. */
  predicate Careful(s: State, events: seq<Event>) {
    events == [] ||
    var before := events[..|events| - 1];
    Careful(s, before) && !Clobbers(Run(s, before), events[|events| - 1])
  }

  /** Over every careful run an authored skill's file is its row's content, built-in files are what was
      deployed, no authored slug is a built-in, and version ids increase. */
  lemma {:induction false} SyncedRun(s: State, events: seq<Event>)
    requires Synced(s) && Careful(s, events)
    ensures Synced(Run(s, events))
  {
    if events != [] {
      var n := |events| - 1;
      SyncedRun(s, events[..n]);
      SyncedStep(Run(s, events[..n]), events[n]);
    }
  }

  // ---- who may change what ----

  /** A skill leaves the library only when an administrator retires it unpinned. */
  lemma RemovedOnlyByRetire(s: State, e: Event, slug: string)
    requires slug in s.rows
    ensures slug !in Do(s, e).rows <==> e.Retire? && e.slug == slug && e.caller.admin && !s.rows[slug].pinned
  {
    if e.Author? || e.Create? {
      assert Do(s, e).rows.Keys == if Refusal(s, e).Some? then s.rows.Keys else s.rows.Keys + {Target(e)};
    }
  }

  predicate Unpins(e: Event, slug: string) { e.Pin? && e.slug == slug && !e.pinned && e.caller.admin }

  lemma PinnedStep(s: State, e: Event, slug: string)
    requires slug in s.rows && s.rows[slug].pinned
    ensures slug in Do(s, e).rows && (Do(s, e).rows[slug].pinned <==> !Unpins(e, slug))
  {
    RemovedOnlyByRetire(s, e, slug);
  }

  /** A pinned skill survives every run in which no administrator unpins it. */
  lemma {:induction false} PinnedSurvives(s: State, events: seq<Event>, slug: string)
    requires slug in s.rows && s.rows[slug].pinned
    requires forall k | 0 <= k < |events| :: !Unpins(events[k], slug)
    ensures slug in Run(s, events).rows && Run(s, events).rows[slug].pinned
  {
    if events != [] {
      var n := |events| - 1;
      PinnedSurvives(s, events[..n], slug);
      PinnedStep(Run(s, events[..n]), events[n], slug);
    }
  }

  /** An author never loses a skill to someone else, and the text of a kept skill changes only through a
      caller who is an administrator or its author; a skill without an author can be rewritten by anyone,
      but only from chat. */
  lemma EditsAreAuthorised(s: State, e: Event, slug: string)
    requires slug in s.rows && slug in Do(s, e).rows
    ensures Do(s, e).rows[slug].author == s.rows[slug].author
    ensures Do(s, e).rows[slug].content != s.rows[slug].content ==>
              && (e.Author? || e.Create? || e.Save?) && Target(e) == slug
              && (|| e.caller.admin || Owns(s.rows[slug], e.caller)
                  || (e.Author? && (Blank(s.rows[slug].author)
                      || Lower(Trim(s.rows[slug].author, PySpace)) == Lower(e.caller.email))))
  {
    if (e.Author? || e.Create?) && Refusal(s, e).None? {
      DraftWrites(s, e);
    }
  }

  // ---- version history ----

  /** The newest version of a slug. */
  function Tip(versions: seq<Version>, slug: string): Option<string> {
    if versions == [] then None
    else
      var last := versions[|versions| - 1];
      if last.slug == slug then Some(last.content) else Tip(versions[..|versions| - 1], slug)
  }

  predicate HistoryCurrent(s: State) {
    forall slug | slug in s.rows :: Tip(s.versions, slug) == Some(s.rows[slug].content)
  }

  lemma TipAppend(versions: seq<Version>, v: Version, slug: string)
    ensures Tip(versions + [v], slug) == if v.slug == slug then Some(v.content) else Tip(versions, slug)
  {
    assert (versions + [v])[..|versions|] == versions;
  }

  /** A step records at most one version: the new text of the row it writes. */
  lemma Recorded(s: State, e: Event) returns (added: seq<Version>)
    ensures |added| <= 1 && Do(s, e).versions == s.versions + added
    ensures added != [] ==>
              && added[0].id == NextId(s.versions) && added[0].slug == Target(e)
              && Target(e) in Do(s, e).rows && added[0].content == Do(s, e).rows[Target(e)].content
  {
    added := Do(s, e).versions[|s.versions|..];
  }

  /** A text changes only with a version, reposts aside. */
  lemma UnrecordedIsUnchanged(s: State, e: Event, slug: string)
    requires slug in Do(s, e).rows && !Reposts(s, e)
    requires slug != Target(e) || Do(s, e).versions == s.versions
    ensures slug in s.rows && Do(s, e).rows[slug].content == s.rows[slug].content
  {
    if (e.Author? || e.Create?) && Refusal(s, e).None? {
      DraftWrites(s, e);
    }
  }

  /** History only grows, by at most one version a step, with a fresh larger id. */
  lemma HistoryGrows(s: State, e: Event)
    requires IdsGrow(s.versions)
    ensures s.versions <= Do(s, e).versions && |Do(s, e).versions| <= |s.versions| + 1
    ensures IdsGrow(Do(s, e).versions)
  {
    var added := Recorded(s, e);
    IdsAppend(s.versions, added);
  }

  lemma IdsAppend(versions: seq<Version>, added: seq<Version>)
    requires IdsGrow(versions) && |added| <= 1
    requires added != [] ==> added[0].id == NextId(versions)
    ensures IdsGrow(versions + added)
  {
  }

  /** Posting an existing skill again replaces its text without recording a version. */
  predicate Reposts(s: State, e: Event) {
    e.Create? && Refusal(s, e).None? && Target(e) in s.rows && Printed(e) != s.rows[Target(e)].content
  }

  lemma RepostDrifts(s: State, e: Event)
    requires HistoryCurrent(s) && Reposts(s, e)
    ensures !HistoryCurrent(Do(s, e))
  {
    var t, slug := Do(s, e), Target(e);
    assert slug in t.rows && t.rows[slug].content == Printed(e) && t.versions == s.versions;
  }

  /** The newest recorded version is the current text, and stays so exactly until such a repost. */
  lemma HistoryStep(s: State, e: Event)
    requires HistoryCurrent(s)
    ensures HistoryCurrent(Do(s, e)) <==> !Reposts(s, e)
  {
    if Reposts(s, e) {
      RepostDrifts(s, e);
    } else {
      var t := Do(s, e);
      var added := Recorded(s, e);
      forall slug | slug in t.rows ensures Tip(t.versions, slug) == Some(t.rows[slug].content) {
        if added != [] {
          TipAppend(s.versions, added[0], slug);
        }
        if slug != Target(e) || added == [] {
          UnrecordedIsUnchanged(s, e, slug);
        }
      }
    }
  }

  // ---- what readers of the files see ----

  /** What the capability page reads from an authored skill's file. */
  function Listed(content: string): Entry { Scan(Lines(content), false, Entry("", "")) }

  /** The console editor: open, replace the body, save. */
  function Edited(content: string, bodies: seq<string>): string {
    if bodies == [] then content
    else
      var before := Edited(content, bodies[..|bodies| - 1]);
      JoinFrontmatter(SplitFrontmatter(before).header, bodies[|bodies| - 1])
  }

  lemma {:induction false} EditedIsPrinted(slug: string, description: string, body: string, bodies: seq<string>)
    returns (last: string)
    requires OneLine(slug) && OneLine(description)
    ensures Edited(WrapFrontmatter(slug, description, body), bodies) == WrapFrontmatter(slug, description, last)
  {
    last := body;
    if bodies != [] {
      var n := |bodies| - 1;
      var before := EditedIsPrinted(slug, description, body, bodies[..n]);
      SplitWrapped(slug, description, before);
      last := Trim(bodies[n], JsSpace);
      SameBehindHeader(HeaderOf(slug, description), last, last);
    }
  }

  lemma ListedIsClean(content: string)
    ensures CleanEntry(Listed(content))
  {
    LinesHaveNoBreak(content, 0);
    ScanIsClean(Lines(content), false, Entry("", ""));
  }

  /** After a skill is authored, its file lists under its slug and description exactly when the description is one
      line, and that stays so through any number of body edits in the console. */
  lemma AuthoredSkillsStayListed(s: State, e: Event, bodies: seq<string>)
    requires (e.Author? || e.Create?) && Refusal(s, e).None?
    ensures Target(e) in Do(s, e).files
    ensures Listed(Edited(Do(s, e).files[Target(e)], bodies)) == Entry(Target(e), Trim(e.description, PySpace))
       <==> NoBreak(Trim(e.description, PySpace))
  {
    var slug, description, body := Target(e), Trim(e.description, PySpace), Trim(e.body, PySpace);
    DraftWrites(s, e);
    if NoBreak(description) {
      SlugsAreFixed(if e.Author? then e.name else e.rawSlug);
      SlugIsFixed(slug);
      TrimIsTrimmed(e.description, PySpace);
      var last := EditedIsPrinted(slug, description, body, bodies);
      ParserRecoversHeader(slug, description, last);
    } else {
      ListedIsClean(Edited(Do(s, e).files[slug], bodies));
    }
  }

  // ---- the two steps that break agreement, in runs from an empty database ----

  const EMPTY := State(map[], map[], [], map[])

  lemma RunTwo(s: State, a: Event, b: Event)
    ensures Run(s, [a, b]) == Do(Do(s, a), b)
  {
    assert [a, b][..1] == [a] && [a][..0] == [];
    assert Run(s, [a]) == Do(s, a);
  }

  /** A deploy that brings a skill under an authored slug: the start-up materialize puts the authored text over the
      built-in one. */
  lemma DeployIsOverwritten(caller: Caller, slug: string, description: string, body: string, builtin: string)
    requires IsSlug(slug) && !Blank(description) && !Blank(body)
    ensures var t := Run(EMPTY, [Author({}, caller, slug, description, body), Deploy(map[slug := builtin])]);
            && Synced(EMPTY) && !Synced(t) && t.builtins == map[slug := builtin]
            && t.files == map[slug := WrapFrontmatter(slug, Trim(description, PySpace), Trim(body, PySpace))]
  {
    var author, deploy := Author({}, caller, slug, description, body), Deploy(map[slug := builtin]);
    SlugIsFixed(slug);
    DraftWrites(EMPTY, author);
    SyncedStep(EMPTY, author);
    DeployOver(Do(EMPTY, author), slug, builtin);
    RunTwo(EMPTY, author, deploy);
  }

  lemma DeployOver(s: State, slug: string, builtin: string)
    requires Synced(s) && s.rows.Keys == {slug}
    ensures var t := Do(s, Deploy(map[slug := builtin]));
            !Synced(t) && t.builtins == map[slug := builtin] && t.files == map[slug := s.rows[slug].content]
  {
    SyncedStep(s, Deploy(map[slug := builtin]));
    assert Contents(s.rows) == map[slug := s.rows[slug].content];
  }

  lemma BodiesDiffer(slug: string, description: string, a: string, b: string)
    requires a != b
    ensures WrapFrontmatter(slug, description, a) != WrapFrontmatter(slug, description, b)
  {
    SameBehindHeader(HeaderOf(slug, description), a, b);
    SameBehindHeader(HeaderOf(slug, description), a, a);
  }

  /** Posting a skill a second time with another body: the row has the new text, the newest version the old one. */
  lemma RepostIsUnrecorded(caller: Caller, slug: string, title: string, description: string, body: string, body': string)
    requires IsSlug(slug) && !Blank(description) && !Blank(body) && !Blank(body')
    requires Trim(body, PySpace) != Trim(body', PySpace)
    ensures var text := WrapFrontmatter(slug, Trim(description, PySpace), Trim(body, PySpace));
            var text' := WrapFrontmatter(slug, Trim(description, PySpace), Trim(body', PySpace));
            var t := Run(EMPTY, [Create({}, caller, slug, title, description, body), Create({}, caller, slug, title, description, body')]);
            && HistoryCurrent(EMPTY) && !HistoryCurrent(t)
            && t.rows.Keys == {slug} && t.rows[slug].content == text' && Tip(t.versions, slug) == Some(text) && text != text'
  {
    var first, again := Create({}, caller, slug, title, description, body), Create({}, caller, slug, title, description, body');
    var s := Do(EMPTY, first);
    SlugIsFixed(slug);
    BodiesDiffer(slug, Trim(description, PySpace), Trim(body, PySpace), Trim(body', PySpace));
    DraftWrites(EMPTY, first);
    HistoryStep(EMPTY, first);
    RepostOver(s, again);
    RunTwo(EMPTY, first, again);
  }

  lemma RepostOver(s: State, e: Event)
    requires HistoryCurrent(s) && e.Create? && Refusal(s, e).None?
    requires s.rows.Keys == {Target(e)} && Printed(e) != s.rows[Target(e)].content
    ensures var t := Do(s, e);
            && !HistoryCurrent(t) && t.rows.Keys == {Target(e)} && t.rows[Target(e)].content == Printed(e)
            && Tip(t.versions, Target(e)) == Some(s.rows[Target(e)].content)
  {
    DraftWrites(s, e);
    RepostDrifts(s, e);
  }
}
