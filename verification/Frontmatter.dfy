/** The SKILL.md header: its printer (wrap_frontmatter in skills_store.py), the console's splitter and
    joiner (skill-content.ts), and the line parser of the capability page (_read_skill_entries). */
module Frontmatter {
  import opened Wrappers

  // ---- white space ----

  /** What JavaScript's trim removes. */
  predicate JsSpace(c: char) {
    || c in {'\t', '\n', '\U{0B}', '\U{0C}', '\r', ' ', '\U{A0}', '\U{FEFF}', '\U{1680}', '\U{202F}', '\U{205F}', '\U{3000}', '\U{2028}', '\U{2029}'}
    || '\U{2000}' <= c <= '\U{200A}'
  }

  /** What Python's strip removes. */
  predicate PySpace(c: char) {
    || c in {' ', '\U{85}', '\U{A0}', '\U{1680}', '\U{202F}', '\U{205F}', '\U{3000}', '\U{2028}', '\U{2029}'}
    || '\t' <= c <= '\r' || '\U{1C}' <= c <= '\U{1F}' || '\U{2000}' <= c <= '\U{200A}'
  }

  /** The two languages trim the same characters but for six: only Python the separators and the next-line character,
      only JavaScript the byte order mark. */
  lemma SpacesDiffer(c: char)
    ensures PySpace(c) != JsSpace(c) <==> c in {'\U{1C}', '\U{1D}', '\U{1E}', '\U{1F}', '\U{85}', '\U{FEFF}'}
    ensures PyBreak(c) ==> PySpace(c)
    ensures c in {' ', '\t', '\n', '\r'} ==> PySpace(c)
    ensures '!' <= c <= '~' ==> !PySpace(c)
  {
  }

  /** Where Python's splitlines breaks. */
  predicate PyBreak(c: char) {
    c in {'\n', '\U{0B}', '\U{0C}', '\r', '\U{1C}', '\U{1D}', '\U{1E}', '\U{85}', '\U{2028}', '\U{2029}'}
  }

  /** The first index from i on that is not white space. */
  function TextStart(s: string, space: char -> bool, i: nat): (r: nat)
    requires i <= |s|
    ensures i <= r <= |s|
    decreases |s| - i
  {
    if i < |s| && space(s[i]) then TextStart(s, space, i + 1) else i
  }

  /** The end of the text in s[from..j] once its trailing white space is dropped. */
  function TextEnd(s: string, space: char -> bool, from: nat, j: nat): (r: nat)
    requires from <= j <= |s|
    ensures from <= r <= j
  {
    if from < j && space(s[j - 1]) then TextEnd(s, space, from, j - 1) else j
  }

  function Trim(s: string, space: char -> bool): string {
    var from := TextStart(s, space, 0);
    s[from..TextEnd(s, space, from, |s|)]
  }

  predicate Trimmed(s: string, space: char -> bool) {
    s == "" || (!space(s[0]) && !space(s[|s| - 1]))
  }

  lemma {:induction false} TextStartIs(s: string, space: char -> bool, i: nat, from: nat)
    requires i <= from <= |s| && (forall k | i <= k < from :: space(s[k])) && (from == |s| || !space(s[from]))
    ensures TextStart(s, space, i) == from
    decreases from - i
  {
    if i < from {
      TextStartIs(s, space, i + 1, from);
    }
  }

  lemma {:induction false} TextEndIs(s: string, space: char -> bool, from: nat, j: nat, to: nat)
    requires from <= to <= j <= |s| && (forall k | to <= k < j :: space(s[k])) && (from == to || !space(s[to - 1]))
    ensures TextEnd(s, space, from, j) == to
  {
    if to < j {
      TextEndIs(s, space, from, j - 1, to);
    }
  }

  /** A text is the trimmed part of a string when only white space surrounds it. */
  lemma TrimIs(s: string, before: string, text: string, after: string, space: char -> bool)
    requires s == before + text + after && Trimmed(text, space) && text != ""
    requires (forall c | c in before :: space(c)) && (forall c | c in after :: space(c))
    ensures Trim(s, space) == text
  {
    var from, to := |before|, |before| + |text|;
    assert forall k | 0 <= k < from :: s[k] == before[k];
    assert forall k | to <= k < |s| :: s[k] == after[k - to];
    assert s[from] == text[0] && s[to - 1] == text[|text| - 1] && s[from..to] == text;
    TextStartIs(s, space, 0, from);
    TextEndIs(s, space, from, |s|, to);
  }

  lemma TrimBlank(s: string, space: char -> bool)
    requires forall c | c in s :: space(c)
    ensures Trim(s, space) == ""
  {
    TextStartIs(s, space, 0, |s|);
  }

  lemma TrimFixes(s: string, space: char -> bool)
    requires Trimmed(s, space)
    ensures Trim(s, space) == s
  {
    if s != "" {
      assert s == "" + s + "";
      TrimIs(s, "", s, "", space);
    }
  }

  lemma {:induction false} TextStartSkips(s: string, space: char -> bool, i: nat)
    requires i <= |s|
    ensures var from := TextStart(s, space, i);
            (forall k | i <= k < from :: space(s[k])) && (from == |s| || !space(s[from]))
    decreases |s| - i
  {
    if i < |s| && space(s[i]) {
      TextStartSkips(s, space, i + 1);
    }
  }

  lemma {:induction false} TextEndSkips(s: string, space: char -> bool, from: nat, j: nat)
    requires from <= j <= |s|
    ensures var to := TextEnd(s, space, from, j);
            (forall k | to <= k < j :: space(s[k])) && (from == to || !space(s[to - 1]))
  {
    if from < j && space(s[j - 1]) {
      TextEndSkips(s, space, from, j - 1);
    }
  }

  /** Trimming cuts white space off both ends, and only that. */
  lemma TrimCuts(s: string, space: char -> bool) returns (from: nat, to: nat)
    ensures from <= to <= |s| && Trim(s, space) == s[from..to] && Trimmed(s[from..to], space)
    ensures forall i | 0 <= i < from || to <= i < |s| :: space(s[i])
  {
    from := TextStart(s, space, 0);
    to := TextEnd(s, space, from, |s|);
    TextStartSkips(s, space, 0);
    TextEndSkips(s, space, from, |s|);
    if from < to {
      assert s[from..to][0] == s[from] && s[from..to][to - from - 1] == s[to - 1];
    }
  }

  lemma TrimIsTrimmed(s: string, space: char -> bool)
    ensures Trimmed(Trim(s, space), space)
  {
    var _, _ := TrimCuts(s, space);
  }

  /** A trimmed text is recovered from behind a newline. */
  lemma TrimLine(s: string, space: char -> bool)
    requires Trimmed(s, space) && space('\n')
    ensures Trim(s + "\n", space) == s
  {
    if s == "" {
      TrimBlank("" + "\n", space);
    } else {
      assert s + "\n" == "" + s + "\n";
      TrimIs(s + "\n", "", s, "\n", space);
    }
  }

  // ---- the console's regular expression ^---\r?\n[\s\S]*?\r?\n---\r?\n ----

  /** `\r?\n` at position i: where it ends. */
  function LineEnd(s: string, i: nat): Option<nat> {
    if i < |s| && s[i] == '\n' then Some(i + 1)
    else if i + 1 < |s| && s[i] == '\r' && s[i + 1] == '\n' then Some(i + 2)
    else None
  }

  predicate Dashes(s: string, i: nat) { i + 3 <= |s| && s[i] == '-' && s[i + 1] == '-' && s[i + 2] == '-' }

  /** `---\r?\n` at position i: where it ends. */
  function Rule(s: string, i: nat): (r: Option<nat>)
    ensures r.Some? ==> i + 4 <= r.value <= |s| && s[r.value - 1] == '\n'
  {
    if Dashes(s, i) then LineEnd(s, i + 3) else None
  }

  /** `\r?\n---\r?\n` at position k: where it ends. */
  function Close(s: string, k: nat): (r: Option<nat>)
    ensures r.Some? ==> k + 5 <= r.value <= |s| && s[r.value - 1] == '\n'
  {
    var a := LineEnd(s, k);
    if a.Some? then Rule(s, a.value) else None
  }

  /** The lazy middle: the first position from k on at which the rest matches. */
  function FirstClose(s: string, k: nat): (r: Option<nat>)
    ensures r.Some? ==> k + 5 <= r.value <= |s|
    decreases |s| - k
  {
    if Close(s, k).Some? then Close(s, k) else if k >= |s| then None else FirstClose(s, k + 1)
  }

  /** The end of the match, if there is one. */
  function HeaderEnd(s: string): (r: Option<nat>)
    ensures r.Some? ==> 9 <= r.value <= |s|
  {
    var p := Rule(s, 0);
    if p.Some? then FirstClose(s, p.value) else None
  }

  function SkipNewlines(s: string): (r: string)
    ensures r == "" || r[0] != '\n'
    ensures s == "" || s[0] != '\n' ==> r == s
  {
    if s != "" && s[0] == '\n' then SkipNewlines(s[1..]) else s
  }

  /** `.replace(/^\r?\n+/, "")`. */
  function DropLeadingLines(s: string): string {
    if LineEnd(s, 0).Some? then SkipNewlines(s[LineEnd(s, 0).value..]) else s
  }

  datatype Parts = Parts(header: string, body: string)

  function SplitFrontmatter(content: string): Parts {
    var end := HeaderEnd(content);
    if end.None? then Parts("", content)
    else Parts(content[..end.value], DropLeadingLines(content[end.value..]))
  }

  function JoinFrontmatter(header: string, body: string): string {
    var trimmed := Trim(body, JsSpace) + "\n";
    if header != "" then header + "\n" + trimmed else trimmed
  }

  /** `wrap_frontmatter`. */
  function HeaderOf(slug: string, description: string): string {
    "---\n" + ("name: " + slug) + "\n" + ("description: " + description) + "\n" + "---\n"
  }

  function WrapFrontmatter(slug: string, description: string, body: string): string {
    HeaderOf(slug, description) + "\n" + body + "\n"
  }

  // ---- the regular expressions as languages ----

  predicate LineBreak(s: string) { s == "\n" || s == "\r\n" }

  predicate MatchesHeader(h: string, r1: string, middle: string, r2: string, r3: string) {
    LineBreak(r1) && LineBreak(r2) && LineBreak(r3) && h == "---" + r1 + middle + r2 + "---" + r3
  }

  /** The texts that the expression matches as a whole. */
  ghost predicate IsHeader(h: string) { exists r1, middle, r2, r3 :: MatchesHeader(h, r1, middle, r2, r3) }

  lemma RuleIs(s: string, i: nat, r: string)
    requires LineBreak(r) && i + 3 + |r| <= |s| && s[i..i + 3] == "---" && s[i + 3..i + 3 + |r|] == r
    ensures Rule(s, i) == Some(i + 3 + |r|)
  {
    assert s[i] == s[i..i + 3][0] && s[i + 1] == s[i..i + 3][1] && s[i + 2] == s[i..i + 3][2];
    BreakIs(s, i + 3, r);
  }

  lemma BreakIs(s: string, i: nat, r: string)
    requires LineBreak(r) && i + |r| <= |s| && s[i..i + |r|] == r
    ensures LineEnd(s, i) == Some(i + |r|)
  {
    assert s[i] == r[0] && (|r| == 2 ==> s[i + 1] == r[1]);
  }

  lemma LineEndIs(s: string, i: nat)
    requires LineEnd(s, i).Some?
    ensures i < LineEnd(s, i).value <= |s| && LineBreak(s[i..LineEnd(s, i).value])
  {
  }

  lemma {:induction false} FirstCloseLeast(s: string, from: nat, k: nat)
    requires from <= k && Close(s, k).Some?
    ensures FirstClose(s, from).Some? && FirstClose(s, from).value <= Close(s, k).value
    decreases k - from
  {
    if Close(s, from).None? {
      FirstCloseLeast(s, from + 1, k);
    }
  }

  lemma HeaderSlices(h: string, r1: string, middle: string, r2: string, r3: string)
    requires h == "---" + r1 + middle + r2 + "---" + r3
    ensures var p := 3 + |r1|; var k := p + |middle|; var a := k + |r2|;
            && |h| == a + 3 + |r3| && h[..3] == "---" && h[3..p] == r1 && h[k..a] == r2 && h[a..a + 3] == "---" && h[a + 3..] == r3
  {
    var p := 3 + |r1|;
    var k := p + |middle|;
    var a := k + |r2|;
    var h2 := "---" + r1 + middle;
    var h1 := h2 + r2;
    assert h2[..3] == "---" && h2[3..p] == r1;
    assert h1[..3] == h2[..3] && h1[3..p] == h2[3..p] && h1[k..a] == r2;
    var h0 := h1 + "---";
    assert h0[..3] == h1[..3] && h0[3..p] == h1[3..p] && h0[k..a] == h1[k..a] && h0[a..a + 3] == "---";
    assert h == h0 + r3;
    assert h[..3] == h0[..3] && h[3..p] == h0[3..p] && h[k..a] == h0[k..a] && h[a..a + 3] == h0[a..a + 3] && h[a + 3..] == r3;
  }

  lemma SliceOfPrefix(s: string, e: nat, i: nat, j: nat)
    requires i <= j <= e <= |s|
    ensures s[..e][i..j] == s[i..j]
  {
  }

  /** Any prefix that is a header is found, or a shorter one. */
  lemma HeaderIsFound(s: string, e: nat)
    requires e <= |s| && IsHeader(s[..e])
    ensures HeaderEnd(s).Some? && HeaderEnd(s).value <= e
  {
    var r1, middle, r2, r3 :| MatchesHeader(s[..e], r1, middle, r2, r3);
    HeaderSlices(s[..e], r1, middle, r2, r3);
    var p := 3 + |r1|;
    var k := p + |middle|;
    var a := k + |r2|;
    SliceOfPrefix(s, e, 0, 3);
    SliceOfPrefix(s, e, 3, p);
    SliceOfPrefix(s, e, k, a);
    SliceOfPrefix(s, e, a, a + 3);
    SliceOfPrefix(s, e, a + 3, e);
    SlicesAreFound(s, e, p, k, a);
  }

  lemma SlicesAreFound(s: string, e: nat, p: nat, k: nat, a: nat)
    requires 3 <= p <= k <= a && a + 3 <= e <= |s| && s[0..3] == "---" && s[a..a + 3] == "---"
    requires LineBreak(s[3..p]) && LineBreak(s[k..a]) && LineBreak(s[a + 3..e])
    ensures HeaderEnd(s).Some? && HeaderEnd(s).value <= e
  {
    RuleIs(s, 0, s[3..p]);
    BreakIs(s, k, s[k..a]);
    RuleIs(s, a, s[a + 3..e]);
    FirstCloseLeast(s, p, k);
  }

  lemma SixSlices(h: string, p: nat, k: nat, a: nat)
    requires 3 <= p <= k <= a && a + 3 <= |h|
    ensures h == h[..3] + h[3..p] + h[p..k] + h[k..a] + h[a..a + 3] + h[a + 3..]
  {
    assert h[..3] + h[3..p] == h[..p];
    assert h[..p] + h[p..k] == h[..k];
    assert h[..k] + h[k..a] == h[..a];
    assert h[..a] + h[a..a + 3] == h[..a + 3];
  }

  lemma ThreeDashes(s: string, i: nat)
    requires Dashes(s, i)
    ensures s[i..i + 3] == "---"
  {
  }

  lemma HeaderFromSlices(h: string, p: nat, k: nat, a: nat)
    requires 3 <= p <= k <= a && a + 3 <= |h| && h[..3] == "---" && h[a..a + 3] == "---"
    requires LineBreak(h[3..p]) && LineBreak(h[k..a]) && LineBreak(h[a + 3..])
    ensures IsHeader(h)
  {
    SixSlices(h, p, k, a);
    assert MatchesHeader(h, h[3..p], h[p..k], h[k..a], h[a + 3..]);
  }

  /** What is found is a header. */
  lemma FoundIsHeader(s: string)
    requires HeaderEnd(s).Some?
    ensures IsHeader(s[..HeaderEnd(s).value])
  {
    var p, end := Rule(s, 0).value, HeaderEnd(s).value;
    var k := FirstAt(s, p);
    var a := LineEnd(s, k).value;
    LineEndIs(s, 3);
    LineEndIs(s, k);
    LineEndIs(s, a + 3);
    ThreeDashes(s, 0);
    ThreeDashes(s, a);
    SliceOfPrefix(s, end, 0, 3);
    SliceOfPrefix(s, end, 3, p);
    SliceOfPrefix(s, end, k, a);
    SliceOfPrefix(s, end, a, a + 3);
    SliceOfPrefix(s, end, a + 3, end);
    assert s[..end][a + 3..] == s[..end][a + 3..end] && s[..end][..3] == s[..end][0..3];
    HeaderFromSlices(s[..end], p, k, a);
  }

  /** The console finds the shortest prefix that is a header, and none exactly if no prefix is one. */
  lemma HeaderIsShortest(s: string, end: nat)
    ensures HeaderEnd(s) == Some(end) <==> end <= |s| && IsHeader(s[..end]) && forall e | 0 <= e < end :: !IsHeader(s[..e])
  {
    if HeaderEnd(s).Some? {
      FoundIsHeader(s);
      forall e | 0 <= e < HeaderEnd(s).value && IsHeader(s[..e]) ensures false {
        HeaderIsFound(s, e);
      }
    }
    if end <= |s| && IsHeader(s[..end]) {
      HeaderIsFound(s, end);
    }
  }

  lemma {:induction false} SkipsNewlines(s: string) returns (newlines: string)
    ensures s == newlines + SkipNewlines(s) && forall c | c in newlines :: c == '\n'
  {
    if s != "" && s[0] == '\n' {
      var more := SkipsNewlines(s[1..]);
      newlines := "\n" + more;
    } else {
      newlines := "";
    }
  }

  /** From a body that starts with a line break, that break and all newlines right after it are dropped; any other
      body is left alone. */
  lemma DropsLeadingLines(s: string) returns (first: string, newlines: string)
    ensures s == first + newlines + DropLeadingLines(s) && forall c | c in newlines :: c == '\n'
    ensures first == if "\n" <= s then "\n" else if "\r\n" <= s then "\r\n" else ""
    ensures first == "" ==> newlines == ""
    ensures first != "" && DropLeadingLines(s) != "" ==> DropLeadingLines(s)[0] != '\n'
  {
    first, newlines := "", "";
    if LineEnd(s, 0).Some? {
      var end := LineEnd(s, 0).value;
      first := s[..end];
      newlines := SkipsNewlines(s[end..]);
    }
  }

  /** Editing keeps the header that was found, and a text without one gets none. */
  lemma EditedText(content: string, body: string)
    ensures var parts := SplitFrontmatter(content);
            var trimmed := Trim(body, JsSpace) + "\n";
            && JoinFrontmatter(parts.header, body) ==
                 (if HeaderEnd(content).None? then trimmed else content[..HeaderEnd(content).value] + "\n" + trimmed)
            && (HeaderEnd(content).None? ==> parts.body == content)
  {
  }

  // ---- an edit never alters the header ----

  /** A closing line lies within the text that ends where it ends, and no other sticks out of it. */
  lemma CloseLocal(s: string, t: string, k: nat, end: nat)
    requires end <= |s| && s[..end] <= t && k + 5 <= end
    requires Close(s[..end], k) == Some(end)
    ensures Close(s, k) == Some(end) && Close(t, k) == Some(end)
  {
    var p := s[..end];
    assert forall i | 0 <= i < end :: p[i] == s[i] && p[i] == t[i];
  }

  lemma CloseWithin(s: string, k: nat)
    requires Close(s, k).Some?
    ensures Close(s[..Close(s, k).value], k) == Close(s, k)
  {
    var p := s[..Close(s, k).value];
    assert forall i | 0 <= i < |p| :: p[i] == s[i];
  }

  /** Before the first close of `s`, a text that agrees with `s` up to its end has no close either. */
  lemma NoEarlierClose(s: string, t: string, k: nat, first: nat, end: nat)
    requires k < first && Close(s, first) == Some(end) && Close(s, k).None?
    requires s[..end] <= t
    ensures Close(t, k).None?
  {
    assert forall i | 0 <= i < end :: s[i] == s[..end][i] == t[i];
  }

  lemma {:induction false} FirstCloseAgrees(s: string, t: string, k: nat, end: nat)
    requires FirstClose(s, k) == Some(end) && s[..end] <= t
    ensures FirstClose(t, k) == Some(end)
    decreases |s| - k
  {
    if Close(s, k).Some? {
      CloseWithin(s, k);
      CloseLocal(s, t, k, end);
    } else {
      var first := FirstAt(s, k);
      NoEarlierClose(s, t, k, first, end);
      FirstCloseAgrees(s, t, k + 1, end);
    }
  }

  lemma {:induction false} FirstAt(s: string, k: nat) returns (first: nat)
    requires FirstClose(s, k).Some?
    ensures first >= k && Close(s, first) == FirstClose(s, k)
    decreases |s| - k
  {
    if Close(s, k).Some? { first := k; } else { first := FirstAt(s, k + 1); }
  }

  lemma HeaderEndAgrees(s: string, t: string)
    requires HeaderEnd(s).Some? && s[..HeaderEnd(s).value] <= t
    ensures HeaderEnd(t) == HeaderEnd(s)
  {
    var end := HeaderEnd(s).value;
    assert forall i | 0 <= i < end :: s[i] == s[..end][i] == t[i];
    assert Rule(t, 0) == Rule(s, 0);
    FirstCloseAgrees(s, t, Rule(s, 0).value, end);
  }

  lemma DropLeadingLinesOf(body: string)
    requires Trimmed(body, JsSpace)
    ensures DropLeadingLines("\n" + body + "\n") == if body == "" then "" else body + "\n"
  {
    var s := "\n" + body + "\n";
    assert s[1..] == body + "\n";
    if body == "" {
      assert "\n"[1..] == "";
    } else {
      assert (body + "\n")[0] == body[0];
    }
  }

  lemma SplitSaved(content: string, body: string)
    requires SplitFrontmatter(content).header != "" && Trimmed(body, JsSpace)
    ensures var header := SplitFrontmatter(content).header;
            SplitFrontmatter(header + "\n" + (body + "\n")) == Parts(header, if body == "" then "" else body + "\n")
  {
    var end := HeaderEnd(content).value;
    var header, rest := content[..end], "\n" + body + "\n";
    var saved := header + "\n" + (body + "\n");
    assert saved == header + rest;
    assert saved[..end] == header && saved[end..] == rest;
    HeaderEndAgrees(content, saved);
    DropLeadingLinesOf(body);
  }

  /** Whatever is typed into the editor, saving keeps the header byte for byte, and reading the result
      back gives the trimmed body: a second save changes nothing. */
  lemma EditKeepsHeader(content: string, edited: string)
    requires SplitFrontmatter(content).header != ""
    ensures var header := SplitFrontmatter(content).header;
            var saved := JoinFrontmatter(header, edited);
            var again := SplitFrontmatter(saved);
            && again.header == header
            && again.body == (if Trim(edited, JsSpace) == "" then "" else Trim(edited, JsSpace) + "\n")
            && JoinFrontmatter(again.header, again.body) == saved
  {
    var body := Trim(edited, JsSpace);
    TrimIsTrimmed(edited, JsSpace);
    SplitSaved(content, body);
    TrimLine(body, JsSpace);
  }

  // ---- the printer and the console agree ----

  predicate OneLine(s: string) { '\n' !in s }

  lemma HeaderOfEnd(slug: string, description: string, rest: string)
    requires OneLine(slug) && OneLine(description)
    ensures HeaderEnd(HeaderOf(slug, description) + rest) == Some(|HeaderOf(slug, description)|)
  {
    var header := HeaderOf(slug, description);
    var line1, line2 := "name: " + slug, "description: " + description;
    var a := 4 + |line1|;
    var b := a + 1 + |line2|;
    assert |header| == b + 5;
    assert header[..4] == "---\n" && header[4..a] == line1 && header[a] == '\n';
    assert header[a + 1..b] == line2 && header[b..] == "\n---\n";
    forall i | 0 <= i < |header| ensures (header + rest)[i] == header[i] {}
    HeaderCloses(header, line1, line2, a, b);
    HeaderEndAgrees(header, header + rest);
    assert header[..|header|] == header;
  }

  lemma HeaderCloses(header: string, line1: string, line2: string, a: nat, b: nat)
    requires a == 4 + |line1| && b == a + 1 + |line2| && |header| == b + 5
    requires header[..4] == "---\n" && header[4..a] == line1 && header[a] == '\n'
    requires header[a + 1..b] == line2 && header[b..] == "\n---\n"
    requires OneLine(line1) && OneLine(line2) && line1 != "" && line2 != "" && line2[0] == 'd'
    ensures HeaderEnd(header) == Some(|header|)
  {
    assert header[0] == header[..4][0] && header[1] == header[..4][1] && header[2] == header[..4][2] && header[3] == header[..4][3];
    assert Rule(header, 0) == Some(4);
    forall i | 4 <= i < a ensures header[i] != '\n' {
      assert header[i] == header[4..a][i - 4] && line1[i - 4] in line1;
    }
    forall i | a < i < b ensures header[i] != '\n' {
      assert header[i] == header[a + 1..b][i - a - 1] && line2[i - a - 1] in line2;
    }
    assert header[a + 1] == line2[0];
    var tail := "\n---\n";
    assert header[b] == tail[0] && header[b + 1] == tail[1] && header[b + 2] == tail[2] && header[b + 3] == tail[3] && header[b + 4] == tail[4];
    assert Close(header, b) == Some(b + 5);
    ClosesAtEnd(header, 4, a, b);
  }

  lemma {:induction false} ClosesAtEnd(header: string, k: nat, a: nat, b: nat)
    requires 4 <= k <= b && 4 <= a && a + 1 < b && |header| == b + 5
    requires Close(header, b) == Some(b + 5)
    requires forall i | 4 <= i < b && header[i] == '\n' :: i == a
    requires header[a + 1] == 'd' && header[b] == '\n'
    ensures FirstClose(header, k) == Some(b + 5)
    decreases b - k
  {
    if k < b {
      if Close(header, k).Some? {
        assert LineEnd(header, k).Some?;
        assert LineEnd(header, k).value in {a + 1, b + 1};
      } else {
        ClosesAtEnd(header, k + 1, a, b);
      }
    }
  }

  lemma SplitWrapped(slug: string, description: string, body: string)
    requires OneLine(slug) && OneLine(description)
    ensures SplitFrontmatter(WrapFrontmatter(slug, description, body))
         == Parts(HeaderOf(slug, description), DropLeadingLines("\n" + body + "\n"))
    ensures HeaderOf(slug, description) != ""
  {
    var header, rest := HeaderOf(slug, description), "\n" + body + "\n";
    var content := WrapFrontmatter(slug, description, body);
    assert content == header + rest;
    HeaderOfEnd(slug, description, rest);
    assert content[..|header|] == header && content[|header|..] == rest;
  }

  lemma SameBehindHeader(header: string, a: string, b: string)
    ensures header + "\n" + (a + "\n") == header + "\n" + b + "\n" <==> a == b
  {
    var x, y := header + "\n" + (a + "\n"), header + "\n" + b + "\n";
    if x == y {
      assert x[|header| + 1..|x| - 1] == a;
      assert y[|header| + 1..|y| - 1] == b;
    }
  }

  /** Opening a printed skill in the console and saving it unedited reproduces it exactly when its body
      carries no outer white space. */
  lemma UneditedSaveIsIdentity(slug: string, description: string, body: string)
    requires OneLine(slug) && OneLine(description)
    ensures var content := WrapFrontmatter(slug, description, body);
            var parts := SplitFrontmatter(content);
            && parts.header == HeaderOf(slug, description)
            && (JoinFrontmatter(parts.header, parts.body) == content <==> Trimmed(body, JsSpace))
  {
    SplitWrapped(slug, description, body);
    var dropped := DropLeadingLines("\n" + body + "\n");
    TrimIsTrimmed(dropped, JsSpace);
    if Trimmed(body, JsSpace) {
      DropLeadingLinesOf(body);
      TrimLine(body, JsSpace);
    }
    SameBehindHeader(HeaderOf(slug, description), Trim(dropped, JsSpace), body);
  }

  // ---- the line parser ----

  /** `text.splitlines()`, "\r\n" being one break. */
  function Lines(s: string): seq<string> {
    LinesFrom(s, 0)
  }

  function LinesFrom(s: string, i: nat): seq<string>
    requires i <= |s|
    decreases |s| - i
  {
    if i == |s| then (if s == "" then [] else [s])
    else if !PyBreak(s[i]) then LinesFrom(s, i + 1)
    else
      var next := if s[i] == '\r' && i + 1 < |s| && s[i + 1] == '\n' then i + 2 else i + 1;
      [s[..i]] + LinesFrom(s[next..], 0)
  }

  datatype Entry = Entry(name: string, description: string)

  const NAME := "name:"
  const DESCRIPTION := "description:"

  /** What a stripped line inside the header does to the entry. */
  function Absorb(entry: Entry, stripped: string): Entry {
    if NAME <= stripped then entry.(name := Trim(stripped[|NAME|..], PySpace))
    else if DESCRIPTION <= stripped then entry.(description := Trim(stripped[|DESCRIPTION|..], PySpace))
    else entry
  }

  /** What the loop makes of the remaining lines. */
  function Scan(lines: seq<string>, inFront: bool, entry: Entry): Entry {
    if lines == [] then entry
    else
      var stripped := Trim(lines[0], PySpace);
      if stripped != "---" then Scan(lines[1..], inFront, if inFront then Absorb(entry, stripped) else entry)
      else if inFront then entry
      else Scan(lines[1..], true, entry)
  }

  method ReadEntry(text: string) returns (entry: Entry)
    ensures entry == Scan(Lines(text), false, Entry("", ""))
  {
    var lines := Lines(text);
    entry := Entry("", "");
    var inFront := false;
    var i := 0;
    while i < |lines|
      invariant 0 <= i <= |lines|
      invariant Scan(lines[i..], inFront, entry) == Scan(lines, false, Entry("", ""))
    {
      assert lines[i..][1..] == lines[i + 1..];
      var stripped := Trim(lines[i], PySpace);
      if stripped == "---" {
        if inFront {
          return;
        }
        inFront := true;
      } else if inFront {
        if NAME <= stripped {
          entry := entry.(name := Trim(stripped[|NAME|..], PySpace));
        } else if DESCRIPTION <= stripped {
          entry := entry.(description := Trim(stripped[|DESCRIPTION|..], PySpace));
        }
      }
      i := i + 1;
    }
  }

  // ---- what the loop reads, without the loop ----

  predicate IsRule(line: string) { Trim(line, PySpace) == "---" }

  /** The header of the parser: from the first rule line to the next one, or to the end of the file. */
  ghost predicate FrontIs(lines: seq<string>, a: nat, b: nat) {
    && a < b <= |lines| && IsRule(lines[a]) && (b < |lines| ==> IsRule(lines[b]))
    && forall k | 0 <= k < b && k != a :: !IsRule(lines[k])
  }

  predicate Tagged(line: string, tag: string) { tag <= Trim(line, PySpace) }

  /** The value of the last of the lines with this tag, or what was there before if there is none. */
  ghost predicate LastTagged(lines: seq<string>, a: nat, b: nat, tag: string, before: string, value: string)
    requires a <= b <= |lines|
  {
    if exists k | a <= k < b :: Tagged(lines[k], tag) then
      exists k | a <= k < b ::
        && Tagged(lines[k], tag) && (forall m | k < m < b :: !Tagged(lines[m], tag))
        && value == Trim(Trim(lines[k], PySpace)[|tag|..], PySpace)
    else value == before
  }

  lemma LastTaggedStep(lines: seq<string>, a: nat, b: nat, tag: string, before: string, value: string)
    requires a < b <= |lines|
    requires LastTagged(lines, a + 1, b, tag, if Tagged(lines[a], tag) then Trim(Trim(lines[a], PySpace)[|tag|..], PySpace) else before, value)
    ensures LastTagged(lines, a, b, tag, before, value)
  {
    if k :| a + 1 <= k < b && Tagged(lines[k], tag) {
      assert exists m | a <= m < b :: Tagged(lines[m], tag);
    } else if Tagged(lines[a], tag) {
      assert forall m | a < m < b :: !Tagged(lines[m], tag);
    }
  }

  lemma {:induction false} ScanFront(lines: seq<string>, a: nat, b: nat, entry: Entry)
    requires a <= b <= |lines| && (b < |lines| ==> IsRule(lines[b])) && forall k | a <= k < b :: !IsRule(lines[k])
    ensures var read := Scan(lines[a..], true, entry);
            LastTagged(lines, a, b, "name:", entry.name, read.name) && LastTagged(lines, a, b, "description:", entry.description, read.description)
    decreases b - a
  {
    if a < b {
      assert lines[a..][0] == lines[a] && lines[a..][1..] == lines[a + 1..];
      var next := Absorb(entry, Trim(lines[a], PySpace));
      ScanFront(lines, a + 1, b, next);
      OneTag(Trim(lines[a], PySpace));
      var read := Scan(lines[a + 1..], true, next);
      LastTaggedStep(lines, a, b, "name:", entry.name, read.name);
      LastTaggedStep(lines, a, b, "description:", entry.description, read.description);
    }
  }

  lemma OneTag(stripped: string)
    ensures !("name:" <= stripped && "description:" <= stripped)
  {
    assert "name:"[0] != "description:"[0];
  }

  lemma {:induction false} ScanBefore(lines: seq<string>, i: nat, a: nat, entry: Entry)
    requires i <= a <= |lines| && (a < |lines| ==> IsRule(lines[a])) && forall k | i <= k < a :: !IsRule(lines[k])
    ensures Scan(lines[i..], false, entry) == if a < |lines| then Scan(lines[a + 1..], true, entry) else entry
    decreases a - i
  {
    if i < |lines| {
      assert lines[i..][0] == lines[i] && lines[i..][1..] == lines[i + 1..];
    }
    if i < a {
      ScanBefore(lines, i + 1, a, entry);
    }
  }

  /** Between the first two rule lines the last name and the last description are read; nothing in front of the first
      or behind the second counts. */
  lemma ScanExactly(lines: seq<string>, a: nat, b: nat)
    requires FrontIs(lines, a, b)
    ensures var read := Scan(lines, false, Entry("", ""));
            LastTagged(lines, a + 1, b, "name:", "", read.name) && LastTagged(lines, a + 1, b, "description:", "", read.description)
  {
    assert lines[0..] == lines;
    ScanBefore(lines, 0, a, Entry("", ""));
    ScanFront(lines, a + 1, b, Entry("", ""));
  }

  /** Without a rule line nothing is read. */
  lemma ScanWithoutRule(lines: seq<string>)
    requires forall k | 0 <= k < |lines| :: !IsRule(lines[k])
    ensures Scan(lines, false, Entry("", "")) == Entry("", "")
  {
    assert lines[0..] == lines;
    ScanBefore(lines, 0, |lines|, Entry("", ""));
  }

  predicate NoBreak(s: string) { forall i | 0 <= i < |s| :: !PyBreak(s[i]) }

  lemma {:induction false} FirstLine(line: string, rest: string, i: nat)
    requires NoBreak(line) && i <= |line|
    ensures LinesFrom(line + "\n" + rest, i) == [line] + Lines(rest)
    decreases |line| - i
  {
    var s := line + "\n" + rest;
    if i < |line| {
      assert s[i] == line[i];
      FirstLine(line, rest, i + 1);
    } else {
      assert s[i] == '\n' && s[..i] == line && s[i + 1..] == rest;
    }
  }

  lemma TrimTagged(tag: string, value: string)
    requires tag != "" && !PySpace(tag[0]) && !PySpace(tag[|tag| - 1]) && Trimmed(value, PySpace)
    ensures var stripped := Trim(tag + " " + value, PySpace);
            tag <= stripped && Trim(stripped[|tag|..], PySpace) == value
  {
    var s := tag + " " + value;
    if value == "" {
      assert s == "" + tag + " ";
      TrimIs(s, "", tag, " ", PySpace);
      assert tag[|tag|..] == "";
      TrimBlank("", PySpace);
    } else {
      assert s[0] == tag[0] && s[|s| - 1] == value[|value| - 1];
      TrimFixes(s, PySpace);
      assert s[|tag|..] == " " + value == " " + value + "";
      TrimIs(" " + value, " ", value, "", PySpace);
    }
  }

  lemma ScanRule(line: string, rest: seq<string>, inFront: bool, entry: Entry)
    requires Trim(line, PySpace) == "---"
    ensures Scan([line] + rest, inFront, entry) == if inFront then entry else Scan(rest, true, entry)
  {
    assert ([line] + rest)[1..] == rest;
  }

  lemma ScanLine(line: string, rest: seq<string>, entry: Entry)
    requires Trim(line, PySpace) != "---"
    ensures Scan([line] + rest, true, entry) == Scan(rest, true, Absorb(entry, Trim(line, PySpace)))
  {
    assert ([line] + rest)[1..] == rest;
  }

  lemma ScanName(slug: string, rest: seq<string>, entry: Entry)
    requires Trimmed(slug, PySpace)
    ensures Scan([NAME + " " + slug] + rest, true, entry) == Scan(rest, true, entry.(name := slug))
  {
    var line := NAME + " " + slug;
    TrimTagged(NAME, slug);
    assert Trim(line, PySpace)[0] == 'n' && "---"[0] == '-';
    ScanLine(line, rest, entry);
  }

  lemma AbsorbDescription(stripped: string, entry: Entry)
    requires DESCRIPTION <= stripped
    ensures Absorb(entry, stripped) == entry.(description := Trim(stripped[|DESCRIPTION|..], PySpace))
    ensures stripped != "---"
  {
    assert stripped[0] == DESCRIPTION[0] == 'd' && NAME[0] == 'n' && "---"[0] == '-';
  }

  lemma ScanDescription(description: string, rest: seq<string>, entry: Entry)
    requires Trimmed(description, PySpace)
    ensures Scan([DESCRIPTION + " " + description] + rest, true, entry) == Scan(rest, true, entry.(description := description))
  {
    var tag := DESCRIPTION;
    var line := tag + " " + description;
    TrimTagged(tag, description);
    AbsorbDescription(Trim(line, PySpace), entry);
    ScanLine(line, rest, entry);
  }

  lemma WrappedLines(slug: string, description: string, body: string)
    requires NoBreak(slug) && NoBreak(description)
    ensures Lines(WrapFrontmatter(slug, description, body))
         == ["---"] + ([NAME + " " + slug] + ([DESCRIPTION + " " + description] + (["---"] + Lines("\n" + body + "\n"))))
  {
    var line1, line2, rest := NAME + " " + slug, DESCRIPTION + " " + description, "\n" + body + "\n";
    var after3 := "---" + "\n" + rest;
    var after2 := line2 + "\n" + after3;
    var after1 := line1 + "\n" + after2;
    assert "name: " + slug == line1 && "description: " + description == line2;
    WrappedText(slug, description, body);
    FirstLine("---", after1, 0);
    FirstLine(line1, after2, 0);
    FirstLine(line2, after3, 0);
    FirstLine("---", rest, 0);
  }

  lemma WrappedText(slug: string, description: string, body: string)
    ensures var line1, line2 := "name: " + slug, "description: " + description;
            (WrapFrontmatter(slug, description, body)
             == "---" + "\n" + (line1 + "\n" + (line2 + "\n" + ("---" + "\n" + ("\n" + body + "\n")))))
  {
    var line1, line2 := "name: " + slug, "description: " + description;
    assert "---\n" == "---" + "\n";
    assert HeaderOf(slug, description) == "---" + "\n" + (line1 + "\n" + (line2 + "\n" + ("---" + "\n")));
  }

  predicate CleanEntry(entry: Entry) {
    && NoBreak(entry.name) && Trimmed(entry.name, PySpace)
    && NoBreak(entry.description) && Trimmed(entry.description, PySpace)
  }

  lemma {:induction false} LinesHaveNoBreak(s: string, i: nat)
    requires i <= |s| && NoBreak(s[..i])
    ensures forall line | line in LinesFrom(s, i) :: NoBreak(line)
    decreases |s|, |s| - i
  {
    if i < |s| {
      if !PyBreak(s[i]) {
        assert s[..i + 1] == s[..i] + [s[i]];
        LinesHaveNoBreak(s, i + 1);
      } else {
        var next := if s[i] == '\r' && i + 1 < |s| && s[i + 1] == '\n' then i + 2 else i + 1;
        LinesHaveNoBreak(s[next..], 0);
      }
    } else {
      assert s[..i] == s;
    }
  }

  lemma TrimNoBreak(s: string)
    requires NoBreak(s)
    ensures NoBreak(Trim(s, PySpace))
  {
    var from, to := TrimCuts(s, PySpace);
    assert forall i | 0 <= i < to - from :: s[from..to][i] == s[from + i];
  }

  lemma AbsorbClean(entry: Entry, stripped: string)
    requires CleanEntry(entry) && NoBreak(stripped)
    ensures CleanEntry(Absorb(entry, stripped))
  {
    if NAME <= stripped {
      TrimNoBreak(stripped[|NAME|..]);
      TrimIsTrimmed(stripped[|NAME|..], PySpace);
    } else if DESCRIPTION <= stripped {
      TrimNoBreak(stripped[|DESCRIPTION|..]);
      TrimIsTrimmed(stripped[|DESCRIPTION|..], PySpace);
    }
  }

  /** Whatever the parser reads is one line without outer white space. */
  lemma {:induction false} ScanIsClean(lines: seq<string>, inFront: bool, entry: Entry)
    requires CleanEntry(entry) && forall line | line in lines :: NoBreak(line)
    ensures CleanEntry(Scan(lines, inFront, entry))
  {
    if lines != [] {
      var stripped := Trim(lines[0], PySpace);
      TrimNoBreak(lines[0]);
      if stripped != "---" {
        AbsorbClean(entry, stripped);
        ScanIsClean(lines[1..], inFront, if inFront then Absorb(entry, stripped) else entry);
      } else if !inFront {
        ScanIsClean(lines[1..], true, entry);
      }
    }
  }

  lemma CleanHeaderIsRead(slug: string, description: string, body: string)
    requires CleanEntry(Entry(slug, description))
    ensures Scan(Lines(WrapFrontmatter(slug, description, body)), false, Entry("", "")) == Entry(slug, description)
  {
    WrappedLines(slug, description, body);
    var l4 := ["---"] + Lines("\n" + body + "\n");
    var l3 := [DESCRIPTION + " " + description] + l4;
    var l2 := [NAME + " " + slug] + l3;
    assert Trim("---", PySpace) == "---";
    ScanRule("---", l2, false, Entry("", ""));
    ScanName(slug, l3, Entry("", ""));
    ScanDescription(description, l4, Entry(slug, ""));
    ScanRule("---", Lines("\n" + body + "\n"), true, Entry(slug, description));
  }

  /** The capability page reads back the slug and the description that were printed exactly when both are single
      lines without outer white space. */
  lemma ParserRecoversHeader(slug: string, description: string, body: string)
    ensures Scan(Lines(WrapFrontmatter(slug, description, body)), false, Entry("", "")) == Entry(slug, description)
       <==> CleanEntry(Entry(slug, description))
  {
    var text := WrapFrontmatter(slug, description, body);
    if CleanEntry(Entry(slug, description)) {
      CleanHeaderIsRead(slug, description, body);
    } else {
      LinesHaveNoBreak(text, 0);
      ScanIsClean(Lines(text), false, Entry("", ""));
    }
  }
}
