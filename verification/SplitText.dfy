/** `_split_text` (interfaces/slack_blocks.py): cutting an over-long text at paragraph or line ends, or
    hard when there is none, so that every piece fits the limit and nothing but newlines is lost. */
module SplitText {

  predicate Newlines(s: string) { forall i | 0 <= i < |s| :: s[i] == '\n' }

  /** `run` newlines in a row at i. */
  predicate RunAt(s: string, run: nat, i: int) {
    0 <= i <= |s| - run && forall k | i <= k < i + run :: s[k] == '\n'
  }

  /** `s.rfind("\n" * run, 0, hi)`: the last such run that ends by `hi`, or -1. */
  function RFind(s: string, run: nat, hi: nat): (r: int)
    requires hi <= |s|
    ensures r == -1 || (RunAt(s, run, r) && r + run <= hi)
    decreases hi
  {
    if hi < run then -1
    else if RunAt(s, run, hi - run) then hi - run
    else if hi == 0 then -1
    else RFind(s, run, hi - 1)
  }

  lemma {:induction false} RFindIsLast(s: string, run: nat, hi: nat, i: int)
    requires hi <= |s| && RFind(s, run, hi) < i <= hi - run
    ensures !RunAt(s, run, i)
    decreases hi
  {
    if i < hi - run {
      RFindIsLast(s, run, hi - 1, i);
    }
  }

  /** `s.rstrip("\n")`. */
  function RStrip(s: string): (r: string)
    ensures r <= s && Newlines(s[|r|..]) && (r == "" || r[|r| - 1] != '\n')
  {
    if s == "" || s[|s| - 1] != '\n' then s
    else
      var r := RStrip(s[..|s| - 1]);
      assert s[|r|..] == s[..|s| - 1][|r|..] + [s[|s| - 1]];
      r
  }

  datatype Cut = Cut(chunk: string, rest: string)

  /** One turn of the loop on a remainder that is still too long. */
  function NextCut(remaining: string, limit: nat): (r: Cut)
    requires 1 <= limit < |remaining|
    ensures |r.chunk| <= limit && |r.rest| < |remaining|
  {
    var para := RFind(remaining, 2, limit + 1);
    var line := RFind(remaining, 1, limit + 1);
    if para > 0 then
      var chunk := RStrip(remaining[..para + 2]);
      assert |chunk| <= para by {
        assert remaining[para] == '\n' && remaining[para + 1] == '\n';
        assert chunk != "" ==> chunk[|chunk| - 1] == remaining[|chunk| - 1];
      }
      Cut(chunk, remaining[para + 2..])
    else if line > 0 then Cut(remaining[..line], remaining[line + 1..])
    else Cut(remaining[..limit], remaining[limit..])
  }

  function OneOrNone(chunk: string): seq<string> { if chunk == "" then [] else [chunk] }

  /** The loop and the final filter. */
  function Pieces(remaining: string, limit: nat): seq<string>
    requires limit >= 1
    decreases |remaining|
  {
    if |remaining| <= limit then OneOrNone(remaining)
    else OneOrNone(NextCut(remaining, limit).chunk) + Pieces(NextCut(remaining, limit).rest, limit)
  }

  function Split(text: string, limit: nat): seq<string>
    requires limit >= 1
  {
    if |text| <= limit then [text] else Pieces(text, limit)
  }

  function DropEmpty(chunks: seq<string>): seq<string> {
    if chunks == [] then [] else DropEmpty(chunks[..|chunks| - 1]) + OneOrNone(chunks[|chunks| - 1])
  }

  /** `text` is the chunks in order, with runs of newlines between, before and after them. */
  ghost predicate Spaced(text: string, chunks: seq<string>)
    decreases |chunks|
  {
    if chunks == [] then Newlines(text)
    else exists gap | 0 <= gap <= |text| - |chunks[0]| :: SpacedFrom(text, chunks, gap)
  }

  ghost predicate SpacedFrom(text: string, chunks: seq<string>, gap: nat)
    requires chunks != [] && gap + |chunks[0]| <= |text|
    decreases |chunks|, 0
  {
    && Newlines(text[..gap]) && text[gap..gap + |chunks[0]|] == chunks[0]
    && Spaced(text[gap + |chunks[0]|..], chunks[1..])
  }

  lemma SpacedPrepend(newlines: string, text: string, chunks: seq<string>)
    requires Newlines(newlines) && Spaced(text, chunks)
    ensures Spaced(newlines + text, chunks)
  {
    if chunks != [] {
      var gap :| 0 <= gap <= |text| - |chunks[0]| && SpacedFrom(text, chunks, gap);
      var all, at := newlines + text, |newlines| + gap;
      assert all[..at] == newlines + text[..gap];
      assert all[at..at + |chunks[0]|] == text[gap..gap + |chunks[0]|];
      assert all[at + |chunks[0]|..] == text[gap + |chunks[0]|..];
      assert SpacedFrom(all, chunks, at);
    }
  }

  lemma SpacedCons(chunk: string, text: string, chunks: seq<string>)
    requires Spaced(text, chunks)
    ensures Spaced(chunk + text, [chunk] + chunks)
  {
    var all := chunk + text;
    assert all[..0] == "" && all[0..|chunk|] == chunk && all[|chunk|..] == text && ([chunk] + chunks)[1..] == chunks;
    assert SpacedFrom(all, [chunk] + chunks, 0);
  }

  lemma StripSpacing(remaining: string, n: nat) returns (gap: string)
    requires n <= |remaining|
    ensures Newlines(gap) && remaining == RStrip(remaining[..n]) + gap + remaining[n..]
  {
    var prefix := remaining[..n];
    var chunk := RStrip(prefix);
    gap := prefix[|chunk|..];
    assert prefix == chunk + gap;
    assert remaining == prefix + remaining[n..];
  }

  /** What a cut takes off is its chunk followed by newlines only. */
  lemma CutSpacing(remaining: string, limit: nat) returns (gap: string)
    requires 1 <= limit < |remaining|
    ensures var cut := NextCut(remaining, limit);
            Newlines(gap) && remaining == cut.chunk + gap + cut.rest
  {
    var para := RFind(remaining, 2, limit + 1);
    var line := RFind(remaining, 1, limit + 1);
    if para > 0 {
      gap := StripSpacing(remaining, para + 2);
    } else if line > 0 {
      gap := "\n";
      assert remaining[line] == '\n';
      assert remaining == remaining[..line] + gap + remaining[line + 1..];
    } else {
      gap := "";
      assert remaining == remaining[..limit] + gap + remaining[limit..];
    }
  }

  lemma SpacedStep(text: string, chunk: string, gap: string, rest: string, chunks: seq<string>)
    requires text == chunk + gap + rest && Newlines(gap) && Spaced(rest, chunks)
    ensures Spaced(text, OneOrNone(chunk) + chunks)
  {
    SpacedPrepend(gap, rest, chunks);
    if chunk == "" {
      assert text == gap + rest && OneOrNone(chunk) + chunks == chunks;
    } else {
      SpacedCons(chunk, gap + rest, chunks);
      assert text == chunk + (gap + rest);
    }
  }

  /** Every piece is non-empty and fits, and together they are the text up to newlines. */
  lemma {:induction false} PiecesAreTheText(remaining: string, limit: nat)
    requires limit >= 1
    ensures forall c | c in Pieces(remaining, limit) :: 0 < |c| <= limit
    ensures Spaced(remaining, Pieces(remaining, limit))
    decreases |remaining|
  {
    if |remaining| <= limit {
      assert Spaced("", []);
      SpacedStep(remaining, remaining, "", "", []);
      assert OneOrNone(remaining) + [] == OneOrNone(remaining);
    } else {
      var cut := NextCut(remaining, limit);
      var gap := CutSpacing(remaining, limit);
      PiecesAreTheText(cut.rest, limit);
      SpacedStep(remaining, cut.chunk, gap, cut.rest, Pieces(cut.rest, limit));
    }
  }

  // ---- where a cut falls ----

  /** A blank line starts at i, with room for it within limit + 1 characters and something before it. */
  predicate ParagraphEndAt(text: string, limit: nat, i: int) {
    0 < i < limit < |text| && text[i] == '\n' && text[i + 1] == '\n'
  }

  predicate LineEndAt(text: string, limit: nat, i: int) { 0 < i <= limit < |text| && text[i] == '\n' }

  /** At the last paragraph end that fits: the blank line is dropped, and all newlines before it. */
  ghost predicate ParagraphCut(text: string, limit: nat, i: int, chunk: string, rest: string) {
    && ParagraphEndAt(text, limit, i) && (forall k :: ParagraphEndAt(text, limit, k) ==> k <= i)
    && rest == text[i + 2..]
    && chunk <= text[..i] && Newlines(text[|chunk|..i]) && (chunk == "" || chunk[|chunk| - 1] != '\n')
  }

  /** At the last line end that fits. */
  ghost predicate LineCut(text: string, limit: nat, i: int, chunk: string, rest: string) {
    && LineEndAt(text, limit, i) && (forall k :: LineEndAt(text, limit, k) ==> k <= i)
    && rest == text[i + 1..] && chunk == text[..i]
  }

  /** A paragraph end is preferred, whatever line ends follow it; only without one a line end; and only without either
      the text is cut after `limit` characters. */
  ghost predicate FirstCut(text: string, limit: nat, chunk: string, rest: string) {
    if exists i :: ParagraphEndAt(text, limit, i) then exists i :: ParagraphCut(text, limit, i, chunk, rest)
    else if exists i :: LineEndAt(text, limit, i) then exists i :: LineCut(text, limit, i, chunk, rest)
    else limit < |text| && chunk == text[..limit] && rest == text[limit..]
  }

  lemma ParagraphEnds(text: string, limit: nat, i: int)
    requires 1 <= limit < |text|
    ensures ParagraphEndAt(text, limit, i) ==> RFind(text, 2, limit + 1) >= i
    ensures i == RFind(text, 2, limit + 1) > 0 ==> ParagraphEndAt(text, limit, i)
  {
    if ParagraphEndAt(text, limit, i) && RFind(text, 2, limit + 1) < i {
      assert RunAt(text, 2, i);
      RFindIsLast(text, 2, limit + 1, i);
    }
  }

  lemma LineEnds(text: string, limit: nat, i: int)
    requires 1 <= limit < |text|
    ensures LineEndAt(text, limit, i) ==> RFind(text, 1, limit + 1) >= i
    ensures i == RFind(text, 1, limit + 1) > 0 ==> LineEndAt(text, limit, i)
  {
    if LineEndAt(text, limit, i) && RFind(text, 1, limit + 1) < i {
      assert RunAt(text, 1, i);
      RFindIsLast(text, 1, limit + 1, i);
    }
  }

  lemma StrippedParagraph(text: string, para: nat)
    requires para + 2 <= |text| && text[para] == text[para + 1] == '\n'
    ensures var chunk := RStrip(text[..para + 2]); chunk <= text[..para] && Newlines(text[|chunk|..para])
  {
    var chunk := RStrip(text[..para + 2]);
    assert chunk != "" ==> chunk[|chunk| - 1] == text[|chunk| - 1];
    assert |chunk| <= para;
    assert forall k | |chunk| <= k < para :: text[k] == text[..para + 2][|chunk|..][k - |chunk|];
  }

  lemma CutIsFirstCut(text: string, limit: nat)
    requires 1 <= limit < |text|
    ensures FirstCut(text, limit, NextCut(text, limit).chunk, NextCut(text, limit).rest)
  {
    var para, line, cut := RFind(text, 2, limit + 1), RFind(text, 1, limit + 1), NextCut(text, limit);
    forall i ensures ParagraphEndAt(text, limit, i) ==> i <= para {
      ParagraphEnds(text, limit, i);
    }
    if para > 0 {
      ParagraphEnds(text, limit, para);
      StrippedParagraph(text, para);
      assert ParagraphCut(text, limit, para, cut.chunk, cut.rest);
    } else {
      forall i ensures LineEndAt(text, limit, i) ==> i <= line {
        LineEnds(text, limit, i);
      }
      if line > 0 {
        LineEnds(text, limit, line);
        assert LineCut(text, limit, line, cut.chunk, cut.rest);
      }
    }
  }

  lemma PiecesOfRest(rest: string, limit: nat)
    requires limit >= 1
    ensures Pieces(rest, limit) == if rest == "" then [] else Split(rest, limit)
  {
  }

  /** An over-long text splits at its first cut, and then as the rest does. */
  lemma SplitsAtBoundaries(text: string, limit: nat) returns (chunk: string, rest: string)
    requires 1 <= limit < |text|
    ensures FirstCut(text, limit, chunk, rest) && |rest| < |text|
    ensures Split(text, limit) == (if chunk == "" then [] else [chunk]) + if rest == "" then [] else Split(rest, limit)
  {
    var cut := NextCut(text, limit);
    chunk, rest := cut.chunk, cut.rest;
    CutIsFirstCut(text, limit);
    PiecesOfRest(rest, limit);
    assert Split(text, limit) == OneOrNone(chunk) + Pieces(rest, limit);
  }

  lemma SamePrefix(text: string, n: nat, a: string, b: string)
    requires n <= |text| && a <= text[..n] && b <= text[..n] && Newlines(text[|a|..n]) && |a| < |b|
    ensures b[|b| - 1] == '\n'
  {
    assert text[|a|..n][|b| - 1 - |a|] == text[|b| - 1];
  }

  lemma ParagraphCutIsUnique(text: string, limit: nat, i: int, chunk: string, rest: string, i': int, chunk': string, rest': string)
    requires ParagraphCut(text, limit, i, chunk, rest) && ParagraphCut(text, limit, i', chunk', rest')
    ensures chunk == chunk' && rest == rest'
  {
    assert i == i';
    if |chunk| < |chunk'| {
      SamePrefix(text, i, chunk, chunk');
    } else if |chunk'| < |chunk| {
      SamePrefix(text, i, chunk', chunk);
    }
  }

  /** There is only one first cut: together with SplitsAtBoundaries this says what every split is. */
  lemma FirstCutIsUnique(text: string, limit: nat, chunk: string, rest: string, chunk': string, rest': string)
    requires FirstCut(text, limit, chunk, rest) && FirstCut(text, limit, chunk', rest')
    ensures chunk == chunk' && rest == rest'
  {
    if exists i :: ParagraphEndAt(text, limit, i) {
      var i :| ParagraphCut(text, limit, i, chunk, rest);
      var i' :| ParagraphCut(text, limit, i', chunk', rest');
      ParagraphCutIsUnique(text, limit, i, chunk, rest, i', chunk', rest');
    } else if exists i :: LineEndAt(text, limit, i) {
      var i :| LineCut(text, limit, i, chunk, rest);
      var i' :| LineCut(text, limit, i', chunk', rest');
      assert i == i';
    }
  }

  // ---- when nothing is left ----

  lemma NewlinesRFind(s: string, limit: nat)
    requires Newlines(s) && 1 <= limit < |s|
    ensures RFind(s, 2, limit + 1) == limit - 1 && RFind(s, 1, limit + 1) == limit
  {
    assert RunAt(s, 2, limit - 1) && RunAt(s, 1, limit);
  }

  /** On newlines alone a cut drops limit + 1 of them, or keeps one when the limit is 1. */
  lemma NewlinesCut(remaining: string, limit: nat)
    requires Newlines(remaining) && 1 <= limit < |remaining|
    ensures NextCut(remaining, limit) == if limit == 1 then Cut("\n", remaining[2..]) else Cut("", remaining[limit + 1..])
  {
    NewlinesRFind(remaining, limit);
    if limit >= 2 {
      assert RStrip(remaining[..limit + 1]) == "";
    } else {
      assert remaining[..1] == "\n";
    }
  }

  /** What is left of n once m is taken off as often as possible. */
  function Leftover(n: nat, m: nat): nat
    requires m > 0
  {
    if n < m then n else Leftover(n - m, m)
  }

  lemma {:induction false} LeftoverIsMod(n: nat, m: nat)
    requires m > 0
    ensures Leftover(n, m) == n % m
  {
    if n < m {
      DivUnique(n, m, 0, n);
    } else {
      LeftoverIsMod(n - m, m);
      DivUnique(n, m, (n - m) / m + 1, (n - m) % m);
    }
  }

  lemma DivUnique(n: int, m: int, q: int, r: int)
    requires m > 0 && n == q * m + r && 0 <= r < m
    ensures n % m == r
  {
    var d := q - n / m;
    assert d * m == n % m - r;
    assert d >= 1 ==> d * m >= m;
    assert d <= -1 ==> d * m <= -m;
  }

  lemma NewlineStep(remaining: string, limit: nat)
    requires 1 <= limit < |remaining| && Newlines(remaining)
    ensures if limit == 1 then Pieces(remaining, limit) != []
            else Pieces(remaining, limit) == Pieces(remaining[limit + 1..], limit)
  {
    NewlinesCut(remaining, limit);
    var cut := NextCut(remaining, limit);
    assert Pieces(remaining, limit) == OneOrNone(cut.chunk) + Pieces(cut.rest, limit);
  }

  /** Whether newlines alone leave no piece. */
  predicate Vanishes(n: nat, limit: nat)
    requires limit >= 1
  {
    if limit == 1 then n == 0 else Leftover(n, limit + 1) == 0
  }

  lemma VanishStep(n: nat, limit: nat)
    requires limit >= 1
    ensures n <= limit ==> (Vanishes(n, limit) <==> n == 0)
    ensures n > limit >= 2 ==> (Vanishes(n, limit) <==> Vanishes(n - (limit + 1), limit))
  {
  }

  lemma {:induction false} NewlinePieces(remaining: string, limit: nat)
    requires limit >= 1 && Newlines(remaining)
    ensures Pieces(remaining, limit) == [] <==> Vanishes(|remaining|, limit)
    decreases |remaining|
  {
    VanishStep(|remaining|, limit);
    if |remaining| > limit {
      NewlineStep(remaining, limit);
      if limit >= 2 {
        NewlinePieces(remaining[limit + 1..], limit);
      }
    }
  }

  lemma PiecesEmpty(remaining: string, limit: nat)
    requires limit >= 1
    ensures Pieces(remaining, limit) == [] <==>
              Newlines(remaining) && Vanishes(|remaining|, limit)
  {
    PiecesAreTheText(remaining, limit);
    if Newlines(remaining) { NewlinePieces(remaining, limit); }
  }

  /** The list is empty exactly for an over-long text of newlines alone whose length is a multiple of
      limit + 1 (never for a limit of 1): "never empty" fails there and nowhere else. */
  lemma SplitEmptyExactly(text: string, limit: nat)
    requires limit >= 1
    ensures Split(text, limit) == [] <==>
              |text| > limit && limit >= 2 && Newlines(text) && |text| % (limit + 1) == 0
  {
    PiecesEmpty(text, limit);
    LeftoverIsMod(|text|, limit + 1);
  }

  /** The other promise, that every element is non-empty, fails for the empty text and for no other. */
  lemma SplitNonEmptyExactly(text: string, limit: nat)
    requires limit >= 1
    ensures (forall c | c in Split(text, limit) :: c != "") <==> text != ""
  {
    if |text| > limit {
      PiecesAreTheText(text, limit);
    } else {
      assert text in Split(text, limit);
    }
  }

  // ---- the text survives ----

  function Visible(s: string): string {
    if s == "" then "" else (if s[0] == '\n' then "" else [s[0]]) + Visible(s[1..])
  }

  function Join(chunks: seq<string>): string {
    if chunks == [] then "" else chunks[0] + Join(chunks[1..])
  }

  lemma {:induction false} VisibleConcat(a: string, b: string)
    ensures Visible(a + b) == Visible(a) + Visible(b)
  {
    if a == "" {
      assert a + b == b;
    } else {
      assert (a + b)[1..] == a[1..] + b;
      VisibleConcat(a[1..], b);
    }
  }

  lemma {:induction false} VisibleNewlines(s: string)
    requires Newlines(s)
    ensures Visible(s) == ""
  {
    if s != "" { VisibleNewlines(s[1..]); }
  }

  /** No character but newlines is lost, added or reordered. */
  lemma {:induction false} SpacedKeepsText(text: string, chunks: seq<string>)
    requires Spaced(text, chunks)
    ensures Visible(Join(chunks)) == Visible(text)
    decreases |chunks|
  {
    if chunks == [] {
      VisibleNewlines(text);
    } else {
      var gap :| 0 <= gap <= |text| - |chunks[0]| && SpacedFrom(text, chunks, gap);
      var tail := text[gap + |chunks[0]|..];
      assert text == text[..gap] + (chunks[0] + tail);
      VisibleNewlines(text[..gap]);
      VisibleConcat(text[..gap], chunks[0] + tail);
      VisibleConcat(chunks[0], tail);
      VisibleConcat(chunks[0], Join(chunks[1..]));
      SpacedKeepsText(tail, chunks[1..]);
    }
  }

  lemma SplitKeepsText(text: string, limit: nat)
    requires limit >= 1
    ensures Spaced(text, Split(text, limit))
    ensures Visible(Join(Split(text, limit))) == Visible(text)
    ensures forall c | c in Split(text, limit) :: |c| <= limit && (|text| > limit ==> c != "")
  {
    if |text| <= limit {
      assert Spaced("", []);
      SpacedCons(text, "", []);
      assert text + "" == text && [text] + [] == [text];
    } else {
      PiecesAreTheText(text, limit);
    }
    SpacedKeepsText(text, Split(text, limit));
  }

  // ---- the loop ----

  lemma DropEmptySnoc(chunks: seq<string>, chunk: string, more: seq<string>)
    ensures DropEmpty(chunks + [chunk]) + more == DropEmpty(chunks) + (OneOrNone(chunk) + more)
  {
    assert (chunks + [chunk])[..|chunks|] == chunks;
  }

  method CutOnce(remaining: string, limit: nat) returns (chunk: string, rest: string)
    requires 1 <= limit < |remaining|
    ensures Cut(chunk, rest) == NextCut(remaining, limit)
  {
    var para := RFind(remaining, 2, limit + 1);
    if para > 0 {
      return RStrip(remaining[..para + 2]), remaining[para + 2..];
    }
    var line := RFind(remaining, 1, limit + 1);
    if line > 0 {
      return remaining[..line], remaining[line + 1..];
    }
    return remaining[..limit], remaining[limit..];
  }

  /** `_split_text`: the loop terminates for every limit of at least 1. */
  method CutAll(text: string, limit: nat) returns (result: seq<string>)
    requires limit >= 1
    ensures result == Pieces(text, limit)
  {
    var chunks: seq<string> := [];
    var remaining := text;
    while remaining != ""
      invariant DropEmpty(chunks) + Pieces(remaining, limit) == Pieces(text, limit)
      decreases |remaining|
    {
      var chunk, rest := remaining, "";
      if |remaining| > limit {
        chunk, rest := CutOnce(remaining, limit);
      }
      DropEmptySnoc(chunks, chunk, Pieces(rest, limit));
      chunks, remaining := chunks + [chunk], rest;
    }
    result := DropEmpty(chunks);
  }

  method SplitLoop(text: string, limit: nat) returns (result: seq<string>)
    requires limit >= 1
    ensures result == Split(text, limit)
    ensures Spaced(text, result) && Visible(Join(result)) == Visible(text)
    ensures forall c | c in result :: |c| <= limit && (|text| > limit ==> c != "")
    ensures result == [] <==> |text| > limit && limit >= 2 && Newlines(text) && |text| % (limit + 1) == 0
  {
    SplitKeepsText(text, limit);
    SplitEmptyExactly(text, limit);
    if |text| <= limit {
      result := [text];
    } else {
      result := CutAll(text, limit);
    }
  }
}
