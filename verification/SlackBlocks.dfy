/** `split_long_blocks` (interfaces/slack_blocks.py): the choke point that keeps Block Kit payloads within
    Slack's limits, splitting long sections and truncating long lists. */
module SlackBlocks {
  import opened Wrappers
  import opened SplitText

  /** A block's `text` entry; `more` and `extras` are whatever other keys a block carries. */
  datatype TextPart =
    | NoText                     // absent, or not a dict
    | TextObj(kind: Option<string>, body: Option<string>, more: map<string, string>)   // body: text.text if a str

  datatype Block = Block(kind: Option<string>, text: TextPart, extras: map<string, string>) {
    /** A section with a string text: the only blocks ever split. */
    predicate Eligible() { kind == Some("section") && text.TextObj? && text.body.Some? }

    predicate Long(limit: int) { Eligible() && |text.body.value| > limit }

    predicate IsActions() { kind == Some("actions") }

    function Id(): Option<string> { if "block_id" in extras then Some(extras["block_id"]) else None }
  }

  const NOTICE := "… _(truncated — message too long for Slack)_"

  const NOTICE_BLOCK := Block(Some("section"), TextObj(Some("mrkdwn"), Some(NOTICE), map[]), map[])

  /** The i-th replacement of a long block: the first keeps every other key, the rest are bare. */
  function Part(block: Block, i: nat, part: string): Block
    requires block.Eligible()
  {
    if i == 0 then block.(text := block.text.(body := Some(part)))
    else Block(Some("section"), TextObj(Some(block.text.kind.GetOr("mrkdwn")), Some(part), map[]), map[])
  }

  function Parts(block: Block, parts: seq<string>): (r: seq<Block>)
    requires block.Eligible()
    ensures |r| == |parts| && forall i | 0 <= i < |parts| :: r[i] == Part(block, i, parts[i])
  {
    seq(|parts|, i requires 0 <= i < |parts| => Part(block, i, parts[i]))
  }

  function Expanded(block: Block, limit: nat): seq<Block>
    requires limit >= 1
  {
    if block.Long(limit) then Parts(block, Split(block.text.body.value, limit)) else [block]
  }

  function ExpandAll(blocks: seq<Block>, limit: nat): seq<Block>
    requires limit >= 1
  {
    if blocks == [] then [] else ExpandAll(blocks[..|blocks| - 1], limit) + Expanded(blocks[|blocks| - 1], limit)
  }

  /** How much Python's `s[:n]` takes of `size` elements, negative `n` included. */
  function TakeCount(size: nat, n: int): (r: nat)
    ensures r <= size
  {
    if n >= size then size else if n >= 0 then n else if size + n >= 0 then size + n else 0
  }

  function Take(s: seq<Block>, n: int): seq<Block> { s[..TakeCount(|s|, n)] }

  predicate EndsWithActions(blocks: seq<Block>) { blocks != [] && blocks[|blocks| - 1].IsActions() }

  function Truncated(expanded: seq<Block>, maxBlocks: int): seq<Block> {
    if |expanded| <= maxBlocks then expanded
    else if EndsWithActions(expanded) then Take(expanded, maxBlocks - 2) + [NOTICE_BLOCK, expanded[|expanded| - 1]]
    else Take(expanded, maxBlocks - 1) + [NOTICE_BLOCK]
  }

  function SplitBlocks(blocks: seq<Block>, limit: nat, maxBlocks: int): seq<Block>
    requires limit >= 1
  {
    Truncated(ExpandAll(blocks, limit), maxBlocks)
  }

  // ---- the loops ----

  method ExpandBlock(block: Block, limit: nat) returns (out: seq<Block>)
    requires limit >= 1
    ensures out == Expanded(block, limit)
  {
    if !block.Long(limit) {
      return [block];
    }
    var parts := SplitLoop(block.text.body.value, limit);
    out := PartBlocks(block, parts);
  }

  method PartBlocks(block: Block, parts: seq<string>) returns (out: seq<Block>)
    requires block.Eligible()
    ensures out == Parts(block, parts)
  {
    out := [];
    var k := 0;
    while k < |parts|
      invariant 0 <= k <= |parts| && out == Parts(block, parts)[..k]
    {
      out := out + [if k == 0 then block.(text := block.text.(body := Some(parts[k])))
                    else Block(Some("section"), TextObj(Some(block.text.kind.GetOr("mrkdwn")), Some(parts[k]), map[]), map[])];
      k := k + 1;
    }
  }

  method ExpandBlocks(blocks: seq<Block>, limit: nat) returns (expanded: seq<Block>)
    requires limit >= 1
    ensures expanded == ExpandAll(blocks, limit)
  {
    expanded := [];
    var i := 0;
    while i < |blocks|
      invariant 0 <= i <= |blocks| && expanded == ExpandAll(blocks[..i], limit)
    {
      assert blocks[..i + 1][..i] == blocks[..i];
      var out := ExpandBlock(blocks[i], limit);
      expanded := expanded + out;
      i := i + 1;
    }
    assert blocks[..i] == blocks;
  }

  method TruncateBlocks(expanded: seq<Block>, maxBlocks: int) returns (result: seq<Block>)
    ensures result == Truncated(expanded, maxBlocks)
  {
    if |expanded| <= maxBlocks {
      return expanded;
    }
    var notice := NOTICE_BLOCK;
    if expanded != [] && expanded[|expanded| - 1].IsActions() {
      result := Take(expanded, maxBlocks - 2) + [notice, expanded[|expanded| - 1]];
    } else {
      result := Take(expanded, maxBlocks - 1) + [notice];
    }
  }

  method SplitLongBlocks(blocks: seq<Block>, limit: nat, maxBlocks: int) returns (result: seq<Block>)
    requires limit >= 1
    ensures result == SplitBlocks(blocks, limit, maxBlocks)
  {
    var expanded := ExpandBlocks(blocks, limit);
    result := TruncateBlocks(expanded, maxBlocks);
  }

  // ---- what a block becomes ----

  /** A block is replaced exactly when it is a section whose text is a string that is too long. */
  lemma SplitExactly(block: Block, limit: nat)
    requires limit >= 1
    ensures Expanded(block, limit) != [block] <==>
              block.kind == Some("section") && block.text.TextObj? && block.text.body != None && |block.text.body.value| > limit
  {
    if block.Long(limit) {
      SplitKeepsText(block.text.body.value, limit);
      if Expanded(block, limit) != [] {
        assert Expanded(block, limit)[0].text.body.value in Split(block.text.body.value, limit);
      }
    }
  }

  /** Its pieces are sections in the same markup, "mrkdwn" if it names none, with the pieces of its text in order. */
  lemma PiecesAreSections(block: Block, limit: nat, i: nat)
    requires limit >= 1 && block.kind == Some("section") && block.text.TextObj? && block.text.body != None
    requires |block.text.body.value| > limit && i < |Split(block.text.body.value, limit)|
    ensures |Expanded(block, limit)| == |Split(block.text.body.value, limit)|
    ensures var piece, part := Expanded(block, limit)[i], Split(block.text.body.value, limit)[i];
            if i == 0 then piece == block.(text := TextObj(block.text.kind, Some(part), block.text.more))
            else piece == Block(Some("section"), TextObj(Some(if block.text.kind == None then "mrkdwn" else block.text.kind.value), Some(part), map[]), map[])
  {
  }

  /** Truncation leaves exactly max_blocks blocks: the first ones, the notice, and a final actions block behind it. */
  lemma TruncatesTo(expanded: seq<Block>, maxBlocks: nat)
    requires maxBlocks >= 2 && |expanded| > maxBlocks
    ensures var result, last := Truncated(expanded, maxBlocks), expanded[|expanded| - 1];
            var kept := if last.kind == Some("actions") then maxBlocks - 2 else maxBlocks - 1;
            && |result| == maxBlocks && result[..kept] == expanded[..kept]
            && result[kept] == Block(Some("section"), TextObj(Some("mrkdwn"), Some("… _(truncated — message too long for Slack)_"), map[]), map[])
            && (last.kind == Some("actions") ==> result[kept + 1] == last)
  {
  }

  /** Nothing is truncated that fits. */
  lemma FittingStays(expanded: seq<Block>, maxBlocks: int)
    ensures |expanded| <= maxBlocks ==> Truncated(expanded, maxBlocks) == expanded
  {
  }

  // ---- size ----

  /** The list fits exactly when it did before truncation, or max_blocks leaves room for the notice and
      for the actions block that is kept behind it. */
  lemma BoundedExactly(blocks: seq<Block>, limit: nat, maxBlocks: int)
    requires limit >= 1
    ensures |SplitBlocks(blocks, limit, maxBlocks)| <= maxBlocks <==>
              var expanded := ExpandAll(blocks, limit);
              |expanded| <= maxBlocks || maxBlocks >= 2 || (maxBlocks == 1 && !EndsWithActions(expanded))
  {
  }

  lemma {:induction false} ExpandedFits(blocks: seq<Block>, limit: nat)
    requires limit >= 1
    ensures forall b | b in ExpandAll(blocks, limit) :: !b.Long(limit)
  {
    if blocks != [] {
      var last := blocks[|blocks| - 1];
      ExpandedFits(blocks[..|blocks| - 1], limit);
      if last.Long(limit) {
        SplitKeepsText(last.text.body.value, limit);
      }
      assert forall b | b in Expanded(last, limit) :: !b.Long(limit);
    }
  }

  lemma TruncatedHolds(expanded: seq<Block>, maxBlocks: int, b: Block)
    requires |expanded| > maxBlocks
    ensures NOTICE_BLOCK in Truncated(expanded, maxBlocks)
    ensures b in Truncated(expanded, maxBlocks) ==> b == NOTICE_BLOCK || b in expanded
  {
    var result, last := Truncated(expanded, maxBlocks), |Truncated(expanded, maxBlocks)| - 1;
    assert result[last] == NOTICE_BLOCK || result[last - 1] == NOTICE_BLOCK;
  }

  /** Every section text fits exactly when nothing was truncated or the notice itself fits. */
  lemma SectionsFitExactly(blocks: seq<Block>, limit: nat, maxBlocks: int)
    requires limit >= 1
    ensures (forall b | b in SplitBlocks(blocks, limit, maxBlocks) :: !b.Long(limit)) <==>
              |ExpandAll(blocks, limit)| <= maxBlocks || |NOTICE| <= limit
  {
    var expanded := ExpandAll(blocks, limit);
    ExpandedFits(blocks, limit);
    if |expanded| > maxBlocks {
      TruncatedHolds(expanded, maxBlocks, NOTICE_BLOCK);
      assert NOTICE_BLOCK.Long(limit) <==> |NOTICE| > limit;
      forall b | b in Truncated(expanded, maxBlocks) && |NOTICE| <= limit ensures !b.Long(limit) {
        TruncatedHolds(expanded, maxBlocks, b);
      }
    }
  }

  lemma ExpandSnoc(before: seq<Block>, last: Block, limit: nat)
    requires limit >= 1
    ensures ExpandAll(before + [last], limit) == ExpandAll(before, limit) + Expanded(last, limit)
  {
    assert (before + [last])[..|before|] == before;
  }

  lemma {:induction false} FittingUnchanged(blocks: seq<Block>, limit: nat)
    requires limit >= 1 && forall i | 0 <= i < |blocks| :: !blocks[i].Long(limit)
    ensures ExpandAll(blocks, limit) == blocks
  {
    if blocks != [] {
      var before, last := blocks[..|blocks| - 1], blocks[|blocks| - 1];
      assert !last.Long(limit) && Expanded(last, limit) == [last];
      FittingUnchanged(before, limit);
      ExpandSnoc(before, last, limit);
      assert blocks == before + [last];
    }
  }

  /** A payload that is within both limits passes through untouched; so splitting twice is splitting once. */
  lemma SplitIsIdempotent(blocks: seq<Block>, limit: nat, maxBlocks: int)
    requires limit >= |NOTICE| && maxBlocks >= 2
    ensures var once := SplitBlocks(blocks, limit, maxBlocks);
            SplitBlocks(once, limit, maxBlocks) == once
    ensures (forall b | b in blocks :: !b.Long(limit)) && |blocks| <= maxBlocks
            ==> SplitBlocks(blocks, limit, maxBlocks) == blocks
  {
    BoundedExactly(blocks, limit, maxBlocks);
    SectionsFitExactly(blocks, limit, maxBlocks);
    FittingUnchanged(SplitBlocks(blocks, limit, maxBlocks), limit);
    if forall b | b in blocks :: !b.Long(limit) { FittingUnchanged(blocks, limit); }
  }

  // ---- what survives ----

  function Ineligible(blocks: seq<Block>): seq<Block> {
    if blocks == [] then []
    else Ineligible(blocks[..|blocks| - 1]) + if blocks[|blocks| - 1].Eligible() then [] else [blocks[|blocks| - 1]]
  }

  lemma {:induction false} IneligibleConcat(a: seq<Block>, b: seq<Block>)
    ensures Ineligible(a + b) == Ineligible(a) + Ineligible(b)
  {
    if b == [] {
      assert a + b == a;
    } else {
      assert (a + b)[..|a + b| - 1] == a + b[..|b| - 1];
      IneligibleConcat(a, b[..|b| - 1]);
    }
  }

  lemma {:induction false} AllEligible(blocks: seq<Block>)
    requires forall b | b in blocks :: b.Eligible()
    ensures Ineligible(blocks) == []
  {
    if blocks != [] { AllEligible(blocks[..|blocks| - 1]); }
  }

  /** Expansion keeps every other block, in order. */
  lemma {:induction false} ExpansionKeepsOthers(blocks: seq<Block>, limit: nat)
    requires limit >= 1
    ensures Ineligible(ExpandAll(blocks, limit)) == Ineligible(blocks)
  {
    if blocks != [] {
      var n := |blocks| - 1;
      ExpansionKeepsOthers(blocks[..n], limit);
      IneligibleConcat(ExpandAll(blocks[..n], limit), Expanded(blocks[n], limit));
      ExpandedIneligible(blocks[n], limit);
    }
  }

  lemma ExpandedIneligible(block: Block, limit: nat)
    requires limit >= 1
    ensures Ineligible(Expanded(block, limit)) == if block.Eligible() then [] else [block]
  {
    if block.Long(limit) {
      AllEligible(Expanded(block, limit));
    } else {
      assert [block][..0] == [];
    }
  }

  /** What truncation keeps of the expansion, and what it puts behind it. */
  function KeptCount(expanded: seq<Block>, maxBlocks: int): nat {
    if |expanded| <= maxBlocks then |expanded|
    else TakeCount(|expanded|, if EndsWithActions(expanded) then maxBlocks - 2 else maxBlocks - 1)
  }

  function Tail(expanded: seq<Block>, maxBlocks: int): seq<Block> {
    if |expanded| <= maxBlocks then []
    else if EndsWithActions(expanded) then [NOTICE_BLOCK, expanded[|expanded| - 1]]
    else [NOTICE_BLOCK]
  }

  lemma TruncatedIsPrefixAndTail(expanded: seq<Block>, maxBlocks: int)
    ensures KeptCount(expanded, maxBlocks) <= |expanded|
    ensures |expanded| > maxBlocks && EndsWithActions(expanded) ==> KeptCount(expanded, maxBlocks) < |expanded|
    ensures Truncated(expanded, maxBlocks) == expanded[..KeptCount(expanded, maxBlocks)] + Tail(expanded, maxBlocks)
  {
  }

  /** Apart from the notice, what is returned is a prefix of the expansion, whose other blocks are a prefix
      of the given ones; nothing is lost without truncation. */
  lemma OthersSurvive(blocks: seq<Block>, limit: nat, maxBlocks: int)
    requires limit >= 1
    ensures var expanded := ExpandAll(blocks, limit);
            var kept := KeptCount(expanded, maxBlocks);
            && kept <= |expanded|
            && SplitBlocks(blocks, limit, maxBlocks) == expanded[..kept] + Tail(expanded, maxBlocks)
            && Ineligible(expanded[..kept]) <= Ineligible(blocks)
            && (|expanded| <= maxBlocks ==> Ineligible(SplitBlocks(blocks, limit, maxBlocks)) == Ineligible(blocks))
  {
    var expanded := ExpandAll(blocks, limit);
    ExpansionKeepsOthers(blocks, limit);
    TruncatedIsPrefixAndTail(expanded, maxBlocks);
    IneligiblePrefix(expanded, KeptCount(expanded, maxBlocks));
  }

  lemma {:induction false} IneligiblePrefix(blocks: seq<Block>, n: nat)
    requires n <= |blocks|
    ensures Ineligible(blocks[..n]) <= Ineligible(blocks)
  {
    if n == |blocks| {
      assert blocks[..n] == blocks;
    } else {
      var m := |blocks| - 1;
      IneligiblePrefix(blocks[..m], n);
      assert blocks[..m][..n] == blocks[..n];
    }
  }

  /** The buttons survive: a payload that ends with an actions block still ends with it. */
  lemma FinalActionsSurvive(blocks: seq<Block>, limit: nat, maxBlocks: int)
    requires limit >= 1 && EndsWithActions(blocks)
    ensures var result := SplitBlocks(blocks, limit, maxBlocks);
            EndsWithActions(result) && result[|result| - 1] == blocks[|blocks| - 1]
  {
    var n := |blocks| - 1;
    assert ExpandAll(blocks, limit) == ExpandAll(blocks[..n], limit) + [blocks[n]];
  }

  /** A section disappears, its block_id and accessory with it, exactly when its text splits to nothing: newlines
      only, and as many as fill cuts of limit + 1. Otherwise its first piece keeps all it had besides the text,
      and the other pieces carry nothing. */
  lemma SectionVanishesExactly(block: Block, limit: nat)
    requires limit >= 1
    ensures Expanded(block, limit) == [] <==>
              && block.Long(limit) && limit >= 2
              && Newlines(block.text.body.value) && |block.text.body.value| % (limit + 1) == 0
    ensures var out := Expanded(block, limit);
            out != [] ==>
              && out[0].kind == block.kind && out[0].extras == block.extras
              && (block.Eligible() ==> out[0].text.TextObj? && out[0].text.kind == block.text.kind && out[0].text.more == block.text.more)
              && (forall i | 1 <= i < |out| :: out[i].extras == map[])
  {
    if block.Long(limit) {
      SplitEmptyExactly(block.text.body.value, limit);
    }
  }

  /** The visible text of all sections, in order. */
  function SectionText(blocks: seq<Block>): string {
    if blocks == [] then ""
    else
      var last := blocks[|blocks| - 1];
      SectionText(blocks[..|blocks| - 1]) + if last.Eligible() then Visible(last.text.body.value) else ""
  }

  lemma {:induction false} SectionTextConcat(a: seq<Block>, b: seq<Block>)
    ensures SectionText(a + b) == SectionText(a) + SectionText(b)
  {
    if b == [] {
      assert a + b == a;
    } else {
      assert (a + b)[..|a + b| - 1] == a + b[..|b| - 1];
      SectionTextConcat(a, b[..|b| - 1]);
    }
  }

  lemma {:induction false} JoinSnoc(chunks: seq<string>, chunk: string)
    ensures Join(chunks + [chunk]) == Join(chunks) + chunk
  {
    if chunks == [] {
      assert [chunk][1..] == [];
    } else {
      assert (chunks + [chunk])[1..] == chunks[1..] + [chunk];
      JoinSnoc(chunks[1..], chunk);
    }
  }

  lemma SectionTextSnoc(before: seq<Block>, last: Block)
    requires last.Eligible()
    ensures SectionText(before + [last]) == SectionText(before) + Visible(last.text.body.value)
  {
    assert (before + [last])[..|before|] == before;
  }

  lemma PartText(block: Block, i: nat, part: string)
    requires block.Eligible()
    ensures Part(block, i, part).Eligible() && Part(block, i, part).text.body.value == part
  {
  }

  lemma {:induction false} PartsText(block: Block, parts: seq<string>)
    requires block.Eligible()
    ensures SectionText(Parts(block, parts)) == Visible(Join(parts))
  {
    if parts != [] {
      var n := |parts| - 1;
      var before := parts[..n];
      PartsText(block, before);
      PartText(block, n, parts[n]);
      assert Parts(block, parts) == Parts(block, before) + [Part(block, n, parts[n])];
      SectionTextSnoc(Parts(block, before), Part(block, n, parts[n]));
      assert parts == before + [parts[n]];
      JoinSnoc(before, parts[n]);
      VisibleConcat(Join(before), parts[n]);
    }
  }

  /** Splitting loses no text: the sections of the expansion read the same, newlines apart. */
  lemma {:induction false} ExpansionKeepsText(blocks: seq<Block>, limit: nat)
    requires limit >= 1
    ensures SectionText(ExpandAll(blocks, limit)) == SectionText(blocks)
  {
    if blocks != [] {
      var n := |blocks| - 1;
      ExpansionKeepsText(blocks[..n], limit);
      SectionTextConcat(ExpandAll(blocks[..n], limit), Expanded(blocks[n], limit));
      if blocks[n].Long(limit) {
        PartsText(blocks[n], Split(blocks[n].text.body.value, limit));
        SplitKeepsText(blocks[n].text.body.value, limit);
      } else {
        assert Expanded(blocks[n], limit)[..0] == [];
      }
    }
  }

  function IdCount(blocks: seq<Block>, id: string): nat {
    if blocks == [] then 0
    else IdCount(blocks[..|blocks| - 1], id) + if blocks[|blocks| - 1].Id() == Some(id) then 1 else 0
  }

  lemma {:induction false} IdCountConcat(a: seq<Block>, b: seq<Block>, id: string)
    ensures IdCount(a + b, id) == IdCount(a, id) + IdCount(b, id)
  {
    if b == [] {
      assert a + b == a;
    } else {
      assert (a + b)[..|a + b| - 1] == a + b[..|b| - 1];
      IdCountConcat(a, b[..|b| - 1], id);
    }
  }

  lemma {:induction false} PartsIds(block: Block, parts: seq<string>, id: string)
    requires block.Eligible()
    ensures IdCount(Parts(block, parts), id) == if parts != [] && block.Id() == Some(id) then 1 else 0
  {
    if parts != [] {
      var n := |parts| - 1;
      PartsIds(block, parts[..n], id);
      assert Parts(block, parts)[..n] == Parts(block, parts[..n]);
    }
  }

  lemma {:induction false} ExpansionIds(blocks: seq<Block>, limit: nat, id: string)
    requires limit >= 1
    ensures IdCount(ExpandAll(blocks, limit), id) <= IdCount(blocks, id)
  {
    if blocks != [] {
      var n := |blocks| - 1;
      ExpansionIds(blocks[..n], limit, id);
      IdCountConcat(ExpandAll(blocks[..n], limit), Expanded(blocks[n], limit), id);
      if blocks[n].Long(limit) {
        PartsIds(blocks[n], Split(blocks[n].text.body.value, limit), id);
      } else {
        assert Expanded(blocks[n], limit)[..0] == [];
      }
    }
  }

  lemma {:induction false} IdCountPrefix(blocks: seq<Block>, n: nat, id: string)
    requires n <= |blocks|
    ensures IdCount(blocks[..n], id) <= IdCount(blocks, id)
    ensures n < |blocks| && blocks[|blocks| - 1].Id() == Some(id) ==> IdCount(blocks[..n], id) < IdCount(blocks, id)
  {
    var m := |blocks| - 1;
    if n < |blocks| {
      IdCountPrefix(blocks[..m], n, id);
      assert blocks[..m][..n] == blocks[..n];
    } else {
      assert blocks[..n] == blocks;
    }
  }

  lemma IdCountTail(block: Block, id: string)
    ensures IdCount([NOTICE_BLOCK], id) == 0
    ensures IdCount([NOTICE_BLOCK, block], id) == if block.Id() == Some(id) then 1 else 0
  {
    assert [NOTICE_BLOCK][..0] == [] && [NOTICE_BLOCK, block][..1] == [NOTICE_BLOCK];
  }

  lemma TruncationIds(expanded: seq<Block>, maxBlocks: int, id: string)
    ensures IdCount(Truncated(expanded, maxBlocks), id) <= IdCount(expanded, id)
  {
    var kept, tail := KeptCount(expanded, maxBlocks), Tail(expanded, maxBlocks);
    TruncatedIsPrefixAndTail(expanded, maxBlocks);
    IdCountConcat(expanded[..kept], tail, id);
    IdCountPrefix(expanded, kept, id);
    if expanded != [] {
      IdCountTail(expanded[|expanded| - 1], id);
    } else {
      IdCountTail(NOTICE_BLOCK, id);
    }
  }

  /** No block_id occurs more often than before: one that was unique stays unique. */
  lemma BlockIdsNotDuplicated(blocks: seq<Block>, limit: nat, maxBlocks: int, id: string)
    requires limit >= 1
    ensures IdCount(SplitBlocks(blocks, limit, maxBlocks), id) <= IdCount(blocks, id)
  {
    ExpansionIds(blocks, limit, id);
    TruncationIds(ExpandAll(blocks, limit), maxBlocks, id);
  }
}
