/** From blocks to chunks: nothing of a section is lost, and no chunk is closed early. */
module Coverage {
  import opened Common
  import opened Text
  import opened Tokens
  import opened Chunks
  import opened Packing
  import opened Passages

  lemma UnderContains(s: Section, body: string, needle: string)
    requires Contains(body, needle)
    ensures Contains(s.Under(body), needle)
  {
    if s.heading.Some? {
      ContainsWithin(s.heading.value + "\n\n", body, "", needle);
      assert s.heading.value + "\n\n" + body + "" == s.heading.value + "\n\n" + body;
    }
  }

  lemma TextInJoin(units: seq<Unit>, lo: nat, hi: nat, u: nat)
    requires lo <= u < hi <= |units|
    ensures Contains(Join(Texts(units, lo, hi), "\n\n"), units[u].text)
  {
    assert Texts(units, lo, hi)[u - lo] == units[u].text;
    JoinContains(Texts(units, lo, hi), "\n\n", u - lo);
  }

  lemma UnitInWindow(s: Section, o: Options, k: nat, b: Bounds, c: Chunk, u: nat)
    requires IsChunk(s, o, k, b, c) && b.lo <= u < b.hi
    ensures Contains(c.text, s.Units(o)[u].text)
  {
    var units := s.Units(o);
    TextInJoin(units, b.lo, b.hi, u);
    UnderContains(s, Join(Texts(units, b.lo, b.hi), "\n\n"), units[u].text);
  }

  /** Every unit's text is in a chunk. */
  lemma UnitIsChunked(s: Section, o: Options, chunks: seq<Chunk>, u: nat) returns (k: nat)
    requires IsChunking(s, o, chunks) && u < |s.Units(o)|
    ensures k < |chunks| && Contains(chunks[k].text, s.Units(o)[u].text)
  {
    var bounds: seq<Bounds> :| IsChunkedAs(s, o, chunks, bounds);
    k := WindowsCover(s.Units(o), s.Budget(o), bounds, |s.Units(o)|, u);
    UnitInWindow(s, o, k, bounds[k], chunks[k], u);
  }

  function TextsOf(units: seq<Unit>): seq<string> {
    seq(|units|, i requires 0 <= i < |units| => units[i].text)
  }

  lemma {:induction false} UnitTextIs(units: seq<Unit>)
    ensures UnitText(units) == Concat(TextsOf(units))
  {
    if units != [] {
      var init, last := units[..|units| - 1], units[|units| - 1];
      UnitTextIs(init);
      assert TextsOf(units) == TextsOf(init) + [last.text];
      ConcatLast(TextsOf(init), last.text);
    }
  }

  /** What one block comes to: its whole text where it fits or cannot be split, otherwise its sentences in order. */
  lemma GroupIsBlock(b: Block, maxTokens: nat) returns (blank: string)
    requires !IsBlank(b.text)
    ensures IsBlank(blank) && Concat(TextsOf(BlockUnits(b, maxTokens))) + blank == b.text
    ensures b.atomic || Estimate(b.text) <= maxTokens ==> TextsOf(BlockUnits(b, maxTokens)) == [b.text]
  {
    UnitTextIs(BlockUnits(b, maxTokens));
    if b.atomic || Estimate(b.text) <= maxTokens {
      blank := "";
      OnlySentence(b.text);
      assert TextsOf(BlockUnits(b, maxTokens)) == [b.text] && b.text + "" == b.text;
    } else {
      blank := ProseUnitsAreSound(b.text, maxTokens);
    }
  }

  ghost predicate InSomeChunk(chunks: seq<Chunk>, piece: string) {
    exists k | 0 <= k < |chunks| :: Contains(chunks[k].text, piece)
  }

  /**
   * Nothing of a section is lost: each block that is not blank is in the chunks, whole if it is atomic or fits under
   * the heading, otherwise in pieces that make it up again but for blanks at its end.
   */
  lemma EveryBlockIsChunked(s: Section, o: Options, chunks: seq<Chunk>, i: nat) returns (pieces: seq<string>, blank: string)
    requires IsChunking(s, o, chunks) && i < |s.blocks| && !IsBlank(s.blocks[i].text)
    ensures Concat(pieces) + blank == s.blocks[i].text && IsBlank(blank)
    ensures forall j | 0 <= j < |pieces| :: InSomeChunk(chunks, pieces[j])
    ensures s.blocks[i].atomic || Estimate(s.blocks[i].text) + s.HeadingTokens() <= o.maxTokens ==> pieces == [s.blocks[i].text]
  {
    var max := s.Budget(o).maxTokens;
    blank := GroupIsBlock(s.blocks[i], max);
    pieces := TextsOf(BlockUnits(s.blocks[i], max));
    GroupIsChunked(s, o, chunks, i);
  }

  lemma GroupIsChunked(s: Section, o: Options, chunks: seq<Chunk>, i: nat)
    requires IsChunking(s, o, chunks) && i < |s.blocks|
    ensures var texts := TextsOf(BlockUnits(s.blocks[i], s.Budget(o).maxTokens));
            forall j | 0 <= j < |texts| :: InSomeChunk(chunks, texts[j])
  {
    var at := GroupStands(s.blocks, s.Budget(o).maxTokens, i);
    EveryUnitIsChunked(s, o, chunks);
    StretchIsChunked(s.Units(o), chunks, BlockUnits(s.blocks[i], s.Budget(o).maxTokens), at);
  }

  ghost predicate AreChunked(units: seq<Unit>, chunks: seq<Chunk>) {
    forall u | 0 <= u < |units| :: InSomeChunk(chunks, units[u].text)
  }

  lemma EveryUnitIsChunked(s: Section, o: Options, chunks: seq<Chunk>)
    requires IsChunking(s, o, chunks)
    ensures AreChunked(s.Units(o), chunks)
  {
    forall u | 0 <= u < |s.Units(o)|
      ensures InSomeChunk(chunks, s.Units(o)[u].text)
    {
      var k := UnitIsChunked(s, o, chunks, u);
    }
  }

  lemma StretchIsChunked(units: seq<Unit>, chunks: seq<Chunk>, group: seq<Unit>, at: nat)
    requires AreChunked(units, chunks)
    requires at + |group| <= |units| && forall j | 0 <= j < |group| :: units[at + j] == group[j]
    ensures forall j | 0 <= j < |group| :: InSomeChunk(chunks, group[j].text)
  {
    forall j | 0 <= j < |group|
      ensures InSomeChunk(chunks, group[j].text)
    {
      assert InSomeChunk(chunks, units[at + j].text);
    }
  }

  /** Where a block's units stand among the section's. */
  lemma GroupStands(blocks: seq<Block>, maxTokens: nat, i: nat) returns (at: nat)
    requires i < |blocks|
    ensures var group, units := BlockUnits(blocks[i], maxTokens), SectionUnits(blocks, maxTokens);
            at + |group| <= |units| && forall j | 0 <= j < |group| :: units[at + j] == group[j]
  {
    GroupsFlatten(blocks, maxTokens);
    at := FlattenHas(GroupsOf(blocks, maxTokens), i);
  }

  /** The units of a chunk stand in it in their order, none reaching into the next. */
  lemma UnitsStandInOrder(s: Section, o: Options, k: nat, b: Bounds, c: Chunk, u: nat, v: nat)
    requires IsChunk(s, o, k, b, c) && b.lo <= u < v < b.hi
    ensures StandsBefore(c.text, s.Units(o)[u].text, s.Units(o)[v].text)
  {
    var units := s.Units(o);
    TextsInOrder(units, b.lo, b.hi, u, v);
    if s.heading.Some? {
      BeforeBehind(s.heading.value + "\n\n", Join(Texts(units, b.lo, b.hi), "\n\n"), units[u].text, units[v].text);
    }
  }

  lemma TextsInOrder(units: seq<Unit>, lo: nat, hi: nat, u: nat, v: nat)
    requires lo <= u < v < hi <= |units|
    ensures StandsBefore(Join(Texts(units, lo, hi), "\n\n"), units[u].text, units[v].text)
  {
    assert Texts(units, lo, hi)[u - lo] == units[u].text && Texts(units, lo, hi)[v - lo] == units[v].text;
    JoinKeepsOrder(Texts(units, lo, hi), "\n\n", u - lo, v - lo);
  }

  /** Each chunk is numbered by its place and opens with the section's heading. */
  lemma ChunkIsHeaded(s: Section, o: Options, chunks: seq<Chunk>, k: nat)
    requires IsChunking(s, o, chunks) && k < |chunks|
    ensures chunks[k].ordinal == AsU32(k) && chunks[k].tokens == AsU32(Estimate(chunks[k].text))
    ensures s.heading.Some? ==> StartsWith(chunks[k].text, s.heading.value + "\n\n")
  {
    var bounds: seq<Bounds> :| IsChunkedAs(s, o, chunks, bounds);
    assert IsChunk(s, o, k, bounds[k], chunks[k]);
  }

  /**
   * No chunk is closed early: it is followed by another only where the unit it would have taken next, which is in
   * the next chunk, would have put it over the ceiling, the heading counted; unless the heading alone reaches it.
   */
  lemma ChunkIsFull(s: Section, o: Options, chunks: seq<Chunk>, k: nat) returns (next: string)
    requires IsChunking(s, o, chunks) && k + 1 < |chunks| && s.HeadingTokens() < o.maxTokens
    ensures Contains(chunks[k + 1].text, next) && Estimate(chunks[k].text) + Estimate(next) > o.maxTokens
  {
    var bounds: seq<Bounds> :| IsChunkedAs(s, o, chunks, bounds);
    var a, b := bounds[k], bounds[k + 1];
    WindowsLead(s.Units(o), s.Budget(o), bounds, |s.Units(o)|, k);
    WindowsAdvance(s.Units(o), s.Budget(o), bounds, |s.Units(o)|, k);
    next := s.Units(o)[a.hi].text;
    UnitInWindow(s, o, k + 1, b, chunks[k + 1], a.hi);
    NextIsOver(s, o, k, a, chunks[k]);
  }

  lemma NextIsOver(s: Section, o: Options, k: nat, a: Bounds, c: Chunk)
    requires IsChunk(s, o, k, a, c) && a.hi < |s.Units(o)| && s.HeadingTokens() < o.maxTokens
    requires Cost(s.Units(o), a.lo, a.hi) + s.Units(o)[a.hi].tokens > s.Budget(o).maxTokens
    ensures Estimate(c.text) + Estimate(s.Units(o)[a.hi].text) > o.maxTokens
  {
    ChunkCost(s, o, k, a);
    FirstUnitIsSound(s, o, Bounds(a.hi, a.hi + 1));
  }
}
