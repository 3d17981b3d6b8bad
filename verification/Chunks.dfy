/** Chunking a section: blocks into units, units packed into overlapping windows under a ceiling. */
module Chunks {
  import opened Common
  import opened Tokens

  datatype Options = Options(minTokens: nat, maxTokens: nat, overlapTokens: nat)

  /** One block as rendered; code blocks and tables are atomic. */
  datatype Block = Block(text: string, atomic: bool)

  datatype Unit = Unit(text: string, tokens: nat, atomic: bool)

  // ---- Prose over the ceiling ----

  /** What the loop over sentences holds: units done, and the one being filled. */
  datatype Filling = Filling(done: seq<Unit>, current: string, tokens: nat) {
    function Take(sentence: string, maxTokens: nat): Filling {
      var cost := Estimate(sentence);
      if current != "" && tokens + cost > maxTokens
      then Filling(done + [Unit(current, tokens, false)], sentence, cost)
      else Filling(done, current + sentence, tokens + cost)
    }
  }

  function Fill(sentences: seq<string>, maxTokens: nat): Filling {
    if sentences == [] then Filling([], "", 0)
    else Fill(sentences[..|sentences| - 1], maxTokens).Take(sentences[|sentences| - 1], maxTokens)
  }

  function ProseUnits(text: string, maxTokens: nat): seq<Unit> {
    Finished(Fill(Sentences(text), maxTokens))
  }

  /** One sentence: into the unit being filled, or into a new one when it does not fit. */
  method TakeSentence(done: seq<Unit>, filling: string, spent: nat, sentence: string, maxTokens: nat)
    returns (out: seq<Unit>, current: string, tokens: nat)
    ensures Filling(out, current, tokens) == Filling(done, filling, spent).Take(sentence, maxTokens)
  {
    out, current, tokens := done, filling, spent;
    var cost := EstimateTokens(sentence);
    if current != "" && tokens + cost > maxTokens {
      out := out + [Unit(current, tokens, false)];
      current, tokens := "", 0;
      assert "" + sentence == sentence;
    }
    current := current + sentence;
    tokens := tokens + cost;
  }

  /** Cuts prose at its sentences into units that fit where they can. */
  method SplitProse(text: string, maxTokens: nat) returns (out: seq<Unit>)
    ensures out == ProseUnits(text, maxTokens)
  {
    out := [];
    var current: string, tokens: nat := "", 0;
    var sentences := SplitSentences(text);
    for i := 0 to |sentences|
      invariant Filling(out, current, tokens) == Fill(sentences[..i], maxTokens)
    {
      assert sentences[..i + 1][..i] == sentences[..i];
      out, current, tokens := TakeSentence(out, current, tokens, sentences[i], maxTokens);
    }
    assert sentences[..|sentences|] == sentences;
    if !IsBlank(current) {
      out := out + [Unit(current, tokens, false)];
    }
  }

  ghost function UnitText(units: seq<Unit>): string {
    if units == [] then "" else UnitText(units[..|units| - 1]) + units[|units| - 1].text
  }

  /** A unit's recorded tokens are the estimate of its text, and only a lone sentence is over the ceiling. */
  ghost predicate Honest(text: string, tokens: nat, sentences: seq<string>, maxTokens: nat) {
    tokens == Estimate(text) && (tokens <= maxTokens || text in sentences)
  }

  /** Sentences so far end with whitespace, so the next one joins at a seam. */
  ghost predicate Open(sentences: seq<string>) {
    forall i | 0 <= i < |sentences| :: sentences[i] != "" && IsWhitespace(sentences[i][|sentences[i]| - 1])
  }

  ghost predicate Sound(f: Filling, sentences: seq<string>, maxTokens: nat) {
    && (forall u <- f.done :: !u.atomic && Honest(u.text, u.tokens, sentences, maxTokens))
    && f.tokens == Estimate(f.current)
    && (f.current != "" ==> Honest(f.current, f.tokens, sentences, maxTokens))
    && UnitText(f.done) + f.current == Concat(sentences)
  }

  predicate EndsOpen(text: string) {
    text == "" || IsWhitespace(text[|text| - 1])
  }

  lemma UnitTextStep(units: seq<Unit>, u: Unit)
    ensures UnitText(units + [u]) == UnitText(units) + u.text
  {
    assert (units + [u])[..|units|] == units;
  }

  lemma HonestAmongMore(text: string, tokens: nat, sentences: seq<string>, s: string, maxTokens: nat)
    requires Honest(text, tokens, sentences, maxTokens)
    ensures Honest(text, tokens, sentences + [s], maxTokens)
  {
  }

  lemma DoneStaysHonest(f: Filling, sentences: seq<string>, s: string, maxTokens: nat)
    requires Sound(f, sentences, maxTokens)
    ensures forall u <- f.done :: !u.atomic && Honest(u.text, u.tokens, sentences + [s], maxTokens)
  {
    forall u | u in f.done
      ensures Honest(u.text, u.tokens, sentences + [s], maxTokens)
    {
      HonestAmongMore(u.text, u.tokens, sentences, s, maxTokens);
    }
  }

  /** The sentence starts a unit of its own. */
  lemma TakeFlushes(f: Filling, sentences: seq<string>, s: string, maxTokens: nat)
    requires Sound(f, sentences, maxTokens) && f.current != "" && f.tokens + Estimate(s) > maxTokens
    ensures Sound(f.Take(s, maxTokens), sentences + [s], maxTokens)
  {
    var u := Unit(f.current, f.tokens, false);
    DoneStaysHonest(f, sentences, s, maxTokens);
    HonestAmongMore(f.current, f.tokens, sentences, s, maxTokens);
    ConcatLast(sentences, s);
    UnitTextStep(f.done, u);
    assert s in sentences + [s];
  }

  /** The sentence joins the unit being filled, at a seam. */
  lemma TakeJoins(f: Filling, sentences: seq<string>, s: string, maxTokens: nat)
    requires Sound(f, sentences, maxTokens) && EndsOpen(f.current) && s != ""
    requires f.current == "" || f.tokens + Estimate(s) <= maxTokens
    ensures Sound(f.Take(s, maxTokens), sentences + [s], maxTokens)
  {
    DoneStaysHonest(f, sentences, s, maxTokens);
    ConcatLast(sentences, s);
    EstimateAdds(f.current, s);
    assert f.current == "" ==> f.current + s == s;
    assert UnitText(f.done) + (f.current + s) == UnitText(f.done) + f.current + s;
    assert s in sentences + [s];
  }

  lemma TakeKeeps(f: Filling, sentences: seq<string>, s: string, maxTokens: nat)
    requires Sound(f, sentences, maxTokens) && EndsOpen(f.current) && s != ""
    ensures Sound(f.Take(s, maxTokens), sentences + [s], maxTokens)
    ensures EndsOpen(s) ==> EndsOpen(f.Take(s, maxTokens).current)
  {
    if f.current != "" && f.tokens + Estimate(s) > maxTokens {
      TakeFlushes(f, sentences, s, maxTokens);
    } else {
      TakeJoins(f, sentences, s, maxTokens);
    }
  }

  lemma {:induction false} FillIsSound(sentences: seq<string>, maxTokens: nat)
    requires forall s <- sentences :: s != ""
    requires sentences != [] ==> forall s <- sentences[..|sentences| - 1] :: EndsOpen(s)
    ensures Sound(Fill(sentences, maxTokens), sentences, maxTokens)
    ensures (forall s <- sentences :: EndsOpen(s)) ==> EndsOpen(Fill(sentences, maxTokens).current)
    decreases |sentences|
  {
    if sentences != [] {
      var init, s := sentences[..|sentences| - 1], sentences[|sentences| - 1];
      assert sentences == init + [s];
      assert s in sentences && forall t <- init :: t in sentences;
      if init != [] {
        assert forall t <- init[..|init| - 1] :: t in init;
      }
      FillIsSound(init, maxTokens);
      TakeKeeps(Fill(init, maxTokens), init, s, maxTokens);
    } else {
      assert Words("") == [];
    }
  }

  lemma {:induction false} SeamsAreOpen(pieces: seq<string>)
    requires AtSeams(pieces)
    ensures forall s <- pieces :: s != ""
    ensures pieces != [] ==> forall s <- pieces[..|pieces| - 1] :: EndsOpen(s)
  {
    if pieces != [] {
      SeamsAreOpen(pieces[1..]);
      assert pieces == [pieces[0]] + pieces[1..];
      if |pieces| > 1 {
        assert pieces[..|pieces| - 1] == [pieces[0]] + pieces[1..][..|pieces| - 2];
      }
    }
  }

  lemma {:induction false} ConcatLast(pieces: seq<string>, last: string)
    ensures Concat(pieces + [last]) == Concat(pieces) + last
  {
    if pieces == [] {
      assert pieces + [last] == [last];
      assert [last][1..] == [];
    } else {
      assert (pieces + [last])[1..] == pieces[1..] + [last];
      ConcatLast(pieces[1..], last);
    }
  }

  /** What is left over at the end becomes a unit unless it is blank. */
  function Finished(f: Filling): seq<Unit> {
    f.done + if IsBlank(f.current) then [] else [Unit(f.current, f.tokens, false)]
  }

  lemma FinishedIsSound(f: Filling, sentences: seq<string>, maxTokens: nat) returns (blank: string)
    requires Sound(f, sentences, maxTokens)
    ensures forall u <- Finished(f) :: !u.atomic && Honest(u.text, u.tokens, sentences, maxTokens)
    ensures IsBlank(blank) && UnitText(Finished(f)) + blank == Concat(sentences)
  {
    if IsBlank(f.current) {
      blank := f.current;
      assert Finished(f) == f.done;
    } else {
      blank := "";
      UnitTextStep(f.done, Unit(f.current, f.tokens, false));
      assert UnitText(Finished(f)) + "" == UnitText(Finished(f));
      assert f.current != "";
    }
  }

  lemma SentencesAreSound(text: string, maxTokens: nat)
    ensures Sound(Fill(Sentences(text), maxTokens), Sentences(text), maxTokens)
    ensures Concat(Sentences(text)) == text
  {
    SentencesAreExact(text);
    SeamsAreOpen(Sentences(text));
    FillIsSound(Sentences(text), maxTokens);
  }

  /**
   * Splitting prose: the units are the text, in order, with at most trailing blanks dropped; each one's
   * tokens are the estimate of its own text; and only a single sentence can be over the ceiling.
   */
  lemma ProseUnitsAreSound(text: string, maxTokens: nat) returns (blank: string)
    ensures forall u <- ProseUnits(text, maxTokens) ::
              !u.atomic && Honest(u.text, u.tokens, Sentences(text), maxTokens)
    ensures IsBlank(blank) && UnitText(ProseUnits(text, maxTokens)) + blank == text
  {
    SentencesAreSound(text, maxTokens);
    blank := FinishedIsSound(Fill(Sentences(text), maxTokens), Sentences(text), maxTokens);
  }

  // ---- Where prose is cut ----

  /**
   * Sentences put together greedily: parts of one sentence or within the ceiling, each closed only where the
   * sentence that begins the next would have put it over.
   */
  ghost predicate IsFilled(sentences: seq<string>, parts: seq<seq<string>>, maxTokens: nat) {
    Flatten(parts) == sentences && AreParts(parts, maxTokens)
  }

  ghost predicate AreParts(parts: seq<seq<string>>, maxTokens: nat) {
    && (forall i | 0 <= i < |parts| :: IsPart(parts[i], maxTokens))
    && (forall i | 0 <= i < |parts| - 1 :: IsFull(parts[i], parts[i + 1], maxTokens))
  }

  ghost predicate IsPart(part: seq<string>, maxTokens: nat) {
    part != [] && (|part| == 1 || Estimate(Concat(part)) <= maxTokens)
  }

  ghost predicate IsFull(part: seq<string>, next: seq<string>, maxTokens: nat) {
    next != [] && Estimate(Concat(part)) + Estimate(next[0]) > maxTokens
  }

  /** A unit for each part, with what it costs. */
  ghost function UnitsOf(parts: seq<seq<string>>): seq<Unit> {
    seq(|parts|, i requires 0 <= i < |parts| => Unit(Concat(parts[i]), Estimate(Concat(parts[i])), false))
  }

  /** A last part of nothing but blanks makes no unit. */
  ghost function Kept(parts: seq<seq<string>>): seq<seq<string>> {
    if parts != [] && IsBlank(Concat(parts[|parts| - 1])) then parts[..|parts| - 1] else parts
  }

  /** The loop holds the last part, and the units of those before it. */
  ghost predicate HoldsParts(f: Filling, parts: seq<seq<string>>) {
    && parts != [] && f.done == UnitsOf(parts[..|parts| - 1])
    && f.current == Concat(parts[|parts| - 1]) && f.tokens == Estimate(f.current)
  }

  lemma FirstPart(s: string, maxTokens: nat)
    ensures IsFilled([s], [[s]], maxTokens) && HoldsParts(Filling([], "", 0).Take(s, maxTokens), [[s]])
  {
    FlattenPush([], [s]);
    OnlySentence(s);
    assert [] + [[s]] == [[s]] && [] + [s] == [s] && [[s]][..0] == [] && "" + s == s;
  }

  lemma AddPart(parts: seq<seq<string>>, part: seq<string>, maxTokens: nat)
    requires AreParts(parts, maxTokens) && IsPart(part, maxTokens)
    requires parts != [] ==> IsFull(parts[|parts| - 1], part, maxTokens)
    ensures AreParts(parts + [part], maxTokens)
  {
    var all := parts + [part];
    forall i | 0 <= i < |all|
      ensures IsPart(all[i], maxTokens)
    {
      assert i < |parts| ==> all[i] == parts[i] && IsPart(parts[i], maxTokens);
    }
    forall i | 0 <= i < |all| - 1
      ensures IsFull(all[i], all[i + 1], maxTokens)
    {
      assert all[i] == parts[i];
      assert i < |parts| - 1 ==> all[i + 1] == parts[i + 1] && IsFull(parts[i], parts[i + 1], maxTokens);
    }
  }

  lemma UnitsPush(parts: seq<seq<string>>, part: seq<string>)
    ensures UnitsOf(parts + [part]) == UnitsOf(parts) + [Unit(Concat(part), Estimate(Concat(part)), false)]
  {
  }

  lemma OnlySentence(s: string)
    ensures Concat([s]) == s
  {
    assert [s][1..] == [] && s + "" == s;
  }

  /** A part closes, and the sentence begins another. */
  lemma PartCloses(f: Filling, sentences: seq<string>, parts: seq<seq<string>>, s: string, maxTokens: nat)
    requires IsFilled(sentences, parts, maxTokens) && HoldsParts(f, parts)
    requires f.current != "" && f.tokens + Estimate(s) > maxTokens
    ensures IsFilled(sentences + [s], parts + [[s]], maxTokens) && HoldsParts(f.Take(s, maxTokens), parts + [[s]])
  {
    var init, last := parts[..|parts| - 1], parts[|parts| - 1];
    FlattenPush(parts, [s]);
    AddPart(parts, [s], maxTokens);
    OnlySentence(s);
    assert parts == init + [last];
    UnitsPush(init, last);
    assert (parts + [[s]])[..|parts|] == parts;
  }

  /** The sentence joins the part that is open. */
  lemma PartGrows(f: Filling, sentences: seq<string>, parts: seq<seq<string>>, s: string, maxTokens: nat)
    requires IsFilled(sentences, parts, maxTokens) && HoldsParts(f, parts)
    requires f.current != "" && f.tokens + Estimate(s) <= maxTokens
    requires Estimate(f.current + s) == f.tokens + Estimate(s)
    ensures var grown := parts[..|parts| - 1] + [parts[|parts| - 1] + [s]];
            IsFilled(sentences + [s], grown, maxTokens) && HoldsParts(f.Take(s, maxTokens), grown)
  {
    var init, last := parts[..|parts| - 1], parts[|parts| - 1];
    assert parts == init + [last];
    ConcatLast(last, s);
    GrowFlat(init, last, s);
    GrowParts(init, last, s, maxTokens);
    assert (init + [last + [s]])[..|init|] == init;
  }

  lemma GrowFlat(init: seq<seq<string>>, last: seq<string>, s: string)
    ensures Flatten(init + [last + [s]]) == Flatten(init + [last]) + [s]
  {
    FlattenPush(init, last);
    FlattenPush(init, last + [s]);
    AppendRegroups(Flatten(init), last, [s]);
  }

  lemma GrowParts(init: seq<seq<string>>, last: seq<string>, s: string, maxTokens: nat)
    requires AreParts(init + [last], maxTokens) && Estimate(Concat(last + [s])) <= maxTokens
    ensures AreParts(init + [last + [s]], maxTokens)
  {
    var parts := init + [last];
    forall i | 0 <= i < |init|
      ensures IsPart(init[i], maxTokens) && (i < |init| - 1 ==> IsFull(init[i], init[i + 1], maxTokens))
    {
      assert IsPart(parts[i], maxTokens) && IsFull(parts[i], parts[i + 1], maxTokens);
      assert parts[i] == init[i] && (i < |init| - 1 ==> parts[i + 1] == init[i + 1]);
    }
    if init != [] {
      assert IsFull(parts[|init| - 1], parts[|init|], maxTokens);
      assert (last + [s])[0] == last[0];
    }
    AddPart(init, last + [s], maxTokens);
  }

  lemma {:induction false} FillIsFilled(sentences: seq<string>, maxTokens: nat) returns (parts: seq<seq<string>>)
    requires sentences != [] && forall s <- sentences :: s != ""
    requires forall s <- sentences[..|sentences| - 1] :: EndsOpen(s)
    ensures IsFilled(sentences, parts, maxTokens) && HoldsParts(Fill(sentences, maxTokens), parts)
    decreases |sentences|
  {
    var init, s := sentences[..|sentences| - 1], sentences[|sentences| - 1];
    assert sentences == init + [s];
    if init == [] {
      parts := [[s]];
      FirstPart(s, maxTokens);
      assert Fill(init, maxTokens) == Filling([], "", 0);
    } else {
      assert forall t <- init :: t in sentences;
      assert forall t <- init[..|init| - 1] :: t in init;
      var before := FillIsFilled(init, maxTokens);
      FillIsSound(init, maxTokens);
      var f := Fill(init, maxTokens);
      NotEmpty(init, f, before, maxTokens);
      if f.tokens + Estimate(s) > maxTokens {
        parts := before + [[s]];
        PartCloses(f, init, before, s, maxTokens);
      } else {
        parts := before[..|before| - 1] + [before[|before| - 1] + [s]];
        EstimateAdds(f.current, s);
        PartGrows(f, init, before, s, maxTokens);
      }
    }
  }

  lemma NotEmpty(sentences: seq<string>, f: Filling, parts: seq<seq<string>>, maxTokens: nat)
    requires IsFilled(sentences, parts, maxTokens) && HoldsParts(f, parts) && forall s <- sentences :: s != ""
    ensures f.current != ""
  {
    var last := parts[|parts| - 1];
    var at := FlattenHas(parts, |parts| - 1);
    assert last[0] == sentences[at];
    assert sentences[at] in sentences;
    assert Concat(last) == last[0] + Concat(last[1..]);
  }

  /** Prose is cut at its sentences, and only where the next one no longer fits. */
  lemma ProseIsFilled(text: string, maxTokens: nat) returns (parts: seq<seq<string>>)
    requires text != ""
    ensures IsFilled(Sentences(text), parts, maxTokens) && ProseUnits(text, maxTokens) == UnitsOf(Kept(parts))
  {
    SentencesAreExact(text);
    SeamsAreOpen(Sentences(text));
    parts := FillIsFilled(Sentences(text), maxTokens);
    FinishedIsKept(Fill(Sentences(text), maxTokens), parts);
  }

  lemma FinishedIsKept(f: Filling, parts: seq<seq<string>>)
    requires HoldsParts(f, parts)
    ensures Finished(f) == UnitsOf(Kept(parts))
  {
    var init, last := parts[..|parts| - 1], parts[|parts| - 1];
    assert parts == init + [last];
    UnitsPush(init, last);
  }

  // ---- A section's units ----

  function BlockUnits(b: Block, maxTokens: nat): seq<Unit> {
    if IsBlank(b.text) then []
    else if !b.atomic && Estimate(b.text) > maxTokens then ProseUnits(b.text, maxTokens)
    else [Unit(b.text, Estimate(b.text), b.atomic)]
  }

  function SectionUnits(blocks: seq<Block>, maxTokens: nat): seq<Unit> {
    if blocks == [] then [] else SectionUnits(blocks[..|blocks| - 1], maxTokens) + BlockUnits(blocks[|blocks| - 1], maxTokens)
  }

  /** What one block comes to: nothing, itself, or its prose cut where it no longer fits. */
  ghost predicate IsGroup(b: Block, group: seq<Unit>, maxTokens: nat) {
    if IsBlank(b.text) then group == []
    else if b.atomic || Estimate(b.text) <= maxTokens then group == [Unit(b.text, Estimate(b.text), b.atomic)]
    else exists parts :: IsFilled(Sentences(b.text), parts, maxTokens) && group == UnitsOf(Kept(parts))
  }

  /** Units block by block, in the order of the blocks. */
  ghost predicate AreGroups(blocks: seq<Block>, groups: seq<seq<Unit>>, maxTokens: nat) {
    |groups| == |blocks| && forall i | 0 <= i < |blocks| :: IsGroup(blocks[i], groups[i], maxTokens)
  }

  lemma BlockIsGroup(b: Block, maxTokens: nat)
    ensures IsGroup(b, BlockUnits(b, maxTokens), maxTokens)
  {
    if !IsBlank(b.text) && !b.atomic && Estimate(b.text) > maxTokens {
      var parts := ProseIsFilled(b.text, maxTokens);
    }
  }

  ghost function GroupsOf(blocks: seq<Block>, maxTokens: nat): (groups: seq<seq<Unit>>)
    ensures |groups| == |blocks| && forall i | 0 <= i < |blocks| :: groups[i] == BlockUnits(blocks[i], maxTokens)
  {
    if blocks == [] then []
    else GroupsOf(blocks[..|blocks| - 1], maxTokens) + [BlockUnits(blocks[|blocks| - 1], maxTokens)]
  }

  lemma {:induction false} GroupsFlatten(blocks: seq<Block>, maxTokens: nat)
    ensures Flatten(GroupsOf(blocks, maxTokens)) == SectionUnits(blocks, maxTokens)
  {
    if blocks != [] {
      GroupsFlatten(blocks[..|blocks| - 1], maxTokens);
      FlattenPush(GroupsOf(blocks[..|blocks| - 1], maxTokens), BlockUnits(blocks[|blocks| - 1], maxTokens));
    }
  }

  /** A section's units are those of its blocks, none left out and none added. */
  lemma SectionIsGroups(blocks: seq<Block>, maxTokens: nat)
    ensures AreGroups(blocks, GroupsOf(blocks, maxTokens), maxTokens)
    ensures Flatten(GroupsOf(blocks, maxTokens)) == SectionUnits(blocks, maxTokens)
  {
    GroupsFlatten(blocks, maxTokens);
    forall i | 0 <= i < |blocks|
      ensures IsGroup(blocks[i], GroupsOf(blocks, maxTokens)[i], maxTokens)
    {
      BlockIsGroup(blocks[i], maxTokens);
    }
  }

  method CollectUnits(blocks: seq<Block>, maxTokens: nat) returns (out: seq<Unit>)
    ensures out == SectionUnits(blocks, maxTokens)
    ensures exists groups :: AreGroups(blocks, groups, maxTokens) && Flatten(groups) == out
  {
    out := [];
    for i := 0 to |blocks|
      invariant out == SectionUnits(blocks[..i], maxTokens)
    {
      assert blocks[..i + 1][..i] == blocks[..i];
      var text := blocks[i].text;
      if !IsBlank(text) {
        var tokens := EstimateTokens(text);
        if !blocks[i].atomic && tokens > maxTokens {
          var split := SplitProse(text, maxTokens);
          out := out + split;
        } else {
          out := out + [Unit(text, tokens, blocks[i].atomic)];
        }
      }
    }
    assert blocks[..|blocks|] == blocks;
    SectionIsGroups(blocks, maxTokens);
  }

  /** What cannot be split further: an atomic block, or one sentence of a paragraph. */
  ghost predicate Indivisible(u: Unit, blocks: seq<Block>) {
    exists b <- blocks :: if u.atomic then b == Block(u.text, true) else u.text in Sentences(b.text)
  }

  /** Every unit knows its own cost, and one over the ceiling cannot be split further. */
  ghost predicate SoundUnit(u: Unit, blocks: seq<Block>, maxTokens: nat) {
    u.tokens == Estimate(u.text) && (u.tokens > maxTokens ==> Indivisible(u, blocks))
  }

  lemma {:induction false} SectionUnitsAreSound(blocks: seq<Block>, maxTokens: nat)
    ensures forall u <- SectionUnits(blocks, maxTokens) :: SoundUnit(u, blocks, maxTokens)
  {
    if blocks != [] {
      var init, last := blocks[..|blocks| - 1], blocks[|blocks| - 1];
      assert blocks == init + [last];
      SectionUnitsAreSound(init, maxTokens);
      forall u | u in SectionUnits(init, maxTokens)
        ensures SoundUnit(u, blocks, maxTokens)
      {
        if u.tokens > maxTokens {
          var b :| b in init && if u.atomic then b == Block(u.text, true) else u.text in Sentences(b.text);
          assert b in blocks;
        }
      }
      forall u | u in BlockUnits(last, maxTokens)
        ensures SoundUnit(u, blocks, maxTokens)
      {
        var _ := ProseUnitsAreSound(last.text, maxTokens);
        assert last in blocks;
      }
    }
  }
}
