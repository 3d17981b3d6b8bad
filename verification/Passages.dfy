/** A section's chunks: the heading repeated over each packed window, its cost taken out of the ceiling first. */
module Passages {
  import opened Common
  import opened Text
  import opened Tokens
  import opened Chunks
  import opened Packing

  datatype Section = Section(heading: Option<string>, blocks: seq<Block>) {
    function HeadingTokens(): nat {
      if heading.Some? then Estimate(heading.value) else 0
    }

    /** What is left of the ceiling once every chunk has repeated the heading; never nothing. */
    function Budget(o: Options): Options {
      o.(maxTokens := Max(Max(o.maxTokens - HeadingTokens(), 0), 1))
    }

    function Units(o: Options): seq<Unit> {
      SectionUnits(blocks, Budget(o).maxTokens)
    }

    function Under(body: string): string {
      if heading.Some? then heading.value + "\n\n" + body else body
    }
  }

  datatype Chunk = Chunk(ordinal: nat, text: string, tokens: nat)

  function Texts(units: seq<Unit>, lo: nat, hi: nat): seq<string>
    requires lo <= hi <= |units|
  {
    seq(hi - lo, i requires 0 <= i < hi - lo => units[lo + i].text)
  }

  /** The chunk a window makes. */
  ghost function ChunkOf(s: Section, o: Options, k: nat, b: Bounds): Chunk
    requires b.lo <= b.hi <= |s.Units(o)|
  {
    var text := s.Under(Join(Texts(s.Units(o), b.lo, b.hi), "\n\n"));
    Chunk(AsU32(k), text, AsU32(Estimate(text)))
  }

  lemma {:induction false} TextsCost(units: seq<Unit>, lo: nat, hi: nat)
    requires lo <= hi <= |units| && forall u <- units :: u.tokens == Estimate(u.text)
    ensures SumBy(Texts(units, lo, hi), Estimate) == Cost(units, lo, hi)
    decreases hi - lo
  {
    if lo < hi {
      TextsCost(units, lo, hi - 1);
      assert units[hi - 1] in units;
      assert Texts(units, lo, hi) == Texts(units, lo, hi - 1) + [units[hi - 1].text];
      SumByAppend(Texts(units, lo, hi - 1), [units[hi - 1].text], Estimate);
      assert SumBy([units[hi - 1].text], Estimate) == Estimate(units[hi - 1].text);
    }
  }

  /** A chunk costs its heading and its units, no more: joining costs nothing. */
  lemma ChunkCost(s: Section, o: Options, k: nat, b: Bounds)
    requires b.lo <= b.hi <= |s.Units(o)|
    ensures Estimate(ChunkOf(s, o, k, b).text) == s.HeadingTokens() + Cost(s.Units(o), b.lo, b.hi)
  {
    var units := s.Units(o);
    SectionUnitsAreSound(s.blocks, s.Budget(o).maxTokens);
    forall u | u in units
      ensures u.tokens == Estimate(u.text)
    {
      assert SoundUnit(u, s.blocks, s.Budget(o).maxTokens);
    }
    TextsCost(units, b.lo, b.hi);
    var texts := Texts(units, b.lo, b.hi);
    JoinedCost(texts);
    if s.heading.Some? {
      SeparatedCost(s.heading.value, Join(texts, "\n\n"));
    }
  }

  /** The texts of a window's units, by position. */
  method Collect(units: seq<Unit>, window: Window, ghost lo: nat, ghost hi: nat) returns (texts: seq<string>)
    requires lo <= hi <= |units| && window == Range(lo, hi)
    ensures texts == Texts(units, lo, hi)
  {
    texts := [];
    for i := 0 to |window|
      invariant texts == Texts(units, lo, lo + i)
    {
      texts := texts + [units[window[i]].text];
    }
  }

  /** Whether `c` is the `k`th chunk, made of the units in `b`. */
  ghost predicate IsChunk(s: Section, o: Options, k: nat, b: Bounds, c: Chunk) {
    b.lo < b.hi <= |s.Units(o)| && Fits(s.Units(o), s.Budget(o), b.lo, b.hi) && c == ChunkOf(s, o, k, b)
  }

  ghost predicate AreChunks(s: Section, o: Options, chunks: seq<Chunk>, bounds: seq<Bounds>) {
    |chunks| == |bounds| && forall k | 0 <= k < |chunks| :: IsChunk(s, o, k, bounds[k], chunks[k])
  }

  lemma {:induction false} WindowAt(windows: seq<Window>, bounds: seq<Bounds>, k: nat)
    requires AreWindows(windows, bounds) && k < |bounds|
    ensures k < |windows| && bounds[k].lo <= bounds[k].hi && windows[k] == Range(bounds[k].lo, bounds[k].hi)
    decreases |bounds|
  {
    if k < |bounds| - 1 {
      WindowAt(windows[..|windows| - 1], bounds[..|bounds| - 1], k);
    }
  }

  method TextUnder(s: Section, body: string) returns (text: string)
    ensures text == s.Under(body)
  {
    match s.heading {
      case Some(heading) => text := heading + "\n\n" + body;
      case None => text := body;
    }
  }

  /** Whether `window` holds the positions of a run of units that fits. */
  ghost predicate IsReady(s: Section, o: Options, b: Bounds, window: Window) {
    b.lo < b.hi <= |s.Units(o)| && Fits(s.Units(o), s.Budget(o), b.lo, b.hi) && window == Range(b.lo, b.hi)
  }

  method MakeChunk(s: Section, units: seq<Unit>, window: Window, k: nat, ghost o: Options, ghost b: Bounds) returns (c: Chunk)
    requires units == s.Units(o) && IsReady(s, o, b, window)
    ensures IsChunk(s, o, k, b, c)
  {
    var texts := Collect(units, window, b.lo, b.hi);
    var text := TextUnder(s, Join(texts, "\n\n"));
    var tokens := EstimateTokens(text);
    c := Chunk(AsU32(k), text, AsU32(tokens));
  }

  method MakeChunks(s: Section, units: seq<Unit>, windows: seq<Window>, ghost o: Options, ghost bounds: seq<Bounds>)
    returns (out: seq<Chunk>)
    requires units == s.Units(o) && |windows| == |bounds|
    requires forall k | 0 <= k < |windows| :: IsReady(s, o, bounds[k], windows[k])
    ensures AreChunks(s, o, out, bounds)
  {
    out := [];
    for k := 0 to |windows|
      invariant AreChunks(s, o, out, bounds[..k])
    {
      var c := MakeChunk(s, units, windows[k], k, o, bounds[k]);
      assert bounds[..k + 1] == bounds[..k] + [bounds[k]];
      ChunksPush(s, o, out, bounds[..k], c, bounds[k]);
      out := out + [c];
    }
    assert bounds[..|windows|] == bounds;
  }

  lemma ChunksPush(s: Section, o: Options, chunks: seq<Chunk>, bounds: seq<Bounds>, c: Chunk, b: Bounds)
    requires AreChunks(s, o, chunks, bounds) && IsChunk(s, o, |chunks|, b, c)
    ensures AreChunks(s, o, chunks + [c], bounds + [b])
  {
    forall k | 0 <= k < |chunks| + 1
      ensures IsChunk(s, o, k, (bounds + [b])[k], (chunks + [c])[k])
    {
      if k < |chunks| {
        assert IsChunk(s, o, k, bounds[k], chunks[k]);
      }
    }
  }

  method BudgetFor(s: Section, o: Options) returns (budget: Options)
    ensures budget == s.Budget(o)
  {
    var heading: nat := 0;
    if s.heading.Some? {
      heading := EstimateTokens(s.heading.value);
    }
    budget := o.(maxTokens := Max(Max(o.maxTokens - heading, 0), 1));
  }

  method PackSection(s: Section, o: Options) returns (units: seq<Unit>, windows: seq<Window>)
    ensures units == s.Units(o) && IsPacking(units, s.Budget(o), windows)
  {
    var budget := BudgetFor(s, o);
    units := CollectUnits(s.blocks, budget.maxTokens);
    windows := Pack(units, budget);
  }

  lemma WindowsAreReady(s: Section, o: Options, windows: seq<Window>, bounds: seq<Bounds>)
    requires Packed(s.Units(o), s.Budget(o), bounds, |s.Units(o)|) && AreWindows(windows, bounds)
    ensures |windows| == |bounds| && forall k | 0 <= k < |windows| :: IsReady(s, o, bounds[k], windows[k])
  {
    forall k | 0 <= k < |windows|
      ensures IsReady(s, o, bounds[k], windows[k])
    {
      WindowAt(windows, bounds, k);
      WindowsFit(s.Units(o), s.Budget(o), bounds, |s.Units(o)|, k);
    }
  }

  /** A section's chunks: one for each window of its packed units, in order, under its heading. */
  ghost predicate IsChunking(s: Section, o: Options, chunks: seq<Chunk>) {
    exists bounds :: IsChunkedAs(s, o, chunks, bounds)
  }

  ghost predicate IsChunkedAs(s: Section, o: Options, chunks: seq<Chunk>, bounds: seq<Bounds>) {
    Packed(s.Units(o), s.Budget(o), bounds, |s.Units(o)|) && AreChunks(s, o, chunks, bounds)
  }

  /** Chunks one section. */
  method ChunkSection(s: Section, o: Options) returns (out: seq<Chunk>)
    ensures IsChunking(s, o, out)
  {
    var units, windows := PackSection(s, o);
    ghost var bounds :| IsPackedAs(units, s.Budget(o), windows, bounds);
    WindowsAreReady(s, o, windows, bounds);
    out := MakeChunks(s, units, windows, o, bounds);
    assert IsChunkedAs(s, o, out, bounds);
  }

  /** A chunk is over the ceiling only for a reason no packing could cure. */
  ghost predicate Excused(s: Section, o: Options, b: Bounds)
    requires b.lo < b.hi <= |s.Units(o)|
  {
    || s.HeadingTokens() >= o.maxTokens
    || (b.lo + 1 == b.hi
        && s.Units(o)[b.lo].tokens + s.HeadingTokens() > o.maxTokens
        && Indivisible(s.Units(o)[b.lo], s.blocks))
  }

  /**
   * The ceiling: the tokens a chunk reports, heading included, are within it, unless the heading alone
   * reaches it or the chunk is a single block or sentence that cannot be split and does not fit under it.
   */
  lemma {:induction false} CeilingHolds(s: Section, o: Options, k: nat, b: Bounds, c: Chunk)
    requires IsChunk(s, o, k, b, c)
    ensures c.tokens <= o.maxTokens || Excused(s, o, b)
  {
    ChunkCost(s, o, k, b);
    FirstUnitIsSound(s, o, b);
    var units := s.Units(o);
    assert b.lo + 1 == b.hi ==> Cost(units, b.lo, b.hi) == units[b.lo].tokens;
  }

  /** So it holds of every chunk of every section. */
  lemma EveryChunkIsUnderOrExcused(s: Section, o: Options, chunks: seq<Chunk>, k: nat)
    requires IsChunking(s, o, chunks) && k < |chunks|
    ensures chunks[k].tokens <= o.maxTokens || exists b :: IsChunk(s, o, k, b, chunks[k]) && Excused(s, o, b)
  {
    var bounds :| IsChunkedAs(s, o, chunks, bounds);
    CeilingHolds(s, o, k, bounds[k], chunks[k]);
  }

  /** And an excused chunk under a heading that fits really is over it, as long as its cost fits in 32 bits. */
  lemma {:induction false} ExcusedIsOver(s: Section, o: Options, k: nat, b: Bounds, c: Chunk)
    requires IsChunk(s, o, k, b, c) && Excused(s, o, b) && s.HeadingTokens() < o.maxTokens
    requires Estimate(c.text) < U32_RANGE
    ensures c.tokens > o.maxTokens
  {
    ChunkCost(s, o, k, b);
    assert Cost(s.Units(o), b.lo, b.hi) == s.Units(o)[b.lo].tokens;
  }

  lemma FirstUnitIsSound(s: Section, o: Options, b: Bounds)
    requires b.lo < b.hi <= |s.Units(o)|
    ensures SoundUnit(s.Units(o)[b.lo], s.blocks, s.Budget(o).maxTokens)
  {
    SectionUnitsAreSound(s.blocks, s.Budget(o).maxTokens);
    assert s.Units(o)[b.lo] in s.Units(o);
  }

  // ---- A section that ends in a very small chunk ----

  function Words(n: nat): string {
    if n == 0 then "" else Words(n - 1) + "a "
  }

  lemma {:induction false} WordsCost(n: nat)
    ensures Estimate(Words(n)) == n && (n > 0 ==> Words(n) != "" && !IsBlank(Words(n)))
    ensures Words(n) == "" || IsWhitespace(Words(n)[|Words(n)| - 1])
  {
    if n > 0 {
      WordsCost(n - 1);
      OneWordCost();
      EstimateAdds(Words(n - 1), "a ");
      assert Words(n)[|Words(n)| - 2] == 'a';
      assert 'a' in Words(n);
    } else {
      assert Tokens.Words("") == [];
    }
  }

  lemma OneWordCost()
    ensures Estimate("a ") == 1
  {
    assert "a "[1..] == " " && " "[1..] == "" && "" + ['a'] == "a";
    assert WordsFrom("a ", "") == WordsFrom(" ", "a") == ["a"] + WordsFrom("", "");
    assert ["a"][1..] == [] && SumBy([], WordCost) == 0;
    assert "a"[..0] == "";
    assert WordCost("a") == 1;
  }

  /** At the defaults, 800 words of prose followed by 30 are two chunks, the last of 30 tokens against a minimum of 200. */
  lemma SectionsEndWithRemnants(s: Section, o: Options, chunks: seq<Chunk>)
    requires s == Section(None, [Block(Words(800), false), Block(Words(30), false)]) && o == Options(200, 800, 80)
    requires IsChunking(s, o, chunks)
    ensures |chunks| == 2 && chunks[1].tokens == 30 < o.minTokens
  {
    TwoProseBlocks(s, o);
    TwoUnitsTwoChunks(s, o, chunks);
  }

  lemma TwoUnitsTwoChunks(s: Section, o: Options, chunks: seq<Chunk>)
    requires |s.Units(o)| == 2 && s.Units(o)[0].tokens == 800 && s.Units(o)[1].tokens == 30
    requires s.heading == None && s.Budget(o) == o == Options(200, 800, 80)
    requires IsChunking(s, o, chunks)
    ensures |chunks| == 2 && chunks[1].tokens == 30
  {
    var bounds :| IsChunkedAs(s, o, chunks, bounds);
    TwoChunks(s.Units(o), o);
    PackedIsUnique(s.Units(o), o, bounds, [Bounds(0, 1), Bounds(1, 2)]);
    assert IsChunk(s, o, 1, bounds[1], chunks[1]);
    ChunkCost(s, o, 1, bounds[1]);
  }

  lemma TwoProseBlocks(s: Section, o: Options)
    requires s == Section(None, [Block(Words(800), false), Block(Words(30), false)]) && o == Options(200, 800, 80)
    ensures s.Units(o) == [Unit(Words(800), 800, false), Unit(Words(30), 30, false)] && s.Budget(o) == o
  {
    WordsCost(800);
    WordsCost(30);
    var first, second := s.blocks[0], s.blocks[1];
    assert s.blocks[..1] == [first] && [first][..0] == [];
    assert SectionUnits([first], 800) == SectionUnits([], 800) + BlockUnits(first, 800);
  }
}
