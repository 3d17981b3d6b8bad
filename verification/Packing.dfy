/** Packing a section's units into chunks: contiguous windows, greedily filled, overlapping a little. */
module Packing {
  import opened Common
  import opened Chunks

  /** A chunk being packed: the positions of its units, in order. */
  type Window = seq<nat>

  function Cost(units: seq<Unit>, lo: nat, hi: nat): nat
    requires lo <= hi <= |units|
    decreases hi - lo
  {
    if lo == hi then 0 else Cost(units, lo, hi - 1) + units[hi - 1].tokens
  }

  lemma {:induction false} CostFromLeft(units: seq<Unit>, lo: nat, hi: nat)
    requires lo < hi <= |units|
    ensures Cost(units, lo, hi) == units[lo].tokens + Cost(units, lo + 1, hi)
    decreases hi - lo
  {
    if lo + 1 < hi {
      CostFromLeft(units, lo, hi - 1);
    }
  }

  function UnitTokens(u: Unit): nat {
    u.tokens
  }

  /** What a stretch of units costs is the sum of their tokens. */
  lemma {:induction false} CostIsSum(units: seq<Unit>, lo: nat, hi: nat)
    requires lo <= hi <= |units|
    ensures Cost(units, lo, hi) == SumBy(units[lo..hi], UnitTokens)
    decreases hi - lo
  {
    if lo < hi {
      CostIsSum(units, lo, hi - 1);
      assert units[lo..hi] == units[lo..hi - 1] + [units[hi - 1]];
      SumByPush(units[lo..hi - 1], units[hi - 1], UnitTokens);
    }
  }

  lemma {:induction false} CostShrinks(units: seq<Unit>, lo: nat, mid: nat, hi: nat)
    requires lo <= mid <= hi <= |units|
    ensures Cost(units, lo, hi) == Cost(units, lo, mid) + Cost(units, mid, hi)
    decreases hi - mid
  {
    if mid < hi {
      CostShrinks(units, lo, mid, hi - 1);
    }
  }

  /** The positions from `lo` up to `hi`. */
  function Range(lo: nat, hi: nat): Window
    requires lo <= hi
  {
    seq(hi - lo, i requires 0 <= i < hi - lo => lo + i)
  }

  // ---- The overlap ----

  /** Whether the units from `lo` up to `hi` may be repeated at the head of the next chunk. */
  predicate MayRepeat(units: seq<Unit>, o: Options, lo: nat, hi: nat)
    requires lo <= hi <= |units|
  {
    && (forall i | lo <= i < hi :: !units[i].atomic)
    && (Cost(units, lo, hi) <= o.overlapTokens || (lo + 1 == hi && units[lo].tokens * 2 <= o.maxTokens))
  }

  /** The overlap a closed chunk hands on: trailing prose within its budget, or one moderate last unit. */
  method Tail(units: seq<Unit>, current: Window, o: Options, ghost lo: nat, hi: nat) returns (out: Window)
    requires lo < hi <= |units| && current == Range(lo, hi)
    ensures |out| <= |current| && out == Range(hi - |out|, hi) && MayRepeat(units, o, hi - |out|, hi)
    ensures |out| < |current| ==> !MayRepeat(units, o, hi - |out| - 1, hi)
  {
    var tokens: nat := 0;
    var k := |current|;
    while k > 0 && !units[current[k - 1]].atomic && tokens + units[current[k - 1]].tokens <= o.overlapTokens
      invariant 0 <= k <= |current|
      invariant tokens == Cost(units, lo + k, hi) <= o.overlapTokens
      invariant forall i | lo + k <= i < hi :: !units[i].atomic
    {
      CostFromLeft(units, lo + k - 1, hi);
      k := k - 1;
      tokens := tokens + units[current[k]].tokens;
    }
    if k > 0 {
      CostFromLeft(units, lo + k - 1, hi);
    }
    out := current[k..];
    if out == [] && !units[current[|current| - 1]].atomic && units[current[|current| - 1]].tokens * 2 <= o.maxTokens {
      out := [current[|current| - 1]];
      if |current| > 1 {
        CostFromLeft(units, hi - 2, hi);
      }
    }
  }

  // ---- Windows ----

  /** A chunk's own promise: under the ceiling, unless it is one unit. */
  ghost predicate Fits(units: seq<Unit>, o: Options, lo: nat, hi: nat)
    requires lo < hi <= |units|
  {
    Cost(units, lo, hi) <= o.maxTokens || lo + 1 == hi
  }

  /** How one chunk `[a, b)` leads to the next, which starts at `c` and takes the unit at `b`. */
  ghost predicate Leads(units: seq<Unit>, o: Options, a: nat, b: nat, c: nat)
    requires a < b < |units|
  {
    && a < c <= b
    && Cost(units, a, b) + units[b].tokens > o.maxTokens
    && MayRepeat(units, o, c, b)
    && (c < b ==> Cost(units, c, b) + units[b].tokens <= o.maxTokens)
    && (MayRepeat(units, o, c - 1, b) ==> Cost(units, c - 1, b) + units[b].tokens > o.maxTokens)
  }

  datatype Bounds = Bounds(lo: nat, hi: nat)

  /** Windows covering the units from 0 up to `n`, each leading to the next and ending after it. */
  ghost predicate Packed(units: seq<Unit>, o: Options, bounds: seq<Bounds>, n: nat) {
    n <= |units| &&
    if bounds == [] then n == 0
    else
      var init, last := bounds[..|bounds| - 1], bounds[|bounds| - 1];
      && last.lo < last.hi == n && Fits(units, o, last.lo, last.hi)
      && if init == [] then last.lo == 0
         else
           var prev := init[|init| - 1];
           prev.hi < last.hi && Packed(units, o, init, prev.hi) && Leads(units, o, prev.lo, prev.hi, last.lo)
  }

  /** The chunks are the windows the bounds say. */
  ghost predicate AreWindows(chunks: seq<Window>, bounds: seq<Bounds>) {
    |chunks| == |bounds|
    && (bounds != [] ==>
          var last := bounds[|bounds| - 1];
          && last.lo <= last.hi && chunks[|chunks| - 1] == Range(last.lo, last.hi)
          && AreWindows(chunks[..|chunks| - 1], bounds[..|bounds| - 1]))
  }

  lemma WindowsPush(chunks: seq<Window>, bounds: seq<Bounds>, lo: nat, hi: nat)
    requires AreWindows(chunks, bounds) && lo <= hi
    ensures AreWindows(chunks + [Range(lo, hi)], bounds + [Bounds(lo, hi)])
  {
    assert (chunks + [Range(lo, hi)])[..|chunks|] == chunks;
    assert (bounds + [Bounds(lo, hi)])[..|bounds|] == bounds;
  }

  lemma RangePush(lo: nat, hi: nat)
    requires lo <= hi
    ensures Range(lo, hi) + [hi] == Range(lo, hi + 1)
  {
  }

  lemma ExtendLast(units: seq<Unit>, o: Options, done: seq<Bounds>, lo: nat, n: nat, m: nat)
    requires Packed(units, o, done + [Bounds(lo, n)], n) && n < m <= |units| && Fits(units, o, lo, m)
    ensures Packed(units, o, done + [Bounds(lo, m)], m)
  {
    assert (done + [Bounds(lo, n)])[..|done|] == done == (done + [Bounds(lo, m)])[..|done|];
  }

  lemma PushNext(units: seq<Unit>, o: Options, done: seq<Bounds>, lo: nat, n: nat, c: nat)
    requires Packed(units, o, done + [Bounds(lo, n)], n) && lo < n < |units|
    requires Leads(units, o, lo, n, c) && Fits(units, o, c, n + 1)
    ensures Packed(units, o, done + [Bounds(lo, n)] + [Bounds(c, n + 1)], n + 1)
  {
    var before := done + [Bounds(lo, n)];
    assert (before + [Bounds(c, n + 1)])[..|before|] == before;
  }

  /** Drops units off the front of an overlap until the unit to come fits behind it. */
  method MakeRoom(units: seq<Unit>, overlap: Window, incoming: Unit, o: Options, ghost t: nat, hi: nat)
    returns (kept: Window, tokens: nat)
    requires t <= hi <= |units| && overlap == Range(t, hi)
    ensures |kept| <= |overlap| && kept == Range(hi - |kept|, hi) && tokens == Cost(units, hi - |kept|, hi)
    ensures kept != [] ==> tokens + incoming.tokens <= o.maxTokens
    ensures |kept| < |overlap| ==> Cost(units, hi - |kept| - 1, hi) + incoming.tokens > o.maxTokens
  {
    kept := overlap;
    tokens := TokensOf(units, overlap, t, hi);
    while kept != [] && tokens + incoming.tokens > o.maxTokens
      invariant |kept| <= |overlap| && kept == Range(hi - |kept|, hi) && tokens == Cost(units, hi - |kept|, hi)
      invariant |kept| < |overlap| ==> Cost(units, hi - |kept| - 1, hi) + incoming.tokens > o.maxTokens
      decreases |kept|
    {
      CostFromLeft(units, hi - |kept|, hi);
      tokens := tokens - units[kept[0]].tokens;
      kept := kept[1..];
    }
  }

  method TokensOf(units: seq<Unit>, window: Window, ghost lo: nat, ghost hi: nat) returns (tokens: nat)
    requires lo <= hi <= |units| && window == Range(lo, hi)
    ensures tokens == Cost(units, lo, hi)
  {
    tokens := 0;
    for i := 0 to |window|
      invariant tokens == Cost(units, lo, lo + i)
    {
      tokens := tokens + units[window[i]].tokens;
    }
  }

  /** Repeating what may be repeated, minus a front that makes no room, is still repeating what may be. */
  lemma KeptMayRepeat(units: seq<Unit>, o: Options, t: nat, c: nat, hi: nat)
    requires t <= c <= hi <= |units| && MayRepeat(units, o, t, hi)
    ensures MayRepeat(units, o, c, hi)
  {
    CostShrinks(units, t, c, hi);
  }

  /** Begins a chunk with what it may repeat of the one before. */
  method Seed(units: seq<Unit>, current: Window, o: Options, ghost a: nat, b: nat) returns (kept: Window, tokens: nat)
    requires a < b < |units| && current == Range(a, b) && Cost(units, a, b) + units[b].tokens > o.maxTokens
    ensures |kept| <= b && Leads(units, o, a, b, b - |kept|) && Fits(units, o, b - |kept|, b + 1)
    ensures kept == Range(b - |kept|, b) && tokens == Cost(units, b - |kept|, b)
  {
    var overlap := Tail(units, current, o, a, b);
    kept, tokens := MakeRoom(units, overlap, units[b], o, b - |overlap|, b);
    KeptMayRepeat(units, o, b - |overlap|, b - |kept|, b);
  }

  /** Where the loop stands after the first `n` units: chunks closed, and one being filled. */
  ghost predicate Midway(units: seq<Unit>, o: Options, chunks: seq<Window>, bounds: seq<Bounds>,
                         current: Window, tokens: nat, lo: nat, n: nat)
  {
    && lo <= n <= |units| && (n > 0 ==> lo < n && Packed(units, o, bounds + [Bounds(lo, n)], n))
    && (n == 0 ==> bounds == [])
    && current == Range(lo, n) && tokens == Cost(units, lo, n) && AreWindows(chunks, bounds)
  }

  /** One more unit: into the chunk being filled, or closing it and seeding the next. */
  method TakeUnit(units: seq<Unit>, o: Options, chunks: seq<Window>, current: Window, tokens: nat, n: nat,
                  ghost bounds: seq<Bounds>, ghost lo: nat)
    returns (chunks': seq<Window>, current': Window, tokens': nat, ghost bounds': seq<Bounds>, ghost lo': nat)
    requires n < |units| && Midway(units, o, chunks, bounds, current, tokens, lo, n)
    ensures Midway(units, o, chunks', bounds', current', tokens', lo', n + 1)
  {
    chunks', current', tokens', bounds', lo' := chunks, current, tokens, bounds, lo;
    if current != [] && tokens + units[n].tokens > o.maxTokens {
      WindowsPush(chunks, bounds, lo, n);
      chunks' := chunks + [current];
      current', tokens' := Seed(units, current, o, lo, n);
      lo' := n - |current'|;
      PushNext(units, o, bounds, lo, n, lo');
      bounds' := bounds + [Bounds(lo, n)];
    } else if n > 0 {
      ExtendLast(units, o, bounds, lo, n, n + 1);
    }
    tokens' := tokens' + units[n].tokens;
    RangePush(lo', n);
    current' := current' + [n];
  }

  /** The chunks of a packing: windows that cover the units in order, each leading to the next. */
  ghost predicate IsPacking(units: seq<Unit>, o: Options, chunks: seq<Window>) {
    exists bounds :: IsPackedAs(units, o, chunks, bounds)
  }

  ghost predicate IsPackedAs(units: seq<Unit>, o: Options, chunks: seq<Window>, bounds: seq<Bounds>) {
    Packed(units, o, bounds, |units|) && AreWindows(chunks, bounds)
  }

  /** One pass over the units, closing a chunk whenever the next unit would not fit. */
  method FillGreedily(units: seq<Unit>, o: Options) returns (chunks: seq<Window>)
    ensures IsPacking(units, o, chunks)
  {
    chunks := [];
    ghost var bounds: seq<Bounds> := [];
    var current: Window := [];
    var tokens: nat := 0;
    ghost var lo: nat := 0;
    for i := 0 to |units|
      invariant Midway(units, o, chunks, bounds, current, tokens, lo, i)
    {
      chunks, current, tokens, bounds, lo := TakeUnit(units, o, chunks, current, tokens, i, bounds, lo);
    }
    if current != [] {
      WindowsPush(chunks, bounds, lo, |units|);
      chunks := chunks + [current];
      bounds := bounds + [Bounds(lo, |units|)];
    }
    assert IsPackedAs(units, o, chunks, bounds);
  }

  // ---- The trailing remnant ----

  /** Whether the last chunk is too small to stand alone and fits into the one before it. */
  ghost predicate IsRemnant(units: seq<Unit>, o: Options, bounds: seq<Bounds>)
    requires Packed(units, o, bounds, |units|)
  {
    |bounds| >= 2 &&
    var prev, last := bounds[|bounds| - 2], bounds[|bounds| - 1];
    && Cost(units, last.lo, last.hi) < o.minTokens
    && Cost(units, last.lo, last.hi) + Cost(units, prev.lo, prev.hi) <= o.maxTokens
  }

  ghost function Folded(units: seq<Unit>, o: Options, bounds: seq<Bounds>): seq<Bounds>
    requires Packed(units, o, bounds, |units|)
  {
    if IsRemnant(units, o, bounds)
    then bounds[..|bounds| - 2] + [Bounds(bounds[|bounds| - 2].lo, |units|)]
    else bounds
  }

  /** Merging the last two windows: their union costs no more than both, repeats counted twice. */
  lemma FoldedIsPacked(units: seq<Unit>, o: Options, bounds: seq<Bounds>)
    requires Packed(units, o, bounds, |units|)
    ensures Packed(units, o, Folded(units, o, bounds), |units|)
  {
    if IsRemnant(units, o, bounds) {
      var n := |bounds|;
      var init := bounds[..n - 1];
      assert init[n - 2] == bounds[n - 2] && init[..n - 2] == bounds[..n - 2];
      var prev, last := bounds[n - 2], bounds[n - 1];
      assert init == bounds[..n - 2] + [prev];
      assert Leads(units, o, prev.lo, prev.hi, last.lo);
      CostShrinks(units, prev.lo, prev.hi, last.hi);
      CostShrinks(units, last.lo, prev.hi, last.hi);
      ExtendLast(units, o, bounds[..n - 2], prev.lo, prev.hi, |units|);
    }
  }

  lemma RangeHas(lo: nat, hi: nat, x: nat)
    requires lo <= hi
    ensures x in Range(lo, hi) <==> lo <= x < hi
  {
    if lo <= x < hi {
      assert Range(lo, hi)[x - lo] == x;
    }
  }

  /** Puts into the earlier chunk what it does not already hold. */
  method Absorb(previous: Window, tail: Window, ghost a: nat, ghost b: nat, ghost c: nat, ghost d: nat) returns (out: Window)
    requires a < c <= b < d && previous == Range(a, b) && tail == Range(c, d)
    ensures out == Range(a, d)
  {
    out := previous;
    for i := 0 to |tail|
      invariant out == Range(a, Max(b, c + i))
    {
      RangeHas(a, Max(b, c + i), tail[i]);
      if tail[i] !in out {
        RangePush(a, c + i);
        out := out + [tail[i]];
      }
    }
  }

  lemma LastTwo(chunks: seq<Window>, bounds: seq<Bounds>)
    requires AreWindows(chunks, bounds) && |bounds| >= 2
    ensures |chunks| == |bounds|
    ensures var n := |bounds|;
            && bounds[n - 1].lo <= bounds[n - 1].hi && bounds[n - 2].lo <= bounds[n - 2].hi
            && chunks[n - 1] == Range(bounds[n - 1].lo, bounds[n - 1].hi)
            && chunks[n - 2] == Range(bounds[n - 2].lo, bounds[n - 2].hi)
            && AreWindows(chunks[..n - 2], bounds[..n - 2])
  {
    var n := |bounds|;
    assert chunks[..n - 1][..n - 2] == chunks[..n - 2];
    assert bounds[..n - 1][..n - 2] == bounds[..n - 2];
    assert AreWindows(chunks[..n - 1], bounds[..n - 1]);
  }

  lemma LastTwoMeet(units: seq<Unit>, o: Options, bounds: seq<Bounds>)
    requires Packed(units, o, bounds, |units|) && |bounds| >= 2
    ensures var n := |bounds|;
            var prev, last := bounds[n - 2], bounds[n - 1];
            prev.lo < last.lo <= prev.hi < last.hi == |units|
  {
    var n := |bounds|;
    assert bounds[..n - 1][n - 2] == bounds[n - 2];
  }

  /** Folds a trailing remnant back when it fits. */
  method FoldRemnant(units: seq<Unit>, o: Options, chunks: seq<Window>, ghost bounds: seq<Bounds>) returns (out: seq<Window>)
    requires Packed(units, o, bounds, |units|) && AreWindows(chunks, bounds)
    ensures AreWindows(out, Folded(units, o, bounds))
  {
    out := chunks;
    if |chunks| >= 2 {
      var last := |chunks| - 1;
      LastTwo(chunks, bounds);
      LastTwoMeet(units, o, bounds);
      ghost var p, q := bounds[last - 1], bounds[last];
      var remnant := TokensOf(units, chunks[last], q.lo, q.hi);
      var previous := TokensOf(units, chunks[last - 1], p.lo, p.hi);
      if remnant < o.minTokens && remnant + previous <= o.maxTokens {
        var merged := Absorb(chunks[last - 1], chunks[last], p.lo, p.hi, q.lo, q.hi);
        out := chunks[..last - 1] + [merged];
        WindowsPush(chunks[..last - 1], bounds[..last - 1], p.lo, |units|);
      }
    }
  }

  /** Packs a section's units into chunks of their positions. */
  method Pack(units: seq<Unit>, o: Options) returns (chunks: seq<Window>)
    ensures IsPacking(units, o, chunks)
  {
    chunks := FillGreedily(units, o);
    ghost var bounds :| IsPackedAs(units, o, chunks, bounds);
    chunks := FoldRemnant(units, o, chunks, bounds);
    FoldedIsPacked(units, o, bounds);
    assert IsPackedAs(units, o, chunks, Folded(units, o, bounds));
  }

  // ---- What the windows promise ----

  /** Every window is a run of units that fits. */
  lemma {:induction false} WindowsFit(units: seq<Unit>, o: Options, bounds: seq<Bounds>, n: nat, i: nat)
    requires Packed(units, o, bounds, n) && i < |bounds|
    ensures bounds[i].lo < bounds[i].hi <= n <= |units| && Fits(units, o, bounds[i].lo, bounds[i].hi)
    ensures i == 0 ==> bounds[i].lo == 0
    ensures i == |bounds| - 1 ==> bounds[i].hi == n
    decreases |bounds|
  {
    var init := bounds[..|bounds| - 1];
    if i < |init| {
      WindowsFit(units, o, init, init[|init| - 1].hi, i);
    }
  }

  /**
   * Each window starts and ends strictly after the one before it and leaves no unit out between them;
   * what both hold is prose within the overlap budget, or one block of prose up to half the ceiling.
   */
  lemma {:induction false} WindowsAdvance(units: seq<Unit>, o: Options, bounds: seq<Bounds>, n: nat, i: nat)
    requires Packed(units, o, bounds, n) && i + 1 < |bounds|
    ensures bounds[i].lo < bounds[i + 1].lo <= bounds[i].hi < bounds[i + 1].hi <= n <= |units|
    ensures var shared := units[bounds[i + 1].lo..bounds[i].hi];
            && (forall u <- shared :: !u.atomic)
            && (SumBy(shared, UnitTokens) <= o.overlapTokens || (|shared| == 1 && shared[0].tokens * 2 <= o.maxTokens))
    decreases |bounds|
  {
    var init := bounds[..|bounds| - 1];
    WindowsFit(units, o, bounds, n, i + 1);
    if i + 1 < |init| {
      WindowsFit(units, o, init, init[|init| - 1].hi, i + 1);
      WindowsAdvance(units, o, init, init[|init| - 1].hi, i);
      assert bounds[i + 1] == init[i + 1];
    } else {
      CostIsSum(units, bounds[i + 1].lo, bounds[i].hi);
    }
  }

  /** Every unit is in some window. */
  lemma {:induction false} WindowsCover(units: seq<Unit>, o: Options, bounds: seq<Bounds>, n: nat, u: nat) returns (i: nat)
    requires Packed(units, o, bounds, n) && u < n
    ensures i < |bounds| && bounds[i].lo <= u < bounds[i].hi
    decreases |bounds|
  {
    i := |bounds| - 1;
    if u < bounds[i].lo {
      var init := bounds[..i];
      i := WindowsCover(units, o, init, init[|init| - 1].hi, u);
    }
  }

  // ---- The windows are determined, and no remnant is ever folded ----

  lemma {:induction false} WindowsLead(units: seq<Unit>, o: Options, bounds: seq<Bounds>, n: nat, i: nat)
    requires Packed(units, o, bounds, n) && i + 1 < |bounds|
    ensures bounds[i].lo < bounds[i].hi < n && Leads(units, o, bounds[i].lo, bounds[i].hi, bounds[i + 1].lo)
    decreases |bounds|
  {
    var init := bounds[..|bounds| - 1];
    if i + 1 < |init| {
      WindowsLead(units, o, init, init[|init| - 1].hi, i);
    }
  }

  /** A chunk ends where the next unit no longer fits, so there is no choice about where. */
  lemma EndIsForced(units: seq<Unit>, o: Options, a: nat, b: nat, other: nat)
    requires a < b < other <= |units| && Cost(units, a, b) + units[b].tokens > o.maxTokens
    ensures !Fits(units, o, a, other)
  {
    CostShrinks(units, a, b + 1, other);
  }

  /** The overlap is the longest that may be repeated and leaves room, so there is no choice about it either. */
  lemma StartIsForced(units: seq<Unit>, o: Options, a: nat, b: nat, c: nat, d: nat)
    requires a < b < |units| && Leads(units, o, a, b, c) && Leads(units, o, a, b, d)
    ensures c == d
  {
    var lo, hi := Min(c, d), Max(c, d);
    if lo < hi {
      KeptMayRepeat(units, o, lo, hi - 1, b);
      CostShrinks(units, lo, hi - 1, b);
    }
  }

  lemma SameStart(units: seq<Unit>, o: Options, left: seq<Bounds>, right: seq<Bounds>, i: nat)
    requires Packed(units, o, left, |units|) && Packed(units, o, right, |units|)
    requires i + 1 < |left| && i + 1 < |right| && left[i] == right[i]
    ensures left[i + 1].lo == right[i + 1].lo
  {
    WindowsLead(units, o, left, |units|, i);
    WindowsLead(units, o, right, |units|, i);
    StartIsForced(units, o, left[i].lo, left[i].hi, left[i + 1].lo, right[i + 1].lo);
  }

  lemma {:induction false} SameWindow(units: seq<Unit>, o: Options, left: seq<Bounds>, right: seq<Bounds>, i: nat)
    requires Packed(units, o, left, |units|) && Packed(units, o, right, |units|)
    requires i < |left| && i < |right|
    ensures left[i] == right[i]
    decreases i
  {
    if i > 0 {
      SameWindow(units, o, left, right, i - 1);
      SameStart(units, o, left, right, i - 1);
    } else {
      WindowsFit(units, o, left, |units|, 0);
      WindowsFit(units, o, right, |units|, 0);
    }
    SameEnd(units, o, left, right, i);
    SameEnd(units, o, right, left, i);
  }

  lemma SameEnd(units: seq<Unit>, o: Options, left: seq<Bounds>, right: seq<Bounds>, i: nat)
    requires Packed(units, o, left, |units|) && Packed(units, o, right, |units|)
    requires i < |left| && i < |right| && left[i].lo == right[i].lo
    ensures left[i].hi >= right[i].hi
  {
    WindowsFit(units, o, left, |units|, i);
    WindowsFit(units, o, right, |units|, i);
    if left[i].hi < right[i].hi {
      WindowsLead(units, o, left, |units|, i);
      EndIsForced(units, o, left[i].lo, left[i].hi, right[i].hi);
    }
  }

  /** The windows are a function of the units and the options: what `Packed` says leaves no freedom. */
  lemma PackedIsUnique(units: seq<Unit>, o: Options, left: seq<Bounds>, right: seq<Bounds>)
    requires Packed(units, o, left, |units|) && Packed(units, o, right, |units|)
    ensures left == right
  {
    if |left| < |right| {
      NoExtraWindow(units, o, left, right);
    } else if |right| < |left| {
      NoExtraWindow(units, o, right, left);
    }
    forall i | 0 <= i < |left|
      ensures left[i] == right[i]
    {
      SameWindow(units, o, left, right, i);
    }
  }

  /** So there is one packing, and the loop finds it. */
  lemma PackingIsUnique(units: seq<Unit>, o: Options, left: seq<Window>, right: seq<Window>)
    requires IsPacking(units, o, left) && IsPacking(units, o, right)
    ensures left == right
  {
    var a :| IsPackedAs(units, o, left, a);
    var b :| IsPackedAs(units, o, right, b);
    PackedIsUnique(units, o, a, b);
    SameBoundsSameWindows(left, right, a);
  }

  lemma {:induction false} SameBoundsSameWindows(left: seq<Window>, right: seq<Window>, bounds: seq<Bounds>)
    requires AreWindows(left, bounds) && AreWindows(right, bounds)
    ensures left == right
    decreases |bounds|
  {
    if bounds != [] {
      var n := |bounds| - 1;
      SameBoundsSameWindows(left[..n], right[..n], bounds[..n]);
      assert left == left[..n] + [left[n]] && right == right[..n] + [right[n]];
    }
  }

  lemma NoExtraWindow(units: seq<Unit>, o: Options, short: seq<Bounds>, long: seq<Bounds>)
    requires Packed(units, o, short, |units|) && Packed(units, o, long, |units|)
    ensures |short| >= |long|
  {
    if |short| < |long| {
      if short != [] {
        var i := |short| - 1;
        SameWindow(units, o, short, long, i);
        WindowsFit(units, o, short, |units|, i);
        WindowsLead(units, o, long, |units|, i);
      }
    }
  }

  /**
   * The step that folds a trailing remnant back never folds anything: a chunk was closed because the unit
   * that opens the next part did not fit, and the last chunk holds at least that unit.
   */
  lemma NoRemnantEverFits(units: seq<Unit>, o: Options, bounds: seq<Bounds>)
    requires Packed(units, o, bounds, |units|)
    ensures !IsRemnant(units, o, bounds) && Folded(units, o, bounds) == bounds
  {
    if |bounds| >= 2 {
      var n := |bounds|;
      WindowsLead(units, o, bounds, |units|, n - 2);
      LastTwoMeet(units, o, bounds);
      var prev, last := bounds[n - 2], bounds[n - 1];
      CostShrinks(units, last.lo, prev.hi, last.hi);
      CostFromLeft(units, prev.hi, last.hi);
    }
  }

  /** Two units that do not go together, the first too large to be repeated: one chunk each, however small the second. */
  lemma TwoChunks(units: seq<Unit>, o: Options)
    requires |units| == 2 && units[0].tokens <= o.maxTokens && units[0].tokens + units[1].tokens > o.maxTokens
    requires units[0].tokens > o.overlapTokens && units[0].tokens * 2 > o.maxTokens
    ensures Packed(units, o, [Bounds(0, 1), Bounds(1, 2)], 2) && Cost(units, 1, 2) == units[1].tokens
  {
    var bounds := [Bounds(0, 1), Bounds(1, 2)];
    assert bounds[..1] == [Bounds(0, 1)] && [Bounds(0, 1)][..0] == [];
    assert Cost(units, 0, 1) == units[0].tokens;
  }
}
