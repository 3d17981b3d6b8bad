/** Counting changed lines: longest common subsequences, trimmed ends, and a bound where the table is too big. */
module Diff {
  import opened Common

  /** The largest table that is filled in; beyond it a bound stands in for the counts. */
  const LCS_CELL_BUDGET: nat := 4_000_000

  newtype u32 = n: int | 0 <= n < U32_RANGE

  // ---- What a count has to mean: edit scripts ----

  /** One line of an edit script: carried over, dropped, or put in. */
  datatype Edit<T> = Keep | Delete | Insert(line: T)

  /** Whether a script rewrites `before` into `after`, consuming both sides completely. */
  ghost predicate Rewrites<T>(script: seq<Edit<T>>, before: seq<T>, after: seq<T>) {
    if script == [] then before == [] && after == []
    else
      var rest := script[..|script| - 1];
      match script[|script| - 1]
      case Keep =>
        before != [] && after != [] && Last(before) == Last(after) && Rewrites(rest, Init(before), Init(after))
      case Delete => before != [] && Rewrites(rest, Init(before), after)
      case Insert(line) => after != [] && line == Last(after) && Rewrites(rest, before, Init(after))
  }

  ghost function Insertions<T>(script: seq<Edit<T>>): nat {
    if script == [] then 0
    else Insertions(script[..|script| - 1]) + if script[|script| - 1].Insert? then 1 else 0
  }

  ghost function Deletions<T>(script: seq<Edit<T>>): nat {
    if script == [] then 0
    else Deletions(script[..|script| - 1]) + if script[|script| - 1].Delete? then 1 else 0
  }

  /** Whether `s` can be thinned to `c` without reordering. */
  ghost predicate IsSubsequence<T>(c: seq<T>, s: seq<T>) {
    c == [] || (s != [] && ((Last(c) == Last(s) && IsSubsequence(Init(c), Init(s))) || IsSubsequence(c, Init(s))))
  }

  function Last<T>(s: seq<T>): T
    requires s != []
  {
    s[|s| - 1]
  }

  function Init<T>(s: seq<T>): seq<T>
    requires s != []
  {
    s[..|s| - 1]
  }

  // ---- The recurrence the table fills ----

  function Lcs<T(==)>(a: seq<T>, b: seq<T>): nat
    decreases |a| + |b|
  {
    if a == [] || b == [] then 0
    else if Last(a) == Last(b) then Lcs(Init(a), Init(b)) + 1
    else Max(Lcs(a, Init(b)), Lcs(Init(a), b))
  }

  /** One more line on either side lengthens the common part by at most one, and never shortens it. */
  lemma {:induction false} LcsStep<T>(a: seq<T>, b: seq<T>)
    requires a != []
    ensures Lcs(Init(a), b) <= Lcs(a, b) <= Lcs(Init(a), b) + 1
    ensures b != [] ==> Lcs(a, Init(b)) <= Lcs(a, b) <= Lcs(a, Init(b)) + 1
    decreases |a| + |b|
  {
    if b != [] {
      LcsStep(a, Init(b));
      if |a| > 1 {
        LcsStep(Init(a), b);
      }
    }
  }

  lemma {:induction false} LcsBound<T>(a: seq<T>, b: seq<T>)
    ensures Lcs(a, b) <= |a| && Lcs(a, b) <= |b|
    decreases |a| + |b|
  {
    if a != [] && b != [] {
      LcsBound(Init(a), Init(b));
      LcsBound(a, Init(b));
      LcsBound(Init(a), b);
    }
  }

  /** No common subsequence is longer than the recurrence says. */
  lemma {:induction false} LcsIsUpperBound<T>(c: seq<T>, a: seq<T>, b: seq<T>)
    requires IsSubsequence(c, a) && IsSubsequence(c, b)
    ensures |c| <= Lcs(a, b)
    decreases |a| + |b|
  {
    if c != [] {
      LcsStep(a, b);
      if Last(c) == Last(a) && IsSubsequence(Init(c), Init(a)) && Last(c) == Last(b) && IsSubsequence(Init(c), Init(b)) {
        LcsIsUpperBound(Init(c), Init(a), Init(b));
      } else if IsSubsequence(c, Init(a)) {
        LcsIsUpperBound(c, Init(a), b);
      } else {
        LcsIsUpperBound(c, a, Init(b));
      }
    }
  }

  /** Some common subsequence is exactly that long. */
  lemma {:induction false} LcsIsAttained<T>(a: seq<T>, b: seq<T>) returns (c: seq<T>)
    ensures IsSubsequence(c, a) && IsSubsequence(c, b) && |c| == Lcs(a, b)
    decreases |a| + |b|
  {
    if a == [] || b == [] {
      c := [];
    } else if Last(a) == Last(b) {
      var rest := LcsIsAttained(Init(a), Init(b));
      c := rest + [Last(a)];
      assert Init(c) == rest;
    } else if Lcs(a, Init(b)) >= Lcs(Init(a), b) {
      c := LcsIsAttained(a, Init(b));
    } else {
      c := LcsIsAttained(Init(a), b);
    }
  }

  /** Every script costs at least what the recurrence leaves over, on each side. */
  lemma {:induction false} ScriptCost<T>(script: seq<Edit<T>>, before: seq<T>, after: seq<T>)
    requires Rewrites(script, before, after)
    ensures Insertions(script) >= |after| - Lcs(before, after)
    ensures Deletions(script) >= |before| - Lcs(before, after)
    ensures Insertions(script) - Deletions(script) == |after| - |before|
    decreases |script|
  {
    if script != [] {
      var rest := script[..|script| - 1];
      match script[|script| - 1]
      case Keep =>
        ScriptCost(rest, Init(before), Init(after));
      case Delete =>
        LcsStep(before, after);
        ScriptCost(rest, Init(before), after);
      case Insert(line) =>
        if before != [] {
          LcsStep(before, after);
        }
        ScriptCost(rest, before, Init(after));
    }
  }

  /** Some script costs exactly that. */
  lemma {:induction false} CheapestScript<T>(before: seq<T>, after: seq<T>) returns (script: seq<Edit<T>>)
    ensures Rewrites(script, before, after)
    ensures Insertions(script) == |after| - Lcs(before, after)
    ensures Deletions(script) == |before| - Lcs(before, after)
    decreases |before| + |after|
  {
    if before == [] && after == [] {
      script := [];
    } else {
      var rest;
      if before != [] && after != [] && Last(before) == Last(after) {
        rest := CheapestScript(Init(before), Init(after));
        script := rest + [Keep];
      } else if before == [] || (after != [] && Lcs(before, Init(after)) >= Lcs(Init(before), after)) {
        rest := CheapestScript(before, Init(after));
        script := rest + [Insert(Last(after))];
      } else {
        rest := CheapestScript(Init(before), after);
        script := rest + [Delete];
      }
      assert script[..|script| - 1] == rest;
    }
  }

  // ---- Trimming ----

  lemma {:induction false} LcsCommonHead<T>(c: T, a: seq<T>, b: seq<T>)
    ensures Lcs([c] + a, [c] + b) == 1 + Lcs(a, b)
    decreases |a| + |b|
  {
    if a != [] {
      assert Init([c] + a) == [c] + Init(a);
    }
    if b != [] {
      assert Init([c] + b) == [c] + Init(b);
    }
    if a != [] && b != [] {
      LcsCommonHead(c, Init(a), Init(b));
      LcsCommonHead(c, a, Init(b));
      LcsCommonHead(c, Init(a), b);
    } else if a != [] {
      LcsCommonHead(c, Init(a), b);
    } else if b != [] {
      LcsCommonHead(c, a, Init(b));
    }
  }

  /** How many leading lines agree. */
  function CommonHead<T(==)>(a: seq<T>, b: seq<T>): (n: nat)
    ensures n <= |a| && n <= |b|
  {
    if a != [] && b != [] && a[0] == b[0] then CommonHead(a[1..], b[1..]) + 1 else 0
  }

  /** How many trailing lines agree. */
  function CommonTail<T(==)>(a: seq<T>, b: seq<T>): (n: nat)
    ensures n <= |a| && n <= |b|
  {
    if a != [] && b != [] && Last(a) == Last(b) then CommonTail(Init(a), Init(b)) + 1 else 0
  }

  lemma {:induction false} TrimHead<T>(a: seq<T>, b: seq<T>)
    ensures Lcs(a, b) == CommonHead(a, b) + Lcs(a[CommonHead(a, b)..], b[CommonHead(a, b)..])
  {
    if a != [] && b != [] && a[0] == b[0] {
      var n := CommonHead(a[1..], b[1..]);
      TrimHead(a[1..], b[1..]);
      assert a == [a[0]] + a[1..] && b == [b[0]] + b[1..];
      LcsCommonHead(a[0], a[1..], b[1..]);
      assert a[1..][n..] == a[n + 1..] && b[1..][n..] == b[n + 1..];
    } else {
      assert a[0..] == a && b[0..] == b;
    }
  }

  lemma {:induction false} TrimTail<T>(a: seq<T>, b: seq<T>)
    ensures Lcs(a, b) == CommonTail(a, b) + Lcs(a[..|a| - CommonTail(a, b)], b[..|b| - CommonTail(a, b)])
    decreases |a|
  {
    if a != [] && b != [] && Last(a) == Last(b) {
      var n := CommonTail(Init(a), Init(b));
      TrimTail(Init(a), Init(b));
      assert Init(a)[..|a| - 1 - n] == a[..|a| - 1 - n];
      assert Init(b)[..|b| - 1 - n] == b[..|b| - 1 - n];
    } else {
      assert a[..|a|] == a && b[..|b|] == b;
    }
  }

  /** Both sides with the same number of agreeing lines taken off each end. */
  function Trimmed<T(==)>(before: seq<T>, after: seq<T>): (r: (seq<T>, seq<T>))
    ensures |before| - |r.0| == |after| - |r.1| >= 0
  {
    var head := CommonHead(before, after);
    var b, a := before[head..], after[head..];
    var tail := CommonTail(b, a);
    (b[..|b| - tail], a[..|a| - tail])
  }

  /** All the lines trimmed were common ones. */
  lemma {:induction false} TrimmedKeepsLcs<T>(before: seq<T>, after: seq<T>)
    ensures Lcs(before, after)
            == Lcs(Trimmed(before, after).0, Trimmed(before, after).1) + (|before| - |Trimmed(before, after).0|)
  {
    var head := CommonHead(before, after);
    TrimHead(before, after);
    TrimTail(before[head..], after[head..]);
  }

  /** Trimming leaves nothing to trim: what remains disagrees at both ends. */
  lemma {:induction false} TrimmedEndsDisagree<T>(before: seq<T>, after: seq<T>)
    ensures var (b, a) := Trimmed(before, after);
            b != [] && a != [] ==> b[0] != a[0] && Last(b) != Last(a)
  {
    var head := CommonHead(before, after);
    HeadIsMaximal(before, after);
    TailIsMaximal(before[head..], after[head..]);
  }

  lemma {:induction false} HeadIsMaximal<T>(a: seq<T>, b: seq<T>)
    ensures var n := CommonHead(a, b); n < |a| && n < |b| ==> a[n] != b[n]
  {
    if a != [] && b != [] && a[0] == b[0] {
      HeadIsMaximal(a[1..], b[1..]);
    }
  }

  lemma {:induction false} TailIsMaximal<T>(a: seq<T>, b: seq<T>)
    ensures var n := CommonTail(a, b); n < |a| && n < |b| ==> a[|a| - 1 - n] != b[|b| - 1 - n]
    decreases |a|
  {
    if a != [] && b != [] && Last(a) == Last(b) {
      TailIsMaximal(Init(a), Init(b));
    }
  }

  // ---- The counts ----

  datatype LineCount = LineCount(added: nat, removed: nat, bounded: bool) {
    /** Saturating, as the source adds two u32 values. */
    function Total(): nat {
      Min(added + removed, U32_RANGE - 1)
    }
  }

  /** Whether the table is too large to fill. */
  predicate OverBudget(rows: nat, columns: nat) {
    rows * columns > LCS_CELL_BUDGET
  }

  /** Fills the table keeping two of its rows. The budget its caller checks is what keeps a cell in 32 bits. */
  method LcsLen<T(==)>(a: seq<T>, b: seq<T>) returns (n: nat)
    requires !OverBudget(|a|, |b|)
    ensures n == Lcs(a, b)
  {
    if |a| == 0 || |b| == 0 {
      return 0;
    }
    var previous := new u32[|b| + 1](_ => 0);
    var current := new u32[|b| + 1](_ => 0);
    for i := 0 to |a|
      invariant fresh(previous) && fresh(current) && previous != current
      invariant previous.Length == current.Length == |b| + 1
      invariant forall k :: 0 <= k <= |b| ==> previous[k] as int == Lcs(a[..i], b[..k])
      invariant forall k :: 0 <= k <= |b| ==> current[k] == 0
    {
      for j := 0 to |b|
        invariant forall k :: 0 <= k <= |b| ==> previous[k] as int == Lcs(a[..i], b[..k])
        invariant forall k :: 0 <= k <= j ==> current[k] as int == Lcs(a[..i + 1], b[..k])
      {
        CellStep(a, b, i, j);
        if a[i] == b[j] {
          current[j + 1] := previous[j] + 1;
        } else {
          current[j + 1] := if current[j] <= previous[j + 1] then previous[j + 1] else current[j];
        }
      }
      previous, current := current, previous;
      forall k | 0 <= k < current.Length {
        current[k] := 0;
      }
    }
    assert a[..|a|] == a && b[..|b|] == b;
    n := previous[|b|] as int;
  }

  /** One cell of the table, and why it fits. */
  lemma {:induction false} CellStep<T>(a: seq<T>, b: seq<T>, i: nat, j: nat)
    requires i < |a| && j < |b| && !OverBudget(|a|, |b|)
    ensures Lcs(a[..i + 1], b[..j + 1]) ==
            if a[i] == b[j] then Lcs(a[..i], b[..j]) + 1
            else Max(Lcs(a[..i + 1], b[..j]), Lcs(a[..i], b[..j + 1]))
    ensures Lcs(a[..i], b[..j]) <= LCS_CELL_BUDGET
  {
    assert Init(a[..i + 1]) == a[..i] && Init(b[..j + 1]) == b[..j];
    LcsBound(a[..i], b[..j]);
    assert |a| <= |a| * |b|;
  }

  /** Counts insertions and deletions, or bounds them when counting would cost too much. */
  method Count<T(==)>(before: seq<T>, after: seq<T>) returns (r: LineCount)
    ensures r == Counts(before, after)
  {
    var (b, a) := Trimmed(before, after);
    if OverBudget(|b|, |a|) {
      return LineCount(AsU32(|a|), AsU32(|b|), true);
    }
    var common := LcsLen(b, a);
    LcsBound(b, a);
    return LineCount(AsU32(|a| - common), AsU32(|b| - common), false);
  }

  function Counts<T(==)>(before: seq<T>, after: seq<T>): LineCount {
    var (b, a) := Trimmed(before, after);
    if OverBudget(|b|, |a|) then LineCount(AsU32(|a|), AsU32(|b|), true)
    else
      LcsBound(b, a);
      LineCount(AsU32(|a| - Lcs(b, a)), AsU32(|b| - Lcs(b, a)), false)
  }

  /** What is trimmed stands at the ends of both sides, and what is left between. */
  lemma TrimmedIsBetween<T>(before: seq<T>, after: seq<T>) returns (head: seq<T>, tail: seq<T>)
    ensures before == head + Trimmed(before, after).0 + tail && after == head + Trimmed(before, after).1 + tail
  {
    var n := CommonHead(before, after);
    HeadIsCommon(before, after);
    var b, a := before[n..], after[n..];
    var m := CommonTail(b, a);
    TailIsCommon(b, a);
    head, tail := before[..n], b[|b| - m..];
    InThree(before, n, m);
    InThree(after, n, m);
  }

  lemma InThree<T>(s: seq<T>, n: nat, m: nat)
    requires n <= |s| && m <= |s[n..]|
    ensures s == s[..n] + s[n..][..|s[n..]| - m] + s[n..][|s[n..]| - m..]
  {
  }

  lemma {:induction false} HeadIsCommon<T>(a: seq<T>, b: seq<T>)
    ensures var n := CommonHead(a, b); n <= |a| && n <= |b| && a[..n] == b[..n]
  {
    if a != [] && b != [] && a[0] == b[0] {
      HeadIsCommon(a[1..], b[1..]);
      var n := CommonHead(a[1..], b[1..]);
      assert a[..n + 1] == [a[0]] + a[1..][..n] && b[..n + 1] == [b[0]] + b[1..][..n];
    }
  }

  lemma {:induction false} TailIsCommon<T>(a: seq<T>, b: seq<T>)
    ensures var n := CommonTail(a, b); n <= |a| && n <= |b| && a[|a| - n..] == b[|b| - n..]
    decreases |a|
  {
    if a != [] && b != [] && Last(a) == Last(b) {
      TailIsCommon(Init(a), Init(b));
      var n := CommonTail(Init(a), Init(b));
      assert a[|a| - n - 1..] == Init(a)[|Init(a)| - n..] + [Last(a)];
      assert b[|b| - n - 1..] == Init(b)[|Init(b)| - n..] + [Last(b)];
    }
  }

  /** A count is a bound exactly where what is left between the common ends takes more than four million cells. */
  lemma BoundedIff<T>(before: seq<T>, after: seq<T>)
    ensures Counts(before, after).bounded <==> |Trimmed(before, after).0| * |Trimmed(before, after).1| > 4_000_000
  {
  }

  /** So files whose numbers of lines multiply to no more are counted exactly: two of two thousand lines, say. */
  lemma SmallFilesAreExact<T>(before: seq<T>, after: seq<T>)
    requires |before| * |after| <= 4_000_000
    ensures !Counts(before, after).bounded
  {
    BoundedIff(before, after);
    ProductsGrow(|Trimmed(before, after).0|, |before|, |Trimmed(before, after).1|, |after|);
  }

  lemma ProductsGrow(a: nat, b: nat, c: nat, d: nat)
    requires a <= b && c <= d
    ensures a * c <= b * d
  {
    assert a * c <= b * c <= b * d;
  }

  /** The counts in terms of the untrimmed sides. */
  lemma {:induction false} CountsUntrimmed<T>(before: seq<T>, after: seq<T>) returns (trimmed: nat)
    ensures trimmed <= Lcs(before, after) <= |before| && Lcs(before, after) <= |after|
    ensures var r := Counts(before, after);
            !r.bounded ==> r.added == AsU32(|after| - Lcs(before, after)) && r.removed == AsU32(|before| - Lcs(before, after))
    ensures var r := Counts(before, after);
            r.bounded ==> r.added == AsU32(|after| - trimmed) && r.removed == AsU32(|before| - trimmed)
  {
    var b, a := Trimmed(before, after).0, Trimmed(before, after).1;
    trimmed := |before| - |b|;
    TrimmedKeepsLcs(before, after);
    LcsBound(b, a);
    assert Lcs(before, after) == Lcs(b, a) + trimmed;
    assert |a| == |after| - trimmed;
  }

  /** The net growth is exact either way, for sides whose line numbers fit the u32 they are cast to. */
  lemma {:induction false} CountsKeepNetGrowth<T>(before: seq<T>, after: seq<T>)
    requires |before| < U32_RANGE && |after| < U32_RANGE
    ensures Counts(before, after).added - Counts(before, after).removed == |after| - |before|
  {
    var _ := CountsUntrimmed(before, after);
  }

  /** Neither count is below what the cheapest edit script does, bounded or not. */
  lemma {:induction false} CountsNeverUnder<T>(before: seq<T>, after: seq<T>) returns (script: seq<Edit<T>>)
    requires |before| < U32_RANGE && |after| < U32_RANGE
    ensures Rewrites(script, before, after)
    ensures Insertions(script) <= Counts(before, after).added && Deletions(script) <= Counts(before, after).removed
  {
    var _ := CountsUntrimmed(before, after);
    script := CheapestScript(before, after);
  }

  /** And an unbounded count is not above any script at all, so it is git's minimum. */
  lemma {:induction false} CountsNeverOver<T>(script: seq<Edit<T>>, before: seq<T>, after: seq<T>)
    requires Rewrites(script, before, after) && !Counts(before, after).bounded
    ensures Counts(before, after).added <= Insertions(script)
    ensures Counts(before, after).removed <= Deletions(script)
  {
    var _ := CountsUntrimmed(before, after);
    ScriptCost(script, before, after);
  }

  /** An exact count is right if and only if the number it reports fits in 32 bits. */
  lemma {:induction false} ExactCountsFitIff<T>(before: seq<T>, after: seq<T>)
    requires !Counts(before, after).bounded
    ensures var r := Counts(before, after);
            var added, removed := |after| - Lcs(before, after), |before| - Lcs(before, after);
            && (r.added == added <==> added < U32_RANGE)
            && (r.removed == removed <==> removed < U32_RANGE)
  {
    var _ := CountsUntrimmed(before, after);
  }

  /** The cast loses a change of 2^32 lines altogether: an empty file grown that much adds nothing. */
  lemma {:induction false} CountWraps<T>(before: seq<T>, after: seq<T>)
    requires before == [] && |after| == U32_RANGE
    ensures Counts(before, after).added == 0 && Counts(before, after).removed == 0
  {
    var r := Counts(before, after);
    assert !r.bounded by {
      assert |Trimmed(before, after).0| == 0;
      assert !OverBudget(0, |Trimmed(before, after).1|);
    }
    assert r.added == AsU32(|after| - Lcs(before, after)) && r.removed == AsU32(|before| - Lcs(before, after)) by {
      var _ := CountsUntrimmed(before, after);
    }
    assert Lcs(before, after) == 0;
    AddsNothing(r.added, |after|);
  }

  lemma AddsNothing(added: nat, lines: nat)
    requires lines == U32_RANGE && added == AsU32(lines)
    ensures added == 0
  {
  }
}
