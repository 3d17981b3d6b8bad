/** What the token estimate comes to, in terms of the text alone. */
module Estimates {
  import opened Common
  import opened Tokens

  function CjkWeight(): char -> nat {
    (c: char) => if IsCjk(c) then 1 else 0
  }

  function OtherBytes(): char -> nat {
    (c: char) => if IsCjk(c) then 0 else LenUtf8(c)
  }

  /** The places where punctuation begins. */
  ghost function PunctuationStarts(word: string): set<nat> {
    set i: nat | i < |word| && BeginsPunctuation(word, i)
  }

  predicate BeginsPunctuation(word: string, i: nat)
    requires i < |word|
  {
    IsAsciiPunctuation(word[i]) && (i == 0 || !IsAsciiPunctuation(word[i - 1]))
  }

  /** A quarter of a number, rounded up. */
  function Quarter(n: nat): nat {
    (n + 3) / 4
  }

  lemma StartsPush(word: string, c: char)
    ensures PunctuationStarts(word + [c])
            == PunctuationStarts(word)
               + if IsAsciiPunctuation(c) && (word == "" || !IsAsciiPunctuation(word[|word| - 1])) then {|word|} else {}
  {
    var more := word + [c];
    forall i: nat
      ensures i in PunctuationStarts(more) <==>
              i in PunctuationStarts(word)
              || (i == |word| && IsAsciiPunctuation(c) && (word == "" || !IsAsciiPunctuation(word[|word| - 1])))
    {
      if i < |word| {
        assert more[i] == word[i] && (i > 0 ==> more[i - 1] == word[i - 1]);
      }
    }
  }

  /** What has been counted in a word: its CJK characters, the bytes of the others, and where punctuation begins. */
  lemma {:induction false} TallyMeans(word: string)
    ensures var t := TallyOf(word);
            && t.cjk == SumBy(word, CjkWeight()) && t.bytes == SumBy(word, OtherBytes())
            && t.punctuation == |PunctuationStarts(word)|
            && (t.afterPunctuation <==> word != "" && IsAsciiPunctuation(word[|word| - 1]))
    ensures TallyOf(word).bytes == 0 ==> PunctuationStarts(word) == {}
  {
    if word != "" {
      var init, c := word[..|word| - 1], word[|word| - 1];
      assert word == init + [c];
      TallyMeans(init);
      StartsPush(init, c);
      SumByPush(init, c, CjkWeight());
      SumByPush(init, c, OtherBytes());
    } else {
      assert PunctuationStarts(word) == {};
    }
  }

  /** What a run without whitespace costs past its CJK characters. */
  ghost function RunCost(word: string): nat {
    Quarter(SumBy(word, OtherBytes())) + |PunctuationStarts(word)|
  }

  lemma WordCostMeans(word: string)
    ensures WordCost(word) == SumBy(word, CjkWeight()) + RunCost(word)
  {
    TallyMeans(word);
  }

  /** A stretch of a text, from one position up to another. */
  datatype Run = Run(lo: nat, hi: nat)

  /** A maximal run without whitespace. */
  ghost predicate IsRun(text: string, r: Run) {
    && r.lo < r.hi <= |text| && (forall i | r.lo <= i < r.hi :: !IsWhitespace(text[i]))
    && (r.lo == 0 || IsWhitespace(text[r.lo - 1])) && (r.hi == |text| || IsWhitespace(text[r.hi]))
  }

  /** Every maximal run from a position on, in order. */
  ghost predicate AreRunsFrom(text: string, from: nat, runs: seq<Run>) {
    && (forall r: Run :: r in runs <==> r.lo >= from && IsRun(text, r))
    && (forall i, j | 0 <= i < j < |runs| :: runs[i].hi < runs[j].lo)
  }

  ghost predicate AreRuns(text: string, runs: seq<Run>) {
    AreRunsFrom(text, 0, runs)
  }

  function TextOf(text: string, r: Run): string {
    if r.lo <= r.hi <= |text| then text[r.lo..r.hi] else ""
  }

  function TextsOf(text: string, runs: seq<Run>): seq<string> {
    seq(|runs|, i requires 0 <= i < |runs| => TextOf(text, runs[i]))
  }

  /** Reading on: a run is under way since `start`, with nothing but whitespace or the text's edge before it. */
  ghost predicate Underway(text: string, start: nat, at: nat) {
    && start <= at <= |text| && (start == 0 || IsWhitespace(text[start - 1]))
    && forall i | start <= i < at :: !IsWhitespace(text[i])
  }

  /** Past whitespace at `at`, the runs are the one under way, if any, and those further on. */
  lemma RunCloses(text: string, start: nat, at: nat, rest: seq<Run>)
    requires Underway(text, start, at) && at < |text| && IsWhitespace(text[at]) && AreRunsFrom(text, at + 1, rest)
    ensures AreRunsFrom(text, start, (if start < at then [Run(start, at)] else []) + rest)
  {
    var here := if start < at then [Run(start, at)] else [];
    forall r: Run
      ensures r in here + rest <==> r.lo >= start && IsRun(text, r)
    {
      if r.lo >= start && IsRun(text, r) {
        if r.lo <= at {
          OnlyRunHere(text, start, at, r);
        }
      }
    }
    forall j | 0 <= j < |rest|
      ensures rest[j].lo > at
    {
      assert rest[j] in rest;
    }
  }

  lemma OnlyRunHere(text: string, start: nat, at: nat, r: Run)
    requires Underway(text, start, at) && (at == |text| || IsWhitespace(text[at]))
    requires IsRun(text, r) && start <= r.lo <= at
    ensures r == Run(start, at)
  {
  }

  lemma RunEnds(text: string, start: nat)
    requires Underway(text, start, |text|)
    ensures AreRunsFrom(text, start, if start < |text| then [Run(start, |text|)] else [])
  {
    forall r: Run | r.lo >= start && IsRun(text, r)
      ensures r == Run(start, |text|)
    {
      OnlyRunHere(text, start, |text|, r);
    }
  }

  /** The words read are the texts of the maximal runs, in order. */
  lemma {:induction false} WordsAreRuns(text: string, start: nat, at: nat) returns (runs: seq<Run>)
    requires Underway(text, start, at)
    ensures AreRunsFrom(text, start, runs) && WordsFrom(text[at..], text[start..at]) == TextsOf(text, runs)
    decreases |text| - at
  {
    if at == |text| {
      RunEnds(text, start);
      runs := if start < |text| then [Run(start, |text|)] else [];
    } else {
      assert text[at..] == [text[at]] + text[at + 1..];
      WordsStep(text[at], text[at + 1..], text[start..at]);
      if IsWhitespace(text[at]) {
        var rest := WordsAreRuns(text, at + 1, at + 1);
        RunCloses(text, start, at, rest);
        runs := (if start < at then [Run(start, at)] else []) + rest;
        assert text[at + 1..at + 1] == "";
        TextsPush(text, start, at, rest);
      } else {
        runs := WordsAreRuns(text, start, at + 1);
        assert text[start..at + 1] == text[start..at] + [text[at]];
      }
    }
  }

  lemma TextsPush(text: string, start: nat, at: nat, rest: seq<Run>)
    requires start <= at <= |text|
    ensures TextsOf(text, (if start < at then [Run(start, at)] else []) + rest)
            == (if start < at then [text[start..at]] else []) + TextsOf(text, rest)
  {
  }

  /** Weighing a text's characters is weighing its words', when whitespace weighs nothing. */
  lemma {:induction false} WordsCarry(text: string, word: string, w: char -> nat)
    requires forall c | IsWhitespace(c) :: w(c) == 0
    ensures SumBy(WordsFrom(text, word), (x: string) => SumBy(x, w)) == SumBy(word, w) + SumBy(text, w)
    decreases |text|
  {
    var each := (x: string) => SumBy(x, w);
    if text == "" {
      if word != "" {
        assert SumBy([word], each) == each(word) + SumBy([word][1..], each);
      }
    } else {
      var c, rest := text[0], text[1..];
      assert text == [c] + rest;
      WordsStep(c, rest, word);
      WordsCarry(rest, After(c, word), w);
      SumByAppend(Ended(c, word), WordsFrom(rest, After(c, word)), each);
      SumByPush(word, c, w);
      if Ended(c, word) == [word] {
        assert SumBy([word], each) == each(word) + SumBy([word][1..], each);
      }
    }
  }

  lemma FindRuns(text: string) returns (runs: seq<Run>)
    ensures AreRuns(text, runs) && Words(text) == TextsOf(text, runs)
  {
    runs := WordsAreRuns(text, 0, 0);
    assert text[0..] == text && text[0..0] == "";
  }

  /**
   * What the estimate is: a token for each CJK character of the text, and for each maximal run without whitespace
   * one for every four bytes of its other characters, rounded up, and one for each place in it where ASCII
   * punctuation begins.
   */
  lemma EstimateMeans(text: string, runs: seq<Run>)
    requires AreRuns(text, runs)
    ensures Estimate(text) == SumBy(text, CjkWeight()) + SumBy(TextsOf(text, runs), RunCost)
  {
    var found := FindRuns(text);
    RunsAreUnique(text, 0, runs, found);
    var words := Words(text);
    var cjk := (x: string) => SumBy(x, CjkWeight());
    forall word | word in words
      ensures WordCost(word) == cjk(word) + RunCost(word)
    {
      WordCostMeans(word);
    }
    SumBySplits(words, cjk, RunCost, WordCost);
    WordsCarry(text, "", CjkWeight());
  }

  /** There is only one list of a text's runs. */
  lemma {:induction false} RunsAreUnique(text: string, from: nat, a: seq<Run>, b: seq<Run>)
    requires AreRunsFrom(text, from, a) && AreRunsFrom(text, from, b)
    ensures a == b
    decreases |a|
  {
    if a == [] {
      if b != [] {
        FirstRunIs(text, from, b, a);
      }
    } else {
      FirstRunIs(text, from, a, b);
      FirstRunIs(text, from, b, a);
      WithoutFirst(text, from, a);
      WithoutFirst(text, from, b);
      RunsAreUnique(text, a[0].hi + 1, a[1..], b[1..]);
      assert a == [a[0]] + a[1..] && b == [b[0]] + b[1..];
    }
  }

  lemma FirstRunIs(text: string, from: nat, a: seq<Run>, b: seq<Run>)
    requires AreRunsFrom(text, from, a) && AreRunsFrom(text, from, b) && a != []
    ensures b != [] && b[0].lo <= a[0].lo && (b[0].lo == a[0].lo ==> b[0] == a[0])
  {
    assert a[0] in a;
    var k :| 0 <= k < |b| && b[k] == a[0];
    assert b[0] in b;
  }

  lemma WithoutFirst(text: string, from: nat, runs: seq<Run>)
    requires AreRunsFrom(text, from, runs) && runs != []
    ensures AreRunsFrom(text, runs[0].hi + 1, runs[1..])
  {
    var first, rest := runs[0], runs[1..];
    assert first in runs;
    forall r: Run
      ensures r in rest <==> r.lo >= first.hi + 1 && IsRun(text, r)
    {
      if r in rest {
        var i :| 0 <= i < |rest| && rest[i] == r;
        assert runs[i + 1] == r;
      }
      if r.lo >= first.hi + 1 && IsRun(text, r) {
        assert r in runs;
      }
    }
  }

  /** So a text of nothing but CJK characters costs one token a character, however it is spaced. */
  lemma CjkTextCosts(text: string)
    requires forall c <- text :: IsCjk(c) || IsWhitespace(c)
    ensures Estimate(text) == SumBy(text, CjkWeight())
  {
    var runs := FindRuns(text);
    EstimateMeans(text, runs);
    forall i | 0 <= i < |runs|
      ensures RunCost(TextsOf(text, runs)[i]) == 0
    {
      assert runs[i] in runs;
      CjkRunCosts(text, runs[i]);
    }
    NothingWeighs(TextsOf(text, runs), RunCost);
  }

  lemma CjkRunCosts(text: string, r: Run)
    requires IsRun(text, r) && forall c <- text :: IsCjk(c) || IsWhitespace(c)
    ensures RunCost(TextOf(text, r)) == 0
  {
    var x := TextOf(text, r);
    forall i | 0 <= i < |x|
      ensures IsCjk(x[i])
    {
      assert x[i] == text[r.lo + i] && !IsWhitespace(text[r.lo + i]) && text[r.lo + i] in text;
    }
    AllCjk(x);
  }

  lemma {:induction false} AllCjk(x: string)
    requires forall c <- x :: IsCjk(c)
    ensures RunCost(x) == 0
  {
    NothingWeighs(x, OtherBytes());
    assert PunctuationStarts(x) == {} by {
      forall i: nat | i < |x|
        ensures !IsAsciiPunctuation(x[i])
      {
        assert x[i] in x;
      }
    }
  }
}
