/** Finding secrets and scrubbing them: overlapping matches become one mark, nothing else is lost. */
module Secrets {
  import opened Common
  import opened Text
  import opened Sorting

  /** A half-open stretch of a text, and the name of the pattern that matched there. */
  datatype Span = Span(start: nat, end: nat, pattern: string)

  const REDACTION: string := "[redacted]"

  const PLACEHOLDERS: seq<string> :=
    ["your", "example", "changeme", "redacted", "xxxx", "placeholder", "<", "...", "abcdef0123", "1234567890"]

  function AsciiLower(s: string): string {
    if s == "" then ""
    else [if 'A' <= s[0] <= 'Z' then (s[0] as int + 32) as char else s[0]] + AsciiLower(s[1..])
  }

  /** Whether a match bears one of the marks of a documented sample. */
  predicate IsPlaceholder(matched: string) {
    exists marker <- PLACEHOLDERS :: Contains(AsciiLower(matched), marker)
  }

  /** The patterns, run over a text: what each reports, in pattern order. */
  type Finder = string -> seq<seq<Span>>

  /** What a regular expression that cannot match nothing reports: non-empty ranges of the text. */
  ghost predicate Sane(text: string, spans: seq<Span>) {
    forall s <- spans :: s.start < s.end <= |text|
  }

  ghost predicate SaneFinder(find: Finder) {
    forall text :: forall spans <- find(text) :: Sane(text, spans)
  }

  // ---- Collecting, merging, redacting ----

  function Credentials(text: string, spans: seq<Span>): seq<Span> {
    if spans == [] then []
    else
      var s := spans[|spans| - 1];
      Credentials(text, spans[..|spans| - 1])
      + if s.start <= s.end <= |text| && !IsPlaceholder(text[s.start..s.end]) then [s] else []
  }

  function Found(text: string, reported: seq<seq<Span>>): seq<Span> {
    if reported == [] then []
    else Found(text, reported[..|reported| - 1]) + Credentials(text, reported[|reported| - 1])
  }

  /** By start, the longer of two that start together first. */
  predicate Earlier(a: Span, b: Span) {
    a.start < b.start || (a.start == b.start && a.end >= b.end)
  }

  /** One more span: stretches the last when it begins inside it, stands alone otherwise. */
  function Push(merged: seq<Span>, s: Span): seq<Span> {
    if merged != [] && s.start < merged[|merged| - 1].end then
      var last := merged[|merged| - 1];
      merged[..|merged| - 1] + [Span(last.start, Max(last.end, s.end), last.pattern)]
    else merged + [s]
  }

  function Merge(sorted: seq<Span>): seq<Span> {
    if sorted == [] then [] else Push(Merge(sorted[..|sorted| - 1]), sorted[|sorted| - 1])
  }

  /** Where the secrets of a text lie, overlaps joined. */
  function Spans(text: string, find: Finder): seq<Span> {
    Merge(Sort(Found(text, find(text)), Earlier))
  }

  /** One pattern's matches that are not examples, after those found so far. */
  method AddCredentials(text: string, found: seq<Span>, reported: seq<Span>) returns (out: seq<Span>)
    requires Sane(text, reported)
    ensures out == found + Credentials(text, reported)
  {
    out := found;
    for i := 0 to |reported|
      invariant out == found + Credentials(text, reported[..i])
    {
      var m := reported[i];
      assert m in reported;
      assert reported[..i + 1][..i] == reported[..i];
      if !IsPlaceholder(text[m.start..m.end]) {
        out := out + [m];
      }
    }
    assert reported[..|reported|] == reported;
  }

  method MergeSorted(sorted: seq<Span>) returns (merged: seq<Span>)
    ensures merged == Merge(sorted)
  {
    merged := [];
    for i := 0 to |sorted|
      invariant merged == Merge(sorted[..i])
    {
      assert sorted[..i + 1][..i] == sorted[..i];
      var s := sorted[i];
      if merged != [] && s.start < merged[|merged| - 1].end {
        var last := merged[|merged| - 1];
        merged := merged[|merged| - 1 := Span(last.start, Max(last.end, s.end), last.pattern)];
      } else {
        merged := merged + [s];
      }
    }
    assert sorted[..|sorted|] == sorted;
  }

  method CollectSpans(text: string, find: Finder) returns (merged: seq<Span>)
    requires SaneFinder(find)
    ensures merged == Spans(text, find)
  {
    var reported := find(text);
    var found: seq<Span> := [];
    for p := 0 to |reported|
      invariant found == Found(text, reported[..p])
    {
      assert reported[..p + 1][..p] == reported[..p];
      assert reported[p] in find(text) && Sane(text, reported[p]);
      found := AddCredentials(text, found, reported[p]);
    }
    assert reported[..|reported|] == reported;
    var sorted := InsertionSort(found, Earlier);
    merged := MergeSorted(sorted);
  }

  /** Ordered, disjoint, non-empty spans of the rest of a text. */
  ghost predicate Laid(spans: seq<Span>, at: nat, length: nat) {
    && at <= length
    && (forall s <- spans :: at <= s.start < s.end <= length)
    && (forall i, j | 0 <= i < j < |spans| :: spans[i].end <= spans[j].start)
  }

  function RedactFrom(text: string, at: nat, spans: seq<Span>): string
    requires Laid(spans, at, |text|)
    decreases |spans|
  {
    if spans == [] then text[at..]
    else
      assert spans[0] in spans && forall s <- spans[1..] :: s in spans;
      text[at..spans[0].start] + REDACTION + RedactFrom(text, spans[0].end, spans[1..])
  }

  // ---- What merging means ----

  ghost predicate Covered(spans: seq<Span>, pos: nat) {
    exists s <- spans :: s.start <= pos < s.end
  }

  /** A run of overlapping matches begins here: one starts, and none reaches across. */
  ghost predicate Begins(spans: seq<Span>, pos: nat) {
    (exists s <- spans :: s.start == pos) && !(exists s <- spans :: s.start < pos < s.end)
  }

  ghost predicate NonEmpty(spans: seq<Span>) {
    forall s <- spans :: s.start < s.end
  }

  lemma EarlierIsOrder()
    ensures TotalOrder(Earlier)
  {
  }

  ghost predicate Disjoint(spans: seq<Span>) {
    forall i, j | 0 <= i < j < |spans| :: spans[i].end <= spans[j].start
  }

  ghost predicate Starts(spans: seq<Span>, pos: nat) {
    exists s <- spans :: s.start == pos
  }

  /** A merge accounts for its input: nothing past its last end, nothing starting after `bound`. */
  ghost predicate Means(sorted: seq<Span>, merged: seq<Span>) {
    && NonEmpty(merged) && Disjoint(merged)
    && (sorted == [] <==> merged == [])
    && (forall pos: nat :: Covered(merged, pos) <==> Covered(sorted, pos))
    && (forall pos: nat :: Starts(merged, pos) <==> Begins(sorted, pos))
    && (forall s <- sorted :: s.end <= merged[|merged| - 1].end)
  }

  lemma CoveredAppend(a: seq<Span>, s: Span, pos: nat)
    ensures Covered(a + [s], pos) <==> Covered(a, pos) || s.start <= pos < s.end
    ensures Starts(a + [s], pos) <==> Starts(a, pos) || s.start == pos
  {
    if Covered(a, pos) {
      var t :| t in a && t.start <= pos < t.end;
      assert t in a + [s];
    }
    if Starts(a, pos) {
      var t :| t in a && t.start == pos;
      assert t in a + [s];
    }
    assert s in a + [s];
  }

  ghost predicate Across(spans: seq<Span>, pos: nat) {
    exists s <- spans :: s.start < pos < s.end
  }

  lemma AcrossAppend(a: seq<Span>, s: Span, pos: nat)
    ensures Across(a + [s], pos) <==> Across(a, pos) || s.start < pos < s.end
  {
    if Across(a, pos) {
      var t :| t in a && t.start < pos < t.end;
      assert t in a + [s];
    }
    assert s in a + [s];
  }

  /** Pushing keeps what is covered, whether the span stands alone or stretches the last one. */
  lemma PushCovers(init: seq<Span>, s: Span, merged: seq<Span>, pos: nat)
    requires Means(init, merged) && s.start < s.end
    requires forall t <- init :: t.start <= s.start
    ensures Covered(Push(merged, s), pos) <==> Covered(init + [s], pos)
  {
    CoveredAppend(init, s, pos);
    CoveredAppend(merged, s, pos);
    if merged != [] && s.start < merged[|merged| - 1].end {
      var front, last := merged[..|merged| - 1], merged[|merged| - 1];
      assert merged == front + [last];
      LastStartsEarly(init, s, merged);
      CoveredAppend(front, last, pos);
      CoveredAppend(front, Span(last.start, Max(last.end, s.end), last.pattern), pos);
    }
  }

  lemma LastStartsEarly(init: seq<Span>, s: Span, merged: seq<Span>)
    requires Means(init, merged) && merged != []
    requires forall t <- init :: t.start <= s.start
    ensures merged[|merged| - 1].start <= s.start
  {
    var last := merged[|merged| - 1];
    assert last in merged;
    assert Starts(merged, last.start);
    assert Begins(init, last.start);
  }

  /** Pushing keeps where runs begin. */
  lemma PushBegins(init: seq<Span>, s: Span, merged: seq<Span>, pos: nat)
    requires Means(init, merged) && s.start < s.end
    requires forall t <- init :: t.start <= s.start
    ensures Starts(Push(merged, s), pos) <==> Begins(init + [s], pos)
  {
    CoveredAppend(init, s, pos);
    AcrossAppend(init, s, pos);
    CoveredAppend(merged, s, pos);
    assert Begins(init + [s], pos) <==> Starts(init + [s], pos) && !Across(init + [s], pos);
    assert Begins(init, pos) <==> Starts(init, pos) && !Across(init, pos);
    assert pos > s.start ==> !Starts(init, pos);
    if merged != [] && s.start < merged[|merged| - 1].end {
      var front, last := merged[..|merged| - 1], merged[|merged| - 1];
      assert merged == front + [last];
      LastStartsEarly(init, s, merged);
      CoveredAppend(front, last, pos);
      CoveredAppend(front, Span(last.start, Max(last.end, s.end), last.pattern), pos);
      if pos == s.start && last.start < pos {
        assert last in merged && Covered(merged, pos);
        forall i | 0 <= i < |merged|
          ensures merged[i].start != pos
        {
          assert i < |merged| - 1 ==> merged[i].end <= last.start;
        }
      }
    } else {
      assert !Across(init, s.start);
    }
  }

  lemma PushMeans(init: seq<Span>, s: Span, merged: seq<Span>)
    requires Means(init, merged) && s.start < s.end
    requires forall t <- init :: t.start <= s.start
    ensures Means(init + [s], Push(merged, s))
  {
    forall pos: nat
      ensures Covered(Push(merged, s), pos) <==> Covered(init + [s], pos)
      ensures Starts(Push(merged, s), pos) <==> Begins(init + [s], pos)
    {
      PushCovers(init, s, merged, pos);
      PushBegins(init, s, merged, pos);
    }
    PushKeepsOrder(init, s, merged);
  }

  lemma PushKeepsOrder(init: seq<Span>, s: Span, merged: seq<Span>)
    requires Means(init, merged) && s.start < s.end
    requires forall t <- init :: t.start <= s.start
    ensures NonEmpty(Push(merged, s)) && Disjoint(Push(merged, s))
    ensures var m := Push(merged, s); m != [] && forall t <- init + [s] :: t.end <= m[|m| - 1].end
  {
    if merged != [] {
      LastStartsEarly(init, s, merged);
      assert merged[|merged| - 1] in merged;
    }
    forall t | t in Push(merged, s)
      ensures t.start < t.end
    {
      assert t in merged || t == s || t == Push(merged, s)[|merged| - 1];
    }
  }

  /** Merged spans are in order, disjoint, cover exactly what was matched, and begin where runs begin. */
  lemma {:induction false} MergeMeans(sorted: seq<Span>)
    requires IsSorted(sorted, Earlier) && NonEmpty(sorted)
    ensures Means(sorted, Merge(sorted))
  {
    if sorted != [] {
      var init, last := sorted[..|sorted| - 1], sorted[|sorted| - 1];
      assert sorted == init + [last];
      assert forall s <- init :: s in sorted;
      assert last in sorted;
      MergeMeans(init);
      PushMeans(init, last, Merge(init));
    }
  }

  /** A merged span bears the name of a pattern that matched where it starts. */
  lemma {:induction false} MergedPatternsMatched(sorted: seq<Span>)
    ensures forall m <- Merge(sorted) :: exists s <- sorted :: s.start == m.start && s.pattern == m.pattern
  {
    if sorted != [] {
      var init, last := sorted[..|sorted| - 1], sorted[|sorted| - 1];
      assert sorted == init + [last];
      MergedPatternsMatched(init);
      forall m | m in Merge(sorted)
        ensures exists s <- sorted :: s.start == m.start && s.pattern == m.pattern
      {
        PushedFrom(Merge(init), last, m);
        if m.start != last.start || m.pattern != last.pattern {
          var before :| before in Merge(init) && before.start == m.start && before.pattern == m.pattern;
          var s :| s in init && s.start == before.start && s.pattern == before.pattern;
          assert s in sorted;
        }
      }
    }
  }

  lemma PushedFrom(merged: seq<Span>, s: Span, m: Span)
    requires m in Push(merged, s)
    ensures (m.start == s.start && m.pattern == s.pattern)
            || exists before <- merged :: before.start == m.start && before.pattern == m.pattern
  {
    if m !in merged && m != s {
      var last := merged[|merged| - 1];
      assert last in merged && m == Span(last.start, Max(last.end, s.end), last.pattern);
    }
  }

  // ---- The secrets of a text ----

  /** What any pattern reported of a text that is not an example. */
  ghost predicate IsSecret(text: string, find: Finder, s: Span) {
    && s.start <= s.end <= |text| && !IsPlaceholder(text[s.start..s.end])
    && exists spans <- find(text) :: s in spans
  }

  lemma {:induction false} CredentialsHave(text: string, spans: seq<Span>, s: Span)
    ensures s in Credentials(text, spans) <==> s in spans && s.start <= s.end <= |text| && !IsPlaceholder(text[s.start..s.end])
  {
    if spans != [] {
      CredentialsHave(text, spans[..|spans| - 1], s);
      assert spans == spans[..|spans| - 1] + [spans[|spans| - 1]];
    }
  }

  lemma {:induction false} FoundHas(text: string, reported: seq<seq<Span>>, s: Span)
    ensures s in Found(text, reported)
            <==> (exists spans <- reported :: s in spans) && s.start <= s.end <= |text| && !IsPlaceholder(text[s.start..s.end])
  {
    if reported != [] {
      var init, last := reported[..|reported| - 1], reported[|reported| - 1];
      assert reported == init + [last];
      FoundHas(text, init, s);
      CredentialsHave(text, last, s);
    }
  }

  /** What is collected over all patterns is every secret, and nothing else. */
  lemma FoundIsSecrets(text: string, find: Finder)
    ensures forall s: Span :: s in Found(text, find(text)) <==> IsSecret(text, find, s)
  {
    forall s: Span
      ensures s in Found(text, find(text)) <==> IsSecret(text, find, s)
    {
      FoundHas(text, find(text), s);
    }
  }

  lemma FoundIsSane(text: string, find: Finder)
    requires SaneFinder(find)
    ensures Sane(text, Found(text, find(text)))
  {
    FoundIsSecrets(text, find);
    forall s | s in Found(text, find(text))
      ensures s.start < s.end <= |text|
    {
      var spans :| spans in find(text) && s in spans;
      assert Sane(text, spans);
    }
  }

  /** Inside a secret. */
  ghost predicate InSecret(text: string, find: Finder, pos: nat) {
    exists s: Span :: IsSecret(text, find, s) && s.start <= pos < s.end
  }

  /** Where a run of overlapping secrets begins: one starts here, and none reaches across. */
  ghost predicate BeginsSecret(text: string, find: Finder, pos: nat) {
    && (exists s: Span :: IsSecret(text, find, s) && s.start == pos)
    && !(exists s: Span :: IsSecret(text, find, s) && s.start < pos < s.end)
  }

  lemma FoundCovers(text: string, find: Finder, pos: nat)
    ensures Covered(Found(text, find(text)), pos) <==> InSecret(text, find, pos)
    ensures Begins(Found(text, find(text)), pos) <==> BeginsSecret(text, find, pos)
  {
    FoundIsSecrets(text, find);
  }

  /** The merged spans of a text, in terms of what the patterns reported of it. */
  lemma SpansMean(text: string, find: Finder)
    requires SaneFinder(find)
    ensures var spans := Spans(text, find);
            && Laid(spans, 0, |text|)
            && (forall pos: nat :: Covered(spans, pos) <==> InSecret(text, find, pos))
            && (forall pos: nat :: Starts(spans, pos) <==> BeginsSecret(text, find, pos))
  {
    SpansMeanFound(text, find);
    forall pos: nat
      ensures Covered(Found(text, find(text)), pos) <==> InSecret(text, find, pos)
      ensures Begins(Found(text, find(text)), pos) <==> BeginsSecret(text, find, pos)
    {
      FoundCovers(text, find, pos);
    }
  }

  /** Each merged span bears the name of a pattern that reported a secret starting there. */
  lemma SpansAreNamed(text: string, find: Finder, m: Span)
    requires m in Spans(text, find)
    ensures exists s: Span :: IsSecret(text, find, s) && s.start == m.start && s.pattern == m.pattern
  {
    var found := Found(text, find(text));
    MergedPatternsMatched(Sort(found, Earlier));
    EarlierIsOrder();
    SortIsOrderedPermutation(found, Earlier);
    var s :| s in Sort(found, Earlier) && s.start == m.start && s.pattern == m.pattern;
    assert s in multiset(Sort(found, Earlier));
    FoundIsSecrets(text, find);
  }

  lemma SpansMeanFound(text: string, find: Finder)
    requires SaneFinder(find)
    ensures var found, spans := Found(text, find(text)), Spans(text, find);
            && Laid(spans, 0, |text|)
            && (forall pos: nat :: Covered(spans, pos) <==> Covered(found, pos))
            && (forall pos: nat :: Starts(spans, pos) <==> Begins(found, pos))
  {
    var found := Found(text, find(text));
    var sorted := Sort(found, Earlier);
    FoundIsSane(text, find);
    EarlierIsOrder();
    SortIsOrderedPermutation(found, Earlier);
    MergeMeans(sorted);
    forall pos: nat
      ensures Covered(sorted, pos) <==> Covered(found, pos)
      ensures Begins(sorted, pos) <==> Begins(found, pos)
    {
    }
    var spans := Merge(sorted);
    forall s | s in spans
      ensures s.end <= |text|
    {
      assert s.start < s.end;
      assert Covered(spans, s.end - 1);
      assert Covered(found, s.end - 1);
    }
  }

  // ---- What redacting means ----

  /** Character by character: a mark where a run of matches begins, nothing inside one, the character elsewhere. */
  ghost function Scrubbed(text: string, pos: nat, found: seq<Span>): string
    requires pos <= |text|
    decreases |text| - pos
  {
    if pos == |text| then ""
    else
      (if Begins(found, pos) then REDACTION else if Covered(found, pos) then "" else [text[pos]])
      + Scrubbed(text, pos + 1, found)
  }

  lemma {:induction false} SkipCovered(text: string, pos: nat, end: nat, found: seq<Span>)
    requires pos <= end <= |text|
    requires forall p | pos <= p < end :: Covered(found, p) && !Begins(found, p)
    ensures Scrubbed(text, pos, found) == Scrubbed(text, end, found)
    decreases end - pos
  {
    if pos < end {
      assert Covered(found, pos) && !Begins(found, pos);
      SkipCovered(text, pos + 1, end, found);
    }
  }

  lemma {:induction false} CopyUncovered(text: string, pos: nat, end: nat, found: seq<Span>)
    requires pos <= end <= |text|
    requires forall p | pos <= p < end :: !Covered(found, p) && !Begins(found, p)
    ensures Scrubbed(text, pos, found) == text[pos..end] + Scrubbed(text, end, found)
    decreases end - pos
  {
    if pos < end {
      assert !Covered(found, pos) && !Begins(found, pos);
      CopyUncovered(text, pos + 1, end, found);
      var rest := Scrubbed(text, end, found);
      assert text[pos..end] == [text[pos]] + text[pos + 1..end];
      assert [text[pos]] + (text[pos + 1..end] + rest) == text[pos..end] + rest;
    }
  }

  /** Merged spans and raw matches tell the same story about a stretch of text. */
  ghost predicate Agree(spans: seq<Span>, found: seq<Span>, from: nat, to: nat) {
    forall pos: nat | from <= pos < to ::
      Covered(spans, pos) == Covered(found, pos) && Starts(spans, pos) == Begins(found, pos)
  }

  lemma HeadAgrees(spans: seq<Span>, found: seq<Span>, at: nat, length: nat)
    requires Laid(spans, at, length) && spans != [] && Agree(spans, found, at, length)
    ensures at <= spans[0].start < spans[0].end <= length && Laid(spans[1..], spans[0].end, length)
    ensures forall p: nat | at <= p < spans[0].start :: !Covered(found, p) && !Begins(found, p)
    ensures Begins(found, spans[0].start)
    ensures forall p: nat | spans[0].start < p < spans[0].end :: Covered(found, p) && !Begins(found, p)
    ensures Agree(spans[1..], found, spans[0].end, length)
  {
    assert spans[0] in spans;
    assert Starts(spans, spans[0].start);
    HeadSpan(spans, at, length, 0);
    forall p: nat | at <= p < length
      ensures p < spans[0].start ==> !Covered(found, p) && !Begins(found, p)
      ensures spans[0].start < p < spans[0].end ==> Covered(found, p) && !Begins(found, p)
      ensures spans[0].end <= p ==> Covered(spans[1..], p) == Covered(found, p) && Starts(spans[1..], p) == Begins(found, p)
    {
      HeadSpan(spans, at, length, p);
      assert Covered(spans, p) == Covered(found, p) && Starts(spans, p) == Begins(found, p);
    }
  }

  lemma {:induction false} RedactFromIsScrubbed(text: string, at: nat, spans: seq<Span>, found: seq<Span>)
    requires Laid(spans, at, |text|) && Agree(spans, found, at, |text|)
    ensures RedactFrom(text, at, spans) == Scrubbed(text, at, found)
    decreases |spans|
  {
    if spans == [] {
      forall p: nat | at <= p < |text|
        ensures !Covered(found, p) && !Begins(found, p)
      {
        assert !Covered(spans, p) && !Starts(spans, p);
      }
      CopyUncovered(text, at, |text|, found);
    } else {
      HeadScrubs(text, at, spans, found);
      RedactFromIsScrubbed(text, spans[0].end, spans[1..], found);
    }
  }

  /** One mark for a run of matches, then on past it. */
  lemma MarkRun(text: string, s: Span, found: seq<Span>)
    requires s.start < s.end <= |text| && Begins(found, s.start)
    requires forall p: nat | s.start < p < s.end :: Covered(found, p) && !Begins(found, p)
    ensures Scrubbed(text, s.start, found) == REDACTION + Scrubbed(text, s.end, found)
  {
    MarkStarts(text, s.start, found);
    SkipCovered(text, s.start + 1, s.end, found);
  }

  lemma MarkStarts(text: string, pos: nat, found: seq<Span>)
    requires pos < |text| && Begins(found, pos)
    ensures Scrubbed(text, pos, found) == REDACTION + Scrubbed(text, pos + 1, found)
  {
  }

  lemma HeadScrubs(text: string, at: nat, spans: seq<Span>, found: seq<Span>)
    requires Laid(spans, at, |text|) && Agree(spans, found, at, |text|) && spans != []
    ensures at <= spans[0].start < spans[0].end <= |text| && Laid(spans[1..], spans[0].end, |text|)
    ensures Agree(spans[1..], found, spans[0].end, |text|)
    ensures Scrubbed(text, at, found) == text[at..spans[0].start] + REDACTION + Scrubbed(text, spans[0].end, found)
  {
    var s := spans[0];
    HeadAgrees(spans, found, at, |text|);
    CopyUncovered(text, at, s.start, found);
    MarkRun(text, s, found);
  }

  /** Where a position stands relative to the first of several laid-out spans. */
  lemma HeadSpan(spans: seq<Span>, at: nat, length: nat, pos: nat)
    requires Laid(spans, at, length) && spans != []
    ensures pos < spans[0].start ==> !Covered(spans, pos) && !Starts(spans, pos)
    ensures spans[0].start < pos < spans[0].end ==> Covered(spans, pos) && !Starts(spans, pos)
    ensures spans[0].end <= pos ==>
              Covered(spans, pos) == Covered(spans[1..], pos) && Starts(spans, pos) == Starts(spans[1..], pos)
    ensures Laid(spans[1..], spans[0].end, length)
  {
    var s, rest := spans[0], spans[1..];
    assert spans == [s] + rest;
    forall t | t in rest
      ensures t in spans && s.end <= t.start
    {
      var i :| 0 <= i < |rest| && rest[i] == t;
      assert spans[i + 1] == t;
    }
    assert s in spans;
  }

  /** The text with a mark in place of each span. */
  function Redact(text: string, find: Finder): string
    requires SaneFinder(find)
  {
    SpansMean(text, find);
    RedactFrom(text, 0, Spans(text, find))
  }

  /** Every character outside a secret, in order, and one mark where a run of secrets begins. */
  ghost function WithoutSecrets(text: string, find: Finder, pos: nat): string
    requires pos <= |text|
    decreases |text| - pos
  {
    if pos == |text| then ""
    else
      (if BeginsSecret(text, find, pos) then REDACTION else if InSecret(text, find, pos) then "" else [text[pos]])
      + WithoutSecrets(text, find, pos + 1)
  }

  lemma {:induction false} ScrubbedIs(text: string, find: Finder, pos: nat)
    requires pos <= |text|
    ensures Scrubbed(text, pos, Found(text, find(text))) == WithoutSecrets(text, find, pos)
    decreases |text| - pos
  {
    if pos < |text| {
      FoundCovers(text, find, pos);
      ScrubbedIs(text, find, pos + 1);
    }
  }

  /** The scrubber's output, in terms of what the patterns reported. */
  lemma RedactIsScrubbed(text: string, find: Finder)
    requires SaneFinder(find)
    ensures Redact(text, find) == WithoutSecrets(text, find, 0)
  {
    SpansMeanFound(text, find);
    RedactFromIsScrubbed(text, 0, Spans(text, find), Found(text, find(text)));
    ScrubbedIs(text, find, 0);
  }

  // ---- Examples ----

  /** The same character, capital or not. */
  predicate SameLetter(a: char, b: char) {
    || a == b
    || ('A' <= a <= 'Z' && 'a' <= b <= 'z' && b as int - a as int == 32)
    || ('a' <= a <= 'z' && 'A' <= b <= 'Z' && a as int - b as int == 32)
  }

  predicate SameLetters(a: string, b: string) {
    |a| == |b| && forall i | 0 <= i < |a| :: SameLetter(a[i], b[i])
  }

  lemma {:induction false} LowerIsSame(s: string)
    ensures SameLetters(s, AsciiLower(s)) && forall i | 0 <= i < |AsciiLower(s)| :: !('A' <= AsciiLower(s)[i] <= 'Z')
  {
    if s != "" {
      LowerIsSame(s[1..]);
    }
  }

  /** A match is an example exactly when a mark of one stands in it, whatever the case of its letters. */
  lemma PlaceholderIff(s: string)
    ensures IsPlaceholder(s) <==> exists lower :: SameLetters(s, lower) && HasMark(lower)
  {
    LowerIsSame(s);
    if IsPlaceholder(s) {
      assert SameLetters(s, AsciiLower(s)) && HasMark(AsciiLower(s));
    }
    if lower :| SameLetters(s, lower) && HasMark(lower) {
      var marker: string :| marker in PLACEHOLDERS && Contains(lower, marker);
      MarksAreLower();
      LowerHasMark(s, lower, marker);
    }
  }

  ghost predicate HasMark(s: string) {
    exists marker <- PLACEHOLDERS :: Contains(s, marker)
  }

  ghost predicate HasNoCapital(s: string) {
    forall i | 0 <= i < |s| :: !('A' <= s[i] <= 'Z')
  }

  lemma MarksAreLower()
    ensures forall marker <- PLACEHOLDERS :: HasNoCapital(marker)
  {
  }

  lemma LowerHasMark(s: string, lower: string, marker: string)
    requires SameLetters(s, lower) && Contains(lower, marker) && HasNoCapital(marker)
    ensures Contains(AsciiLower(s), marker)
  {
    LowerIsSame(s);
    var all := AsciiLower(s);
    var i :| 0 <= i <= |lower| - |marker| && At(lower, marker, i);
    forall k | 0 <= k < |marker|
      ensures all[i + k] == marker[k]
    {
      assert lower[i..i + |marker|][k] == lower[i + k];
    }
    assert all[i..i + |marker|] == marker;
    assert At(all, marker, i);
  }

  /** The scrubber as it runs: a cursor over the text, a buffer, one mark a span. */
  method RedactText(text: string, find: Finder) returns (out: string)
    requires SaneFinder(find)
    ensures out == Redact(text, find)
  {
    SpansMean(text, find);
    var spans := CollectSpans(text, find);
    out := "";
    var at: nat := 0;
    assert spans[0..] == spans;
    for i := 0 to |spans|
      invariant Laid(spans[i..], at, |text|)
      invariant out + RedactFrom(text, at, spans[i..]) == RedactFrom(text, 0, spans)
    {
      var s := spans[i];
      assert spans[i..][0] == s && spans[i..][1..] == spans[i + 1..];
      NextSpan(text, out, at, spans[i..]);
      out := out + text[at..s.start];
      out := out + REDACTION;
      at := s.end;
    }
    out := out + text[at..];
  }

  lemma NextSpan(text: string, out: string, at: nat, spans: seq<Span>)
    requires Laid(spans, at, |text|) && spans != []
    ensures at <= spans[0].start < spans[0].end <= |text| && Laid(spans[1..], spans[0].end, |text|)
    ensures out + RedactFrom(text, at, spans)
            == out + text[at..spans[0].start] + REDACTION + RedactFrom(text, spans[0].end, spans[1..])
  {
    assert spans[0] in spans;
    HeadSpan(spans, at, |text|, 0);
  }

  // ---- Scrubbing a JSON value ----

  /** An object's fields are listed in the map's order, which is that of their keys. */
  datatype Json = Null | Bool(b: bool) | Number(n: int) | Str(s: string) | Arr(items: seq<Json>) | Obj(fields: seq<Field>)

  datatype Field = Field(key: string, value: Json)

  /** Insertion into an ordered map: a key already there takes the new value, a new one goes where it sorts. */
  function Put(fields: seq<Field>, key: string, value: Json): seq<Field> {
    if fields == [] then [Field(key, value)]
    else if fields[0].key == key then [Field(key, value)] + fields[1..]
    else if LexLeq(key, fields[0].key) then [Field(key, value)] + fields
    else [fields[0]] + Put(fields[1..], key, value)
  }

  /** Every string in a value, keys as well, through `f`, at any depth. */
  function RedactValue(v: Json, f: string -> string): Json
    decreases v
  {
    match v
    case Str(s) => Str(f(s))
    case Arr(items) => Arr(RedactItems(items, f))
    case Obj(fields) => Obj(RedactFields(fields, f))
    case _ => v
  }

  function RedactItems(items: seq<Json>, f: string -> string): seq<Json>
    decreases items
  {
    if items == [] then []
    else RedactItems(items[..|items| - 1], f) + [RedactValue(items[|items| - 1], f)]
  }

  function RedactFields(fields: seq<Field>, f: string -> string): seq<Field>
    decreases fields
  {
    if fields == [] then []
    else
      var last := fields[|fields| - 1];
      Put(RedactFields(fields[..|fields| - 1], f), f(last.key), RedactValue(last.value, f))
  }

  /** Every string in a value, keys included, at any depth. */
  ghost function Strings(v: Json): set<string>
    decreases v
  {
    match v
    case Str(s) => {s}
    case Arr(items) => ItemStrings(items)
    case Obj(fields) => FieldStrings(fields)
    case _ => {}
  }

  ghost function ItemStrings(items: seq<Json>): set<string>
    decreases items
  {
    if items == [] then {} else ItemStrings(items[..|items| - 1]) + Strings(items[|items| - 1])
  }

  ghost function FieldStrings(fields: seq<Field>): set<string>
    decreases fields
  {
    if fields == [] then {}
    else
      var last := fields[|fields| - 1];
      FieldStrings(fields[..|fields| - 1]) + {last.key} + Strings(last.value)
  }

  ghost function Image(f: string -> string, strings: set<string>): set<string> {
    set s <- strings :: f(s)
  }

  /** No two keys of one object become the same key. */
  ghost predicate KeysStayApart(v: Json, f: string -> string)
    decreases v
  {
    match v
    case Arr(items) => forall item <- items :: KeysStayApart(item, f)
    case Obj(fields) =>
      Apart(fields, f) && (forall field <- fields :: KeysStayApart(field.value, f))
    case _ => true
  }

  lemma {:induction false} PutStrings(fields: seq<Field>, key: string, value: Json)
    ensures FieldStrings(Put(fields, key, value)) <= FieldStrings(fields) + {key} + Strings(value)
  {
    var put := Field(key, value);
    if fields == [] {
      FieldStringsHead(put, []);
    } else {
      var first, rest := fields[0], fields[1..];
      assert fields == [first] + rest;
      FieldStringsHead(first, rest);
      if first.key == key {
        FieldStringsHead(put, rest);
      } else if LexLeq(key, first.key) {
        FieldStringsHead(put, fields);
      } else {
        PutStrings(rest, key, value);
        FieldStringsHead(first, Put(rest, key, value));
      }
    }
  }

  lemma {:induction false} FieldStringsHead(first: Field, rest: seq<Field>)
    ensures FieldStrings([first] + rest) == {first.key} + Strings(first.value) + FieldStrings(rest)
  {
    var all := [first] + rest;
    if rest == [] {
      assert all[..0] == [];
    } else {
      assert all[..|all| - 1] == [first] + rest[..|rest| - 1];
      FieldStringsHead(first, rest[..|rest| - 1]);
    }
  }

  /** Nothing unredacted gets through: every string of the result, keys included, is `f` of one that went in. */
  lemma {:induction false} RedactValueScrubs(v: Json, f: string -> string)
    ensures Strings(RedactValue(v, f)) <= Image(f, Strings(v))
    decreases v
  {
    match v
    case Str(s) =>
    case Arr(items) => RedactItemsScrub(items, f);
    case Obj(fields) => RedactFieldsScrub(fields, f);
    case _ =>
  }

  lemma {:induction false} RedactItemsScrub(items: seq<Json>, f: string -> string)
    ensures ItemStrings(RedactItems(items, f)) <= Image(f, ItemStrings(items))
    decreases items
  {
    if items != [] {
      RedactItemsScrub(items[..|items| - 1], f);
      RedactValueScrubs(items[|items| - 1], f);
    }
  }

  lemma {:induction false} RedactFieldsScrub(fields: seq<Field>, f: string -> string)
    ensures FieldStrings(RedactFields(fields, f)) <= Image(f, FieldStrings(fields))
    decreases fields
  {
    if fields != [] {
      var last := fields[|fields| - 1];
      assert last.value < last;
      RedactFieldsScrub(fields[..|fields| - 1], f);
      RedactValueScrubs(last.value, f);
      PutStrings(RedactFields(fields[..|fields| - 1], f), f(last.key), RedactValue(last.value, f));
    }
  }

  // ---- The order of an object's keys ----

  predicate Before(a: string, b: string) {
    a != b && LexLeq(a, b)
  }

  lemma BeforeTransitive(a: string, b: string, c: string)
    requires Before(a, b) && Before(b, c)
    ensures Before(a, c)
  {
    LexTransitive(a, b, c);
    LexTotal(a, b);
  }

  /** What an ordered map lists: keys strictly ascending. */
  ghost predicate Ascending(fields: seq<Field>) {
    forall i, j | 0 <= i < j < |fields| :: Before(fields[i].key, fields[j].key)
  }

  ghost predicate IsBeforeAll(key: string, fields: seq<Field>) {
    forall field <- fields :: Before(key, field.key)
  }

  lemma AscendingHead(first: Field, rest: seq<Field>)
    ensures Ascending([first] + rest) <==> Ascending(rest) && IsBeforeAll(first.key, rest)
  {
    var all := [first] + rest;
    if Ascending(all) {
      forall i, j | 0 <= i < j < |rest|
        ensures Before(rest[i].key, rest[j].key)
      {
        assert Before(all[i + 1].key, all[j + 1].key);
      }
      forall field | field in rest
        ensures Before(first.key, field.key)
      {
        var i :| 0 <= i < |rest| && rest[i] == field;
        assert Before(all[0].key, all[i + 1].key);
      }
    }
  }

  lemma BeforeFirst(key: string, first: Field, rest: seq<Field>)
    requires Before(key, first.key) && IsBeforeAll(first.key, rest)
    ensures IsBeforeAll(key, rest)
  {
    forall field | field in rest
      ensures Before(key, field.key)
    {
      BeforeTransitive(key, first.key, field.key);
    }
  }

  lemma {:induction false} PutHas(fields: seq<Field>, key: string, value: Json)
    ensures forall field <- Put(fields, key, value) :: field in fields || field == Field(key, value)
  {
    if fields != [] {
      PutHas(fields[1..], key, value);
    }
  }

  /** Insertion keeps an object's keys ascending. */
  lemma {:induction false} PutAscends(fields: seq<Field>, key: string, value: Json)
    requires Ascending(fields)
    ensures Ascending(Put(fields, key, value))
  {
    var put := Field(key, value);
    if fields != [] {
      var first, rest := fields[0], fields[1..];
      assert fields == [first] + rest;
      AscendingHead(first, rest);
      if first.key == key {
        AscendingHead(put, rest);
      } else if LexLeq(key, first.key) {
        BeforeFirst(key, first, rest);
        AscendingHead(put, fields);
      } else {
        LexTotal(key, first.key);
        PutAscends(rest, key, value);
        PutHas(rest, key, value);
        AscendingHead(first, Put(rest, key, value));
      }
    }
  }

  lemma {:induction false} RedactedAscends(fields: seq<Field>, f: string -> string)
    ensures Ascending(RedactFields(fields, f))
  {
    if fields != [] {
      var init, last := fields[..|fields| - 1], fields[|fields| - 1];
      RedactedAscends(init, f);
      PutAscends(RedactFields(init, f), f(last.key), RedactValue(last.value, f));
    }
  }

  /** Every object in a value lists its keys in order. */
  ghost predicate InKeyOrder(v: Json)
    decreases v
  {
    match v
    case Arr(items) => forall item <- items :: InKeyOrder(item)
    case Obj(fields) => Ascending(fields) && (forall field <- fields :: InKeyOrder(field.value))
    case _ => true
  }

  /** Whatever went in, a redacted value is one the map could hold. */
  lemma {:induction false} RedactedIsInOrder(v: Json, f: string -> string)
    ensures InKeyOrder(RedactValue(v, f))
    decreases v
  {
    match v
    case Arr(items) => RedactedItemsInOrder(items, f);
    case Obj(fields) =>
      RedactedAscends(fields, f);
      RedactedFieldsInOrder(fields, f);
    case _ =>
  }

  lemma {:induction false} RedactedItemsInOrder(items: seq<Json>, f: string -> string)
    ensures forall item <- RedactItems(items, f) :: InKeyOrder(item)
    decreases items
  {
    if items != [] {
      RedactedItemsInOrder(items[..|items| - 1], f);
      RedactedIsInOrder(items[|items| - 1], f);
    }
  }

  lemma {:induction false} RedactedFieldsInOrder(fields: seq<Field>, f: string -> string)
    ensures forall field <- RedactFields(fields, f) :: InKeyOrder(field.value)
    decreases fields
  {
    if fields != [] {
      var init, last := fields[..|fields| - 1], fields[|fields| - 1];
      assert last.value < last;
      RedactedFieldsInOrder(init, f);
      RedactedIsInOrder(last.value, f);
      PutHas(RedactFields(init, f), f(last.key), RedactValue(last.value, f));
    }
  }

  /** A value without a string to redact is left exactly as it was, exactly when its objects are in key order. */
  lemma {:induction false} NothingToRedact(v: Json, f: string -> string)
    requires forall s <- Strings(v) :: f(s) == s
    ensures RedactValue(v, f) == v <==> InKeyOrder(v)
    decreases v
  {
    if InKeyOrder(v) {
      KeepsClean(v, f);
    } else {
      RedactedIsInOrder(v, f);
    }
  }

  lemma {:induction false} KeepsClean(v: Json, f: string -> string)
    requires InKeyOrder(v) && forall s <- Strings(v) :: f(s) == s
    ensures RedactValue(v, f) == v
    decreases v
  {
    match v
    case Arr(items) => KeepsItems(items, f);
    case Obj(fields) => KeepsFields(fields, f);
    case _ =>
  }

  lemma {:induction false} KeepsItems(items: seq<Json>, f: string -> string)
    requires (forall item <- items :: InKeyOrder(item)) && forall s <- ItemStrings(items) :: f(s) == s
    ensures RedactItems(items, f) == items
    decreases items
  {
    if items != [] {
      KeepsItems(items[..|items| - 1], f);
      KeepsClean(items[|items| - 1], f);
    }
  }

  lemma {:induction false} KeepsFields(fields: seq<Field>, f: string -> string)
    requires Ascending(fields) && (forall field <- fields :: InKeyOrder(field.value))
    requires forall s <- FieldStrings(fields) :: f(s) == s
    ensures RedactFields(fields, f) == fields
    decreases fields
  {
    if fields != [] {
      var init, last := fields[..|fields| - 1], fields[|fields| - 1];
      assert last.value < last;
      WithoutLast(fields);
      KeepsFields(init, f);
      KeepsClean(last.value, f);
      PutLast(init, last.key, last.value);
    }
  }

  lemma WithoutLast(fields: seq<Field>)
    requires fields != [] && Ascending(fields)
    ensures var init, last := fields[..|fields| - 1], fields[|fields| - 1];
            && fields == init + [last] && Ascending(init)
            && (forall i | 0 <= i < |init| :: Before(init[i].key, last.key))
            && (forall field <- init :: field in fields)
  {
  }

  lemma {:induction false} PutLast(fields: seq<Field>, key: string, value: Json)
    requires forall i | 0 <= i < |fields| :: Before(fields[i].key, key)
    ensures Put(fields, key, value) == fields + [Field(key, value)]
  {
    if fields != [] {
      LexTotal(fields[0].key, key);
      PutLast(fields[1..], key, value);
      assert fields == [fields[0]] + fields[1..];
    }
  }

  // ---- When nothing is lost ----

  ghost predicate Apart(fields: seq<Field>, f: string -> string) {
    forall i, j | 0 <= i < j < |fields| :: f(fields[i].key) != f(fields[j].key)
  }

  ghost function Keys(fields: seq<Field>): set<string> {
    set field <- fields :: field.key
  }

  lemma KeysPush(fields: seq<Field>, last: Field)
    ensures Keys(fields + [last]) == Keys(fields) + {last.key}
  {
  }

  lemma KeysHead(first: Field, rest: seq<Field>)
    ensures Keys([first] + rest) == {first.key} + Keys(rest)
  {
  }

  lemma NotAmong(key: string, fields: seq<Field>)
    requires IsBeforeAll(key, fields)
    ensures key !in Keys(fields)
  {
  }

  /** Inserting adds a field exactly when its key is new. */
  lemma {:induction false} PutKeys(fields: seq<Field>, key: string, value: Json)
    requires Ascending(fields)
    ensures Keys(Put(fields, key, value)) == Keys(fields) + {key}
    ensures |Put(fields, key, value)| == |fields| + if key in Keys(fields) then 0 else 1
  {
    var put := Field(key, value);
    if fields != [] {
      var first, rest := fields[0], fields[1..];
      assert fields == [first] + rest;
      AscendingHead(first, rest);
      KeysHead(first, rest);
      if first.key == key {
        KeysHead(put, rest);
      } else if LexLeq(key, first.key) {
        BeforeFirst(key, first, rest);
        NotAmong(key, rest);
        KeysHead(put, fields);
      } else {
        PutKeys(rest, key, value);
        KeysHead(first, Put(rest, key, value));
      }
    }
  }

  lemma ImagePush(f: string -> string, keys: set<string>, key: string)
    ensures Image(f, keys + {key}) == Image(f, keys) + {f(key)}
  {
  }

  lemma {:induction false} RedactedKeys(fields: seq<Field>, f: string -> string)
    ensures Keys(RedactFields(fields, f)) == Image(f, Keys(fields))
    ensures |RedactFields(fields, f)| <= |fields|
  {
    if fields != [] {
      var init, last := fields[..|fields| - 1], fields[|fields| - 1];
      assert fields == init + [last];
      RedactedKeys(init, f);
      RedactedAscends(init, f);
      PutKeys(RedactFields(init, f), f(last.key), RedactValue(last.value, f));
      KeysPush(init, last);
      ImagePush(f, Keys(init), last.key);
    }
  }

  lemma {:induction false} RedactedSize(fields: seq<Field>, f: string -> string)
    requires Apart(fields, f)
    ensures |RedactFields(fields, f)| == |fields|
  {
    if fields != [] {
      var init, last := fields[..|fields| - 1], fields[|fields| - 1];
      RedactedSize(init, f);
      RedactedKeys(init, f);
      RedactedAscends(init, f);
      PutKeys(RedactFields(init, f), f(last.key), RedactValue(last.value, f));
    }
  }

  /** An object keeps its number of fields exactly when no two of its keys redact alike. */
  lemma {:induction false} FieldsAreKeptIff(fields: seq<Field>, f: string -> string)
    ensures |RedactFields(fields, f)| == |fields| <==> Apart(fields, f)
  {
    if Apart(fields, f) {
      RedactedSize(fields, f);
    } else {
      CollisionLosesAField(fields, f);
    }
  }

  lemma {:induction false} CollisionLosesAField(fields: seq<Field>, f: string -> string)
    requires !Apart(fields, f)
    ensures |RedactFields(fields, f)| < |fields|
  {
    var init, last := fields[..|fields| - 1], fields[|fields| - 1];
    assert fields == init + [last];
    RedactedAscends(init, f);
    PutKeys(RedactFields(init, f), f(last.key), RedactValue(last.value, f));
    RedactedKeys(init, f);
    if !Apart(init, f) {
      CollisionLosesAField(init, f);
    } else {
      var i, j :| 0 <= i < j < |fields| && f(fields[i].key) == f(fields[j].key);
      assert fields[i] == init[i] && init[i] in init && init[i].key in Keys(init);
      assert f(init[i].key) in Image(f, Keys(init));
    }
  }

  /** What an object holds under a key. */
  ghost function ValueAt(fields: seq<Field>, key: string): Option<Json> {
    if fields == [] then None
    else if fields[0].key == key then Some(fields[0].value)
    else ValueAt(fields[1..], key)
  }

  lemma {:induction false} PutValueAt(fields: seq<Field>, key: string, value: Json, k: string)
    ensures ValueAt(Put(fields, key, value), k) == if k == key then Some(value) else ValueAt(fields, k)
  {
    if fields != [] {
      PutValueAt(fields[1..], key, value, k);
    }
  }

  /** With no two keys redacted alike, each value is found under its own redacted key. */
  lemma {:induction false} RedactedValueAt(fields: seq<Field>, f: string -> string, i: nat)
    requires Apart(fields, f) && i < |fields|
    ensures ValueAt(RedactFields(fields, f), f(fields[i].key)) == Some(RedactValue(fields[i].value, f))
    decreases |fields|
  {
    var init, last := fields[..|fields| - 1], fields[|fields| - 1];
    PutValueAt(RedactFields(init, f), f(last.key), RedactValue(last.value, f), f(fields[i].key));
    if i < |init| {
      RedactedValueAt(init, f, i);
    }
  }

  /**
   * Whether `w` is `v` with `f` of every string and key: the same numbers and booleans, item by item, and in
   * an object a value for each field under its new key and no other.
   */
  ghost predicate Mirrors(v: Json, w: Json, f: string -> string)
    decreases v
  {
    match v
    case Str(s) => w == Str(f(s))
    case Arr(items) =>
      w.Arr? && |w.items| == |items| && forall i | 0 <= i < |items| :: Mirrors(items[i], w.items[i], f)
    case Obj(fields) =>
      && w.Obj? && |w.fields| == |fields|
      && forall i | 0 <= i < |fields| :: MirroredAt(fields[i], w.fields, f)
    case _ => w == v
  }

  ghost predicate MirroredAt(field: Field, fields: seq<Field>, f: string -> string)
    decreases field
  {
    var at := ValueAt(fields, f(field.key));
    at.Some? && Mirrors(field.value, at.value, f)
  }

  lemma {:induction false} RedactedItems(items: seq<Json>, f: string -> string)
    ensures |RedactItems(items, f)| == |items|
    ensures forall i | 0 <= i < |items| :: RedactItems(items, f)[i] == RedactValue(items[i], f)
  {
    if items != [] {
      RedactedItems(items[..|items| - 1], f);
    }
  }

  /**
   * At any depth, redaction keeps every field under its redacted key, every item and every leaf exactly when
   * no two keys of one object redact alike.
   */
  lemma {:induction false} RedactionMirrorsIff(v: Json, f: string -> string)
    ensures Mirrors(v, RedactValue(v, f), f) <==> KeysStayApart(v, f)
    decreases v
  {
    match v
    case Str(s) =>
    case Arr(items) =>
      RedactedItems(items, f);
      forall i | 0 <= i < |items|
        ensures Mirrors(items[i], RedactValue(items[i], f), f) <==> KeysStayApart(items[i], f)
      {
        RedactionMirrorsIff(items[i], f);
      }
    case Obj(fields) => FieldsMirrorIff(fields, f);
    case _ =>
  }

  lemma {:induction false} FieldsMirrorIff(fields: seq<Field>, f: string -> string)
    ensures Mirrors(Obj(fields), RedactValue(Obj(fields), f), f) <==> KeysStayApart(Obj(fields), f)
    decreases fields
  {
    FieldsAreKeptIff(fields, f);
    if Apart(fields, f) {
      forall i | 0 <= i < |fields|
        ensures MirroredAt(fields[i], RedactFields(fields, f), f) <==> KeysStayApart(fields[i].value, f)
      {
        assert fields[i].value < fields[i];
        RedactedValueAt(fields, f, i);
        RedactionMirrorsIff(fields[i].value, f);
      }
    }
  }

  /** Fields are listed by their new keys, so where keys change order their fields do. */
  lemma RedactionReorders(key: string, other: string, value: Json, another: Json, f: string -> string)
    requires Before(key, other) && Before(f(other), f(key))
    ensures var v := Obj([Field(key, value), Field(other, another)]);
            && (InKeyOrder(v) <==> InKeyOrder(value) && InKeyOrder(another))
            && RedactValue(v, f) == Obj([Field(f(other), RedactValue(another, f)), Field(f(key), RedactValue(value, f))])
  {
    RedactedPair(Field(key, value), Field(other, another), f);
  }

  lemma RedactedPair(a: Field, b: Field, f: string -> string)
    ensures RedactFields([a, b], f) == Put([Field(f(a.key), RedactValue(a.value, f))], f(b.key), RedactValue(b.value, f))
  {
    var fields := [a, b];
    assert fields[..1] == [a] && [a][..0] == [];
    assert RedactFields([a], f) == Put([], f(a.key), RedactValue(a.value, f));
  }

  /** A collision: two keys that redact to the same text leave one field, and the first one's value is gone. */
  lemma CollidingKeysLoseAValue(key: string, other: string, f: string -> string)
    requires key != other && f(key) == f(other)
    ensures var v := Obj([Field(key, Bool(true)), Field(other, Bool(false))]);
            RedactValue(v, f) == Obj([Field(f(key), Bool(false))]) && !Mirrors(v, RedactValue(v, f), f)
  {
    RedactedPair(Field(key, Bool(true)), Field(other, Bool(false)), f);
  }
}
