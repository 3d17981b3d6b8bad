/** Two of the gate's scanners as they are: the secret scan and the phrase scan, and what the gate makes of each. */
module Scans {
  import opened Common
  import opened Text
  import opened Changes
  import opened Gates
  import opened Sorting
  import Secrets
  import Injection

  // ---- Secrets ----

  datatype Match = Match(pattern: string, line: nat, excerpt: string)

  function Breaks(text: string): nat {
    if text == "" then 0 else Breaks(text[..|text| - 1]) + if text[|text| - 1] == '\n' then 1 else 0
  }

  /** What stands on a text's last line. */
  function LastLine(text: string): string {
    var at := LastIndexOf(text, '\n');
    if at == |text| then text else text[at + 1..]
  }

  /** What stands on a text's first line. */
  function FirstLine(text: string): string {
    text[..FirstIndexOf(text, '\n')]
  }

  /** A secret as it is reported: its pattern, its line number, and its line with the secret cut out. */
  function MatchAt(before: string, after: string, pattern: string): Match {
    Match(pattern, AsU32(Breaks(before)) + 1, LastLine(before) + Secrets.REDACTION + FirstLine(after))
  }

  function MatchOf(text: string, s: Secrets.Span): Match {
    if s.start <= s.end <= |text| then MatchAt(text[..s.start], text[s.end..], s.pattern) else Match("", 0, "")
  }

  function MatchesFor(text: string, spans: seq<Secrets.Span>): (matches: seq<Match>)
    ensures |matches| == |spans|
  {
    seq(|spans|, i requires 0 <= i < |spans| => MatchOf(text, spans[i]))
  }

  /** Every secret in a text. */
  function Scan(text: string, find: Secrets.Finder): seq<Match> {
    MatchesFor(text, Secrets.Spans(text, find))
  }

  function HitsFor(matches: seq<Match>): (hits: seq<Hit<(string, string)>>)
    ensures |hits| == |matches|
  {
    seq(|matches|, i requires 0 <= i < |matches| => Hit((matches[i].pattern, matches[i].excerpt), matches[i].line))
  }

  function SecretScanner(find: Secrets.Finder): string -> seq<Hit<(string, string)>> {
    (text: string) => HitsFor(Scan(text, find))
  }

  function MatchesIn(side: Option<string>, find: Secrets.Finder): seq<Match> {
    if side.Some? then Scan(side.value, find) else []
  }

  /** Whether a side of a change already accounts for a match: the same pattern on the same redacted line. */
  ghost predicate Accounts(known: seq<Match>, m: Match) {
    exists k <- known :: k.pattern == m.pattern && k.excerpt == m.excerpt
  }

  lemma HitsHave(matches: seq<Match>, key: (string, string))
    ensures (exists h <- HitsFor(matches) :: h.key == key) <==> exists m <- matches :: (m.pattern, m.excerpt) == key
  {
    if h :| h in HitsFor(matches) && h.key == key {
      var i :| 0 <= i < |matches| && HitsFor(matches)[i] == h;
      assert matches[i] in matches;
    }
    if m :| m in matches && (m.pattern, m.excerpt) == key {
      var i :| 0 <= i < |matches| && matches[i] == m;
      assert HitsFor(matches)[i] in HitsFor(matches);
    }
  }

  lemma NovelMatch(known: seq<Match>, matches: seq<Match>)
    ensures NovelHit(set h <- HitsFor(known) :: h.key, HitsFor(matches)) <==> exists m <- matches :: !Accounts(known, m)
  {
    var before := set h <- HitsFor(known) :: h.key;
    forall m | m in matches
      ensures (m.pattern, m.excerpt) in before <==> Accounts(known, m)
    {
      HitsHave(known, (m.pattern, m.excerpt));
    }
    if h :| h in HitsFor(matches) && h.key !in before {
      HitsHave(matches, h.key);
    }
    if m :| m in matches && !Accounts(known, m) {
      HitsHave(matches, (m.pattern, m.excerpt));
    }
  }

  /**
   * A file is refused for a secret exactly when its new text holds one whose pattern and redacted line its old
   * text did not have. The secret itself is not compared.
   */
  lemma SecretRefusedIff(inputs: Inputs, file: FileChange, find: Secrets.Finder)
    requires inputs.scanners.secrets == SecretScanner(find)
    ensures HasReject(SecretFindings(inputs, file))
            <==> exists m <- MatchesIn(file.after, find) :: !Accounts(MatchesIn(file.before, find), m)
  {
    ScannersReject(inputs, file);
    var known, matches := MatchesIn(file.before, find), MatchesIn(file.after, find);
    NovelMatch(known, matches);
    assert HitsAfter(inputs.scanners.secrets, file) == HitsFor(matches);
    assert KeysBefore(inputs.scanners.secrets, file) == set h <- HitsFor(known) :: h.key;
    AddsIsNovel(inputs.scanners.secrets, file, {});
    assert KeysBefore(inputs.scanners.secrets, file) + {} == KeysBefore(inputs.scanners.secrets, file);
  }

  /** So one secret put in the place of another, with the line around it as it was, is not refused. */
  lemma SwappedSecretPasses(inputs: Inputs, file: FileChange, find: Secrets.Finder,
                            pre: string, old': string, new': string, post: string, pattern: string)
    requires inputs.scanners.secrets == SecretScanner(find)
    requires file.before == Some(pre + old' + post) && file.after == Some(pre + new' + post)
    requires Secrets.Spans(pre + old' + post, find) == [Secrets.Span(|pre|, |pre + old'|, pattern)]
    requires Secrets.Spans(pre + new' + post, find) == [Secrets.Span(|pre|, |pre + new'|, pattern)]
    ensures !HasReject(SecretFindings(inputs, file))
  {
    SecretRefusedIff(inputs, file, find);
    CutOut(pre, old', post, pattern);
    CutOut(pre, new', post, pattern);
    var known := MatchesIn(file.before, find);
    assert known[0] in known;
  }

  lemma CutOut(pre: string, secret: string, post: string, pattern: string)
    ensures MatchOf(pre + secret + post, Secrets.Span(|pre|, |pre + secret|, pattern)) == MatchAt(pre, post, pattern)
  {
    var text := pre + secret + post;
    assert text[..|pre|] == pre && text[|pre + secret|..] == post;
  }

  /** How a secret is reported: by its pattern, the number of its line, and that line with the secret cut out. */
  lemma ReportedAs(lines: seq<string>, pre: string, secret: string, post: string, rest: string, pattern: string)
    requires (forall line <- lines :: '\n' !in line) && '\n' !in pre && '\n' !in post
    requires rest == "" || rest[0] == '\n'
    ensures var head := Terminated(lines) + pre;
            MatchOf(head + secret + (post + rest), Secrets.Span(|head|, |head + secret|, pattern))
            == Match(pattern, AsU32(|lines|) + 1, pre + Secrets.REDACTION + post)
  {
    var head := Terminated(lines) + pre;
    CutOut(head, secret, post + rest, pattern);
    BreaksIs(lines, pre);
    LastLineIs(lines, pre);
    FirstLineIs(post, rest);
  }

  lemma BreaksAppend(a: string, b: string)
    ensures Breaks(a + b) == Breaks(a) + Breaks(b)
    decreases |b|
  {
    if b == "" {
      assert a + b == a;
    } else {
      assert (a + b)[..|a + b| - 1] == a + b[..|b| - 1];
      BreaksAppend(a, b[..|b| - 1]);
    }
  }

  lemma {:induction false} NoBreaks(s: string)
    requires '\n' !in s
    ensures Breaks(s) == 0
  {
    if s != "" {
      assert s[|s| - 1] in s;
      NoBreaks(s[..|s| - 1]);
    }
  }

  lemma {:induction false} BreaksIs(lines: seq<string>, pre: string)
    requires (forall line <- lines :: '\n' !in line) && '\n' !in pre
    ensures Breaks(Terminated(lines) + pre) == |lines|
  {
    if lines == [] {
      assert "" + pre == pre;
      NoBreaks(pre);
    } else {
      assert lines[0] in lines && forall line <- lines[1..] :: line in lines;
      BreaksIs(lines[1..], pre);
      var line := lines[0] + ['\n'];
      assert line[..|line| - 1] == lines[0];
      NoBreaks(lines[0]);
      assert Terminated(lines) + pre == line + (Terminated(lines[1..]) + pre);
      BreaksAppend(line, Terminated(lines[1..]) + pre);
    }
  }

  lemma {:induction false} TerminatedEnds(lines: seq<string>)
    ensures lines != [] ==> Terminated(lines) != "" && Terminated(lines)[|Terminated(lines)| - 1] == '\n'
  {
    if lines != [] {
      TerminatedEnds(lines[1..]);
    }
  }

  lemma NoBreakAfter(head: string, pre: string)
    requires '\n' !in pre
    ensures forall i | |head| <= i < |head + pre| :: (head + pre)[i] != '\n'
  {
    forall i | |head| <= i < |head + pre|
      ensures (head + pre)[i] != '\n'
    {
      assert (head + pre)[i] == pre[i - |head|];
    }
  }

  lemma AfterLastBreak(head: string, pre: string)
    requires '\n' !in pre && (head == "" || head[|head| - 1] == '\n')
    ensures LastLine(head + pre) == pre
  {
    NoBreakAfter(head, pre);
    assert head != "" ==> (head + pre)[|head| - 1] == '\n';
    assert (head + pre)[|head|..] == pre;
  }

  lemma LastLineIs(lines: seq<string>, pre: string)
    requires '\n' !in pre
    ensures LastLine(Terminated(lines) + pre) == pre
  {
    TerminatedEnds(lines);
    AfterLastBreak(Terminated(lines), pre);
  }

  lemma FirstLineIs(post: string, rest: string)
    requires '\n' !in post && (rest == "" || rest[0] == '\n')
    ensures FirstLine(post + rest) == post
  {
    assert (post + rest)[..|post|] == post;
  }

  // ---- One of the patterns: an access key id ----

  const KEY_ID: string := "aws-access-key-id"

  predicate IsWord(c: char) {
    'a' <= c <= 'z' || 'A' <= c <= 'Z' || '0' <= c <= '9' || c == '_'
  }

  predicate IsKeyId(s: string) {
    && |s| == 20 && s[..4] in {"AKIA", "ASIA", "ABIA", "ACCA"}
    && forall c <- s[4..] :: '0' <= c <= '9' || 'A' <= c <= 'Z'
  }

  /** A key id that stands as a word of its own. */
  predicate KeyIdAt(text: string, i: nat) {
    && i + 20 <= |text| && IsKeyId(text[i..i + 20])
    && (i == 0 || !IsWord(text[i - 1])) && (i + 20 == |text| || !IsWord(text[i + 20]))
  }

  /** The pattern's matches from a position on, leftmost first, none overlapping. */
  function KeyIdsFrom(text: string, i: nat): seq<Secrets.Span>
    decreases |text| - i
  {
    if i >= |text| then []
    else if KeyIdAt(text, i) then [Secrets.Span(i, i + 20, KEY_ID)] + KeyIdsFrom(text, i + 20)
    else KeyIdsFrom(text, i + 1)
  }

  function KeyIdFinder(): Secrets.Finder {
    (text: string) => [KeyIdsFrom(text, 0)]
  }

  /** One match of one pattern, not an example, is the one span of its text. */
  lemma OneSpan(text: string, find: Secrets.Finder, s: Secrets.Span)
    requires find(text) == [[s]] && s.start <= s.end <= |text| && !Secrets.IsPlaceholder(text[s.start..s.end])
    ensures Secrets.Spans(text, find) == [s]
  {
    assert [s][..0] == [] && [[s]][..0] == [];
    assert Secrets.Credentials(text, [s]) == Secrets.Credentials(text, []) + [s];
    assert Secrets.Found(text, [[s]]) == Secrets.Found(text, []) + Secrets.Credentials(text, [s]) == [s];
    assert Sort([s], Secrets.Earlier) == Insert(s, [], Secrets.Earlier) == [s];
    assert Secrets.Merge([s]) == Secrets.Push([], s) == [s];
  }

  lemma {:induction false} NoKeyIds(text: string, i: nat)
    requires i <= |text| && 'A' !in text[i..]
    ensures KeyIdsFrom(text, i) == []
    decreases |text| - i
  {
    if i < |text| {
      if KeyIdAt(text, i) {
        StartsWithA(text, i);
      }
      assert text[i + 1..] == text[i..][1..];
      NoKeyIds(text, i + 1);
    }
  }

  lemma StartsWithA(text: string, i: nat)
    requires KeyIdAt(text, i)
    ensures text[i] == 'A'
  {
    assert text[i..i + 20][..4][0] == text[i];
  }

  /** The one key id of a text. */
  ghost predicate IsTheKeyId(pre: string, key: string, post: string) {
    && IsKeyId(key) && !Secrets.IsPlaceholder(key) && 'A' !in pre && 'A' !in post
    && (pre == "" || !IsWord(pre[|pre| - 1])) && (post == "" || !IsWord(post[0]))
  }

  lemma {:induction false} FoundFrom(pre: string, key: string, post: string, i: nat)
    requires IsTheKeyId(pre, key, post) && i <= |pre|
    ensures KeyIdsFrom(pre + key + post, i) == [Secrets.Span(|pre|, |pre + key|, KEY_ID)]
    decreases |pre| - i
  {
    var text := pre + key + post;
    if i < |pre| {
      assert text[i] == pre[i];
      if KeyIdAt(text, i) {
        StartsWithA(text, i);
      }
      FoundFrom(pre, key, post, i + 1);
    } else {
      assert text[i..i + 20] == key && text[i + 20..] == post;
      NoKeyIds(text, i + 20);
    }
  }

  lemma KeyIdFound(pre: string, key: string, post: string)
    requires IsTheKeyId(pre, key, post)
    ensures Secrets.Spans(pre + key + post, KeyIdFinder()) == [Secrets.Span(|pre|, |pre + key|, KEY_ID)]
  {
    FoundFrom(pre, key, post, 0);
    assert (pre + key + post)[|pre|..|pre + key|] == key;
    OneSpan(pre + key + post, KeyIdFinder(), Secrets.Span(|pre|, |pre + key|, KEY_ID));
  }

  /** Inputs: one live access key replaced by another, so that a secret comes in that was not there. */
  lemma SwappedKeyIsNotRefused(inputs: Inputs, file: FileChange, pre: string, old': string, new': string, post: string)
    requires inputs.scanners.secrets == SecretScanner(KeyIdFinder())
    requires IsTheKeyId(pre, old', post) && IsTheKeyId(pre, new', post) && old' != new'
    requires file.before == Some(pre + old' + post) && file.after == Some(pre + new' + post)
    ensures |Scan(pre + new' + post, KeyIdFinder())| == 1 && !HasReject(SecretFindings(inputs, file))
  {
    KeyIdFound(pre, old', post);
    KeyIdFound(pre, new', post);
    SwappedSecretPasses(inputs, file, KeyIdFinder(), pre, old', new', post, KEY_ID);
  }

  /** A key id of one letter over and over. */
  function KeyIdOf(c: char): string {
    "AKIA" + seq(16, i => c)
  }

  /** Letters each of which some mark of a sample needs. */
  const MARKING: set<char> := {'O', 'E', 'C', 'R', 'X', 'P', 'B'}

  ghost predicate IsUnmarked(s: string) {
    forall k | 0 <= k < |s| :: 'A' <= s[k] <= 'Z' && s[k] !in MARKING
  }

  /** There are such keys: two for any two letters outside the marks. */
  lemma LiveKeys(c: char, d: char)
    requires 'A' <= c <= 'Z' && c !in MARKING && 'A' <= d <= 'Z' && d !in MARKING && c != d
    ensures IsTheKeyId("", KeyIdOf(c), "") && IsTheKeyId("", KeyIdOf(d), "") && KeyIdOf(c) != KeyIdOf(d)
  {
    IsLive(c);
    IsLive(d);
    assert KeyIdOf(c)[4] == c && KeyIdOf(d)[4] == d;
  }

  lemma IsLive(c: char)
    requires 'A' <= c <= 'Z' && c !in MARKING
    ensures IsTheKeyId("", KeyIdOf(c), "")
  {
    assert KeyIdOf(c)[..4] == "AKIA";
    UnmarkedIsLive(KeyIdOf(c));
  }

  predicate IsUnmarkedLower(c: char) {
    'a' <= c <= 'z' && c !in {'o', 'e', 'c', 'r', 'x', 'p', 'b'}
  }

  lemma {:induction false} LowerUnmarked(s: string)
    requires IsUnmarked(s)
    ensures forall k | 0 <= k < |Secrets.AsciiLower(s)| :: IsUnmarkedLower(Secrets.AsciiLower(s)[k])
  {
    if s != "" {
      LowerUnmarked(s[1..]);
    }
  }

  lemma LacksMark(s: string, marker: string, k: nat)
    requires k < |marker| && marker[k] !in s
    ensures !Contains(s, marker)
  {
  }

  lemma UnmarkedIsLive(key: string)
    requires IsUnmarked(key)
    ensures !Secrets.IsPlaceholder(key)
  {
    LowerUnmarked(key);
    var lower := Secrets.AsciiLower(key);
    forall m | 0 <= m < |Secrets.PLACEHOLDERS|
      ensures !Contains(lower, Secrets.PLACEHOLDERS[m])
    {
      LacksMark(lower, Secrets.PLACEHOLDERS[m], if m == 0 || m == 8 then 1 else 0);
    }
  }

  // ---- Phrases ----

  function PhraseHits(hits: seq<Injection.Hit>): (out: seq<Hit<string>>)
    ensures |out| == |hits|
  {
    seq(|hits|, i requires 0 <= i < |hits| => Hit(hits[i].phrase, hits[i].line))
  }

  function PhraseScanner(corpus: seq<string>, a: Injection.Alphabet): string -> seq<Hit<string>> {
    (text: string) => PhraseHits(Injection.HitsIn(LinesOf(text), Injection.Finder(corpus, a)))
  }

  /** Whether some line of one side carries a phrase. */
  predicate Carried(side: Option<string>, phrase: string, a: Injection.Alphabet) {
    side.Some? && exists line <- LinesOf(side.value) :: Injection.Carries(line, phrase, a)
  }

  lemma PhraseHitsHave(hits: seq<Injection.Hit>, phrase: string)
    ensures (exists h <- PhraseHits(hits) :: h.key == phrase) <==> Injection.Reported(hits, phrase)
  {
    if h :| h in PhraseHits(hits) && h.key == phrase {
      var i :| 0 <= i < |hits| && PhraseHits(hits)[i] == h;
      assert hits[i] in hits;
    }
    if h :| h in hits && h.phrase == phrase {
      var i :| 0 <= i < |hits| && hits[i] == h;
      assert PhraseHits(hits)[i] in PhraseHits(hits);
    }
  }

  /** The keys the phrase scanner finds in a text: the corpus's phrases that some line carries. */
  lemma ScannerFinds(corpus: seq<string>, text: string, a: Injection.Alphabet, phrase: string)
    requires Injection.Sound(a)
    ensures (exists h <- PhraseScanner(corpus, a)(text) :: h.key == phrase)
            <==> phrase in corpus && Carried(Some(text), phrase, a)
  {
    var hits := Injection.HitsIn(LinesOf(text), Injection.Finder(corpus, a));
    PhraseHitsHave(hits, phrase);
    Injection.ScanReportsIff(corpus, LinesOf(text), a, phrase);
  }

  /** A file is refused for a phrase exactly when the run is a stranger's and a line brings a phrase no line had. */
  lemma PhraseRefusedIff(inputs: Inputs, file: FileChange, corpus: seq<string>, a: Injection.Alphabet)
    requires inputs.scanners.phrases == PhraseScanner(corpus, a) && Injection.Sound(a)
    ensures HasReject(PhraseFindings(inputs, file))
            <==> inputs.restrictions.IsUntrustedTrigger()
                 && exists phrase <- corpus :: Carried(file.after, phrase, a) && !Carried(file.before, phrase, a)
  {
    ScannersReject(inputs, file);
    var known, hits := KeysBefore(inputs.scanners.phrases, file), HitsAfter(inputs.scanners.phrases, file);
    forall phrase
      ensures (exists h <- hits :: h.key == phrase) <==> phrase in corpus && Carried(file.after, phrase, a)
      ensures phrase in known <==> phrase in corpus && Carried(file.before, phrase, a)
    {
      if file.after.Some? {
        ScannerFinds(corpus, file.after.value, a, phrase);
      }
      if file.before.Some? {
        ScannerFinds(corpus, file.before.value, a, phrase);
      }
    }
    NovelKeys(known, hits, corpus);
    AddsIsNovel(inputs.scanners.phrases, file, {});
    assert known + {} == known;
  }

  lemma NovelKeys(known: set<string>, hits: seq<Hit<string>>, corpus: seq<string>)
    requires forall h <- hits :: h.key in corpus
    ensures NovelHit(known, hits) <==> exists k <- corpus :: k !in known && exists h <- hits :: h.key == k
  {
  }
}
