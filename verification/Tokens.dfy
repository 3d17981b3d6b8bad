/** The vendor-neutral token estimate, sentences, and prose split to a ceiling. */
module Tokens {
  import opened Common
  import opened Text

  // ---- Characters ----

  /** Unicode White_Space, which `split_whitespace` and `trim` go by. */
  predicate IsWhitespace(c: char) {
    var n := c as int;
    || 9 <= n <= 13 || n == 32 || n == 0x85 || n == 0xA0 || n == 0x1680 || 0x2000 <= n <= 0x200A
    || n == 0x2028 || n == 0x2029 || n == 0x202F || n == 0x205F || n == 0x3000
  }

  /** Whether trimming leaves nothing. */
  predicate IsBlank(text: string) {
    forall c <- text :: IsWhitespace(c)
  }

  /** `u8::is_ascii_whitespace`: no vertical tab. */
  predicate IsAsciiWhitespace(c: char) {
    c == ' ' || c == '\t' || c == '\n' || c == '\r' || c as int == 12
  }

  predicate IsAsciiPunctuation(c: char) {
    '!' <= c <= '/' || ':' <= c <= '@' || '[' <= c <= '`' || '{' <= c <= '~'
  }

  predicate IsCjk(c: char) {
    var n := c as int;
    || 0x3040 <= n <= 0x30FF || 0x3400 <= n <= 0x4DBF || 0x4E00 <= n <= 0x9FFF || 0xAC00 <= n <= 0xD7AF
    || 0xF900 <= n <= 0xFAFF || 0x20000 <= n <= 0x2FA1F
  }

  function LenUtf8(c: char): nat {
    var n := c as int;
    if n < 0x80 then 1 else if n < 0x800 then 2 else if n < 0x10000 then 3 else 4
  }

  // ---- The estimate ----

  /** Maximal runs without whitespace, after a run already begun. */
  function WordsFrom(text: string, word: string): seq<string> {
    if text == "" then if word == "" then [] else [word]
    else if IsWhitespace(text[0]) then (if word == "" then [] else [word]) + WordsFrom(text[1..], "")
    else WordsFrom(text[1..], word + [text[0]])
  }

  function Words(text: string): seq<string> {
    WordsFrom(text, "")
  }

  /** What the inner loop has counted so far in one word. */
  datatype Tally = Tally(cjk: nat, bytes: nat, punctuation: nat, afterPunctuation: bool) {
    function Add(c: char): Tally {
      if IsCjk(c) then this.(cjk := cjk + 1, afterPunctuation := false)
      else
        var punct := IsAsciiPunctuation(c);
        Tally(cjk, bytes + LenUtf8(c), punctuation + if punct && !afterPunctuation then 1 else 0, punct)
    }

    /** A token a CJK character, one every four other bytes, one a run of punctuation. */
    function Cost(): nat {
      cjk + if bytes > 0 then Max((bytes + 3) / 4, 1) + punctuation else 0
    }
  }

  function TallyOf(word: string): Tally {
    if word == "" then Tally(0, 0, 0, false) else TallyOf(word[..|word| - 1]).Add(word[|word| - 1])
  }

  function WordCost(word: string): nat {
    TallyOf(word).Cost()
  }

  function Estimate(text: string): nat {
    SumBy(Words(text), WordCost)
  }

  /** The estimate as it is computed: word by word, character by character. */
  method EstimateTokens(text: string) returns (total: nat)
    ensures total == Estimate(text)
  {
    total := 0;
    var words := Words(text);
    for w := 0 to |words|
      invariant total == SumBy(words[..w], WordCost)
    {
      var word := words[w];
      var tally := Tally(0, 0, 0, false);
      for i := 0 to |word|
        invariant tally == TallyOf(word[..i])
      {
        assert word[..i + 1][..i] == word[..i];
        tally := tally.Add(word[i]);
      }
      assert word[..|word|] == word;
      assert words[..w + 1] == words[..w] + [word];
      SumByAppend(words[..w], [word], WordCost);
      assert SumBy([word], WordCost) == WordCost(word);
      total := total + tally.Cost();
    }
    assert words[..|words|] == words;
  }

  /** A place where no word can straddle: the text before ends, or the text after begins, with whitespace. */
  predicate Seam(a: string, b: string) {
    a == "" || b == "" || IsWhitespace(a[|a| - 1]) || IsWhitespace(b[0])
  }

  lemma WordsAfterOne(c: char, word: string, b: string)
    requires b != "" && (IsWhitespace(c) || IsWhitespace(b[0]))
    ensures WordsFrom([c] + b, word) == WordsFrom([c], word) + WordsFrom(b, "")
  {
    assert ([c] + b)[1..] == b && [c][1..] == "";
    if !IsWhitespace(c) {
      assert WordsFrom(b, word + [c]) == [word + [c]] + WordsFrom(b[1..], "");
      assert WordsFrom(b, "") == WordsFrom(b[1..], "");
    }
  }

  /** The word a character ends, if it ends one, and what is being read after it. */
  function Ended(c: char, word: string): seq<string> {
    if IsWhitespace(c) && word != "" then [word] else []
  }

  function After(c: char, word: string): string {
    if IsWhitespace(c) then "" else word + [c]
  }

  lemma WordsStep(c: char, rest: string, word: string)
    ensures WordsFrom([c] + rest, word) == Ended(c, word) + WordsFrom(rest, After(c, word))
  {
    assert ([c] + rest)[1..] == rest;
  }

  lemma {:induction false} WordsAtSeam(a: string, word: string, b: string)
    requires a != "" && b != "" && (IsWhitespace(a[|a| - 1]) || IsWhitespace(b[0]))
    ensures WordsFrom(a + b, word) == WordsFrom(a, word) + WordsFrom(b, "")
    decreases |a|
  {
    var c, rest := a[0], a[1..];
    assert a == [c] + rest;
    if rest == "" {
      WordsAfterOne(c, word, b);
    } else {
      WordsAtSeam(rest, After(c, word), b);
      WordsBefore(c, rest, b, word);
    }
  }

  lemma WordsBefore(c: char, rest: string, b: string, word: string)
    requires WordsFrom(rest + b, After(c, word)) == WordsFrom(rest, After(c, word)) + WordsFrom(b, "")
    ensures WordsFrom([c] + rest + b, word) == WordsFrom([c] + rest, word) + WordsFrom(b, "")
  {
    WordsStep(c, rest + b, word);
    WordsStep(c, rest, word);
    AppendRegroups([c], rest, b);
    AppendRegroups(Ended(c, word), WordsFrom(rest, After(c, word)), WordsFrom(b, ""));
  }

  /** The estimate adds up at a seam. */
  lemma EstimateAdds(a: string, b: string)
    requires Seam(a, b)
    ensures Estimate(a + b) == Estimate(a) + Estimate(b)
  {
    if a == "" {
      assert a + b == b;
    } else if b == "" {
      assert a + b == a;
    } else {
      WordsAtSeam(a, "", b);
      SumByAppend(Words(a), Words(b), WordCost);
    }
  }

  lemma {:induction false} BlankCostsNothing(text: string)
    requires IsBlank(text)
    ensures Words(text) == []
  {
    if text != "" {
      assert text[0] in text;
      assert forall c <- text[1..] :: c in text;
      BlankCostsNothing(text[1..]);
    }
  }

  /** Parts joined by a blank line cost what they cost apart. */
  lemma {:induction false} JoinedCost(parts: seq<string>)
    ensures Estimate(Join(parts, "\n\n")) == SumBy(parts, Estimate)
  {
    if |parts| > 1 {
      var rest := Join(parts[1..], "\n\n");
      JoinedCost(parts[1..]);
      SeparatedCost(parts[0], rest);
    } else if |parts| == 1 {
      assert parts[1..] == [];
    }
  }

  lemma SeparatedCost(a: string, b: string)
    ensures Estimate(a + "\n\n" + b) == Estimate(a) + Estimate(b)
  {
    BlankCostsNothing("\n\n");
    EstimateAdds(a, "\n\n");
    EstimateAdds(a + "\n\n", b);
  }

  // ---- Sentences ----

  predicate EndsSentence(c: char) {
    c == '.' || c == '!' || c == '?'
  }

  /** Past the whitespace that starts at `at`. */
  function SkipSpace(text: string, at: nat): (end: nat)
    requires at <= |text|
    ensures at <= end <= |text|
    ensures forall i | at <= i < end :: IsAsciiWhitespace(text[i])
    ensures end < |text| ==> !IsAsciiWhitespace(text[end])
    decreases |text| - at
  {
    if at < |text| && IsAsciiWhitespace(text[at]) then SkipSpace(text, at + 1) else at
  }

  /** Whether the mark at `q` ends a sentence at `p`: whitespace up to there, then more text or the end. */
  ghost predicate Cuts(text: string, q: nat, p: nat) {
    && q < p <= |text| && EndsSentence(text[q])
    && (forall i | q < i < p :: IsAsciiWhitespace(text[i]))
    && (p == |text| || (!IsAsciiWhitespace(text[p]) && p > q + 1))
  }

  ghost predicate IsCut(text: string, p: nat) {
    exists q: nat :: Cuts(text, q, p)
  }

  /** The pieces of a text from `start` on, with everything before `at` already looked at. */
  function SentencesFrom(text: string, start: nat, at: nat): seq<string>
    requires start <= at <= |text|
    decreases |text| - at
  {
    if at == |text| then if start < |text| then [text[start..]] else []
    else if EndsSentence(text[at]) then
      var end := SkipSpace(text, at + 1);
      if end > at + 1 || end == |text| then [text[start..end]] + SentencesFrom(text, end, end)
      else SentencesFrom(text, start, at + 1)
    else SentencesFrom(text, start, at + 1)
  }

  function Sentences(text: string): seq<string> {
    SentencesFrom(text, 0, 0)
  }

  method PastSpace(text: string, at: nat) returns (end: nat)
    requires at <= |text|
    ensures end == SkipSpace(text, at)
  {
    end := at;
    while end < |text| && IsAsciiWhitespace(text[end])
      invariant at <= end <= |text|
      invariant SkipSpace(text, at) == SkipSpace(text, end)
    {
      end := end + 1;
    }
  }

  method SplitSentences(text: string) returns (out: seq<string>)
    ensures out == Sentences(text)
  {
    out := [];
    var start: nat, at: nat := 0, 0;
    while at < |text|
      invariant start <= at <= |text|
      invariant out + SentencesFrom(text, start, at) == Sentences(text)
    {
      if EndsSentence(text[at]) {
        var end := PastSpace(text, at + 1);
        if end > at + 1 || end == |text| {
          out := out + [text[start..end]];
          start := end;
          at := end;
          continue;
        }
      }
      at := at + 1;
    }
    if start < |text| {
      out := out + [text[start..]];
    }
  }

  function Concat(parts: seq<string>): string {
    if parts == [] then "" else parts[0] + Concat(parts[1..])
  }

  /** Non-empty pieces laid end to end over a text from `start` on. */
  ghost predicate Tiles(text: string, start: nat, pieces: seq<string>)
    decreases |pieces|
  {
    if pieces == [] then start == |text|
    else
      var end := start + |pieces[0]|;
      start < end <= |text| && pieces[0] == text[start..end] && Tiles(text, end, pieces[1..])
  }

  /** The pieces begin and end where sentences do, and no sentence ends inside one. */
  ghost predicate CutExactly(text: string, start: nat, pieces: seq<string>)
    decreases |pieces|
  {
    pieces == []
    || (var end := start + |pieces[0]|;
        && (end == |text| || IsCut(text, end))
        && (forall p: nat | start < p < end :: !IsCut(text, p))
        && CutExactly(text, end, pieces[1..]))
  }

  /** Every mark before `at` that ends a sentence ends one at or before `start`. */
  ghost predicate Scanned(text: string, start: nat, at: nat) {
    forall q: nat, p: nat | Cuts(text, q, p) && p > start :: q >= at
  }

  /** Looking at one more mark: where its sentence ends, if it ends one. */
  lemma ScanOne(text: string, start: nat, at: nat)
    requires start <= at < |text| && Scanned(text, start, at)
    ensures var end := if EndsSentence(text[at]) then SkipSpace(text, at + 1) else at + 1;
            if EndsSentence(text[at]) && (end > at + 1 || end == |text|)
            then Cuts(text, at, end) && (forall p: nat | start < p < end :: !IsCut(text, p)) && Scanned(text, end, end)
            else Scanned(text, start, at + 1)
  {
  }

  /** One sentence, then the rest. */
  lemma CutThenRest(text: string, start: nat, at: nat, end: nat, rest: seq<string>)
    requires start <= at < end <= |text| && Cuts(text, at, end) && forall p: nat | start < p < end :: !IsCut(text, p)
    requires Tiles(text, end, rest) && CutExactly(text, end, rest)
    ensures Tiles(text, start, [text[start..end]] + rest) && CutExactly(text, start, [text[start..end]] + rest)
  {
    var pieces := [text[start..end]] + rest;
    assert pieces[0] == text[start..end] && pieces[1..] == rest;
    assert IsCut(text, end);
  }

  /** What is left at the end is one piece. */
  lemma LastPiece(text: string, start: nat)
    requires start < |text| && Scanned(text, start, |text|)
    ensures Tiles(text, start, [text[start..]]) && CutExactly(text, start, [text[start..]])
  {
    var pieces := [text[start..]];
    assert pieces[0] == text[start..|text|] && pieces[1..] == [];
  }

  lemma {:induction false} SentencesCutExactly(text: string, start: nat, at: nat)
    requires start <= at <= |text| && Scanned(text, start, at)
    ensures Tiles(text, start, SentencesFrom(text, start, at)) && CutExactly(text, start, SentencesFrom(text, start, at))
    decreases |text| - at
  {
    if at < |text| {
      ScanOne(text, start, at);
      var end := if EndsSentence(text[at]) then SkipSpace(text, at + 1) else at + 1;
      if EndsSentence(text[at]) && (end > at + 1 || end == |text|) {
        SentencesCutExactly(text, end, end);
        CutThenRest(text, start, at, end, SentencesFrom(text, end, end));
      } else {
        SentencesCutExactly(text, start, at + 1);
      }
    } else if start < |text| {
      LastPiece(text, start);
    }
  }

  /** Put together again, the pieces are the text. */
  lemma {:induction false} TilesConcatenate(text: string, start: nat, pieces: seq<string>)
    requires Tiles(text, start, pieces)
    ensures start <= |text| && Concat(pieces) == text[start..]
    decreases |pieces|
  {
    if pieces != [] {
      var end := start + |pieces[0]|;
      TilesConcatenate(text, end, pieces[1..]);
      assert text[start..] == text[start..end] + text[end..];
    }
  }

  /** Every piece but the last ends with whitespace, so pieces meet at seams. */
  ghost predicate AtSeams(pieces: seq<string>) {
    pieces == []
    || (pieces[0] != "" && (|pieces| == 1 || IsWhitespace(pieces[0][|pieces[0]| - 1])) && AtSeams(pieces[1..]))
  }

  lemma {:induction false} TilesMeetAtSeams(text: string, start: nat, pieces: seq<string>)
    requires Tiles(text, start, pieces) && CutExactly(text, start, pieces)
    ensures AtSeams(pieces)
    decreases |pieces|
  {
    if pieces != [] {
      var end := start + |pieces[0]|;
      TilesMeetAtSeams(text, end, pieces[1..]);
      if |pieces| > 1 {
        assert end < |text| by {
          assert |pieces[1..]| > 0;
        }
        var q: nat :| Cuts(text, q, end);
        assert IsAsciiWhitespace(text[end - 1]);
      }
    }
  }

  /** Sentences are the text, cut exactly where sentences end. */
  lemma SentencesAreExact(text: string)
    ensures Tiles(text, 0, Sentences(text)) && CutExactly(text, 0, Sentences(text))
    ensures Concat(Sentences(text)) == text && AtSeams(Sentences(text))
  {
    SentencesCutExactly(text, 0, 0);
    TilesConcatenate(text, 0, Sentences(text));
    TilesMeetAtSeams(text, 0, Sentences(text));
    assert text[0..] == text;
  }
}
