/** Matching a phrase in folded text: word by word through a padded substring search, or with separators gone. */
module Injection {
  import opened Common
  import opened Text
  import opened Tokens
  import Changes

  /** Characters dropped before folding. */
  predicate IsIgnorable(c: char) {
    var n := c as int;
    || n == 0xAD || n == 0x34F || n == 0x61C || n == 0x180E || 0x200B <= n <= 0x200F || 0x202A <= n <= 0x202E
    || 0x2060 <= n <= 0x2064 || 0x2066 <= n <= 0x2069 || n == 0xFEFF || 0xFFF9 <= n <= 0xFFFB
  }

  /** What the source asks of the Unicode tables. */
  datatype Alphabet = Alphabet(alphanumeric: char -> bool, lower: char -> string)

  /** Lowercasing a letter or a digit leaves something, and never a space. */
  ghost predicate Sound(a: Alphabet) {
    forall c :: a.alphanumeric(c) ==> a.lower(c) != "" && ' ' !in a.lower(c)
  }

  datatype Folded = Folded(spaced: string, squeezed: string)

  // ---- Words ----

  /** The words so far, and the one being read. */
  datatype Reading = Reading(done: seq<string>, word: string) {
    function Next(c: char, a: Alphabet): Reading {
      if IsIgnorable(c) then this
      else if a.alphanumeric(c) then this.(word := word + a.lower(c))
      else if word != "" then Reading(done + [word], "")
      else this
    }

    function All(): seq<string> {
      if word != "" then done + [word] else done
    }
  }

  function Read(text: string, a: Alphabet): Reading {
    if text == "" then Reading([], "") else Read(text[..|text| - 1], a).Next(text[|text| - 1], a)
  }

  /** The folded words of a text: maximal runs of letters and digits, ignorable characters dropped, lowercased. */
  function FoldedWords(text: string, a: Alphabet): seq<string> {
    Read(text, a).All()
  }

  /** Words with a space after each. */
  function Spaced(words: seq<string>): string {
    if words == [] then "" else Spaced(words[..|words| - 1]) + words[|words| - 1] + " "
  }

  /** And one before the first. */
  function Padded(words: seq<string>): string {
    " " + Spaced(words)
  }

  lemma SpacedPush(words: seq<string>, w: string)
    ensures Spaced(words + [w]) == Spaced(words) + w + " "
  {
    assert (words + [w])[..|words|] == words;
  }

  lemma {:induction false} SpacedAppend(a: seq<string>, b: seq<string>)
    ensures Spaced(a + b) == Spaced(a) + Spaced(b)
  {
    if b == [] {
      assert a + b == a;
    } else {
      var init, last := b[..|b| - 1], b[|b| - 1];
      assert (a + b)[..|a + b| - 1] == a + init;
      SpacedAppend(a, init);
    }
  }

  lemma {:induction false} ConcatAppend(a: seq<string>, b: seq<string>)
    ensures Concat(a + b) == Concat(a) + Concat(b)
  {
    if a == [] {
      assert a + b == b;
    } else {
      assert (a + b)[1..] == a[1..] + b;
      ConcatAppend(a[1..], b);
      assert a[0] + (Concat(a[1..]) + Concat(b)) == a[0] + Concat(a[1..]) + Concat(b);
    }
  }

  /** The two buffers of the loop, against the words read so far. */
  ghost predicate Buffers(r: Reading, spaced: string, squeezed: string) {
    && spaced == Padded(r.done) + r.word && squeezed == Concat(r.done) + r.word
    && ' ' !in r.word
  }

  lemma PaddedEndsWithSpace(words: seq<string>)
    ensures Padded(words)[|Padded(words)| - 1] == ' ' && EndsWith(Padded(words), " ")
  {
    assert Padded(words)[|Padded(words)| - 1..] == [Padded(words)[|Padded(words)| - 1]];
  }

  method PushLower(c: char, a: Alphabet, spaced: string, squeezed: string) returns (spaced': string, squeezed': string)
    ensures spaced' == spaced + a.lower(c) && squeezed' == squeezed + a.lower(c)
  {
    var lower := a.lower(c);
    spaced', squeezed' := spaced, squeezed;
    for k := 0 to |lower|
      invariant spaced' == spaced + lower[..k] && squeezed' == squeezed + lower[..k]
    {
      assert lower[..k + 1] == lower[..k] + [lower[k]];
      spaced', squeezed' := spaced' + [lower[k]], squeezed' + [lower[k]];
    }
    assert lower[..|lower|] == lower;
  }

  lemma SpaceAtEnd(padded: string, word: string)
    requires EndsWith(padded, " ") && ' ' !in word
    ensures EndsWith(padded + word, " ") <==> word == ""
  {
    if word == "" {
      assert padded + word == padded;
    } else {
      assert (padded + word)[|padded + word| - 1] == word[|word| - 1];
    }
  }

  lemma WordCloses(r: Reading, spaced: string)
    requires spaced == Padded(r.done) + r.word && ' ' !in r.word
    ensures EndsWith(spaced, " ") <==> r.word == ""
    ensures spaced + " " == Padded(r.done + [r.word])
    ensures r.word == "" ==> spaced == Padded(r.done)
  {
    SpacedPush(r.done, r.word);
    PaddedEndsWithSpace(r.done);
    SpaceAtEnd(Padded(r.done), r.word);
  }

  lemma SqueezedCloses(r: Reading)
    ensures Concat(r.done + [r.word]) == Concat(r.done) + r.word
  {
    ConcatAppend(r.done, [r.word]);
    assert [r.word][1..] == [];
  }

  lemma WordGrows(done: string, word: string, more: string)
    ensures done + word + more == done + (word + more)
  {
  }

  /** One character of the loop. */
  method FoldChar(c: char, a: Alphabet, spaced: string, squeezed: string, ghost r: Reading)
    returns (spaced': string, squeezed': string)
    requires Sound(a) && Buffers(r, spaced, squeezed)
    ensures Buffers(r.Next(c, a), spaced', squeezed')
  {
    spaced', squeezed' := spaced, squeezed;
    if !IsIgnorable(c) {
      if a.alphanumeric(c) {
        spaced', squeezed' := PushLower(c, a, spaced, squeezed);
        WordGrows(Padded(r.done), r.word, a.lower(c));
        WordGrows(Concat(r.done), r.word, a.lower(c));
      } else {
        WordCloses(r, spaced);
        SqueezedCloses(r);
        if !EndsWith(spaced, " ") {
          spaced' := spaced' + " ";
        }
      }
    }
  }

  /** Folds a text into its two forms: the words padded with spaces, and the words run together. */
  method Fold(text: string, a: Alphabet) returns (f: Folded)
    requires Sound(a)
    ensures f == Folded(Padded(FoldedWords(text, a)), Concat(FoldedWords(text, a)))
  {
    var spaced, squeezed := " ", "";
    assert Padded([]) + "" == " ";
    for i := 0 to |text|
      invariant Buffers(Read(text[..i], a), spaced, squeezed)
    {
      assert text[..i + 1][..i] == text[..i];
      spaced, squeezed := FoldChar(text[i], a, spaced, squeezed, Read(text[..i], a));
    }
    assert text[..|text|] == text;
    WordCloses(Read(text, a), spaced);
    SqueezedCloses(Read(text, a));
    if !EndsWith(spaced, " ") {
      spaced := spaced + " ";
    }
    f := Folded(spaced, squeezed);
  }

  // ---- Finding ----

  function FoldedOf(text: string, a: Alphabet): Folded {
    Folded(Padded(FoldedWords(text, a)), Concat(FoldedWords(text, a)))
  }

  predicate FoundSpaced(phrase: Folded, haystack: Folded) {
    phrase.squeezed != "" && Contains(haystack.spaced, phrase.spaced)
  }

  predicate FoundSqueezed(phrase: Folded, haystack: Folded) {
    phrase.squeezed != "" && Contains(haystack.squeezed, phrase.squeezed)
  }

  predicate FoundIn(phrase: Folded, haystack: Folded) {
    FoundSpaced(phrase, haystack) || FoundSqueezed(phrase, haystack)
  }

  /** Whether one list of words stands inside another, word for word. */
  ghost predicate IsSublist(needle: seq<string>, haystack: seq<string>) {
    exists i: nat :: StandsAt(needle, haystack, i)
  }

  ghost predicate StandsAt(needle: seq<string>, haystack: seq<string>, i: nat) {
    i + |needle| <= |haystack| && haystack[i..i + |needle|] == needle
  }

  ghost predicate AreWords(words: seq<string>) {
    forall w <- words :: w != "" && ' ' !in w
  }

  lemma {:induction false} FoldingMakesWords(text: string, a: Alphabet)
    requires Sound(a)
    ensures AreWords(Read(text, a).done) && ' ' !in Read(text, a).word
    ensures AreWords(FoldedWords(text, a))
  {
    if text != "" {
      FoldingMakesWords(text[..|text| - 1], a);
    }
  }

  lemma PaddedPush(init: seq<string>, last: string)
    ensures Padded(init + [last]) == Padded(init) + last + " "
  {
    SpacedPush(init, last);
    assert " " + (Spaced(init) + last + " ") == " " + Spaced(init) + last + " ";
  }

  /** Split at its spaces, a padded list of words is the list, with an empty string at each end. */
  lemma {:induction false} SplitPadded(words: seq<string>)
    requires AreWords(words)
    ensures Split(Padded(words), {' '}) == [""] + words + [""]
  {
    if words == [] {
      assert " "[1..] == "";
    } else {
      var init, last := words[..|words| - 1], words[|words| - 1];
      assert last in words && forall w <- init :: w in words;
      SplitPadded(init);
      PaddedEndsWithSpace(init);
      SplitLast(Padded(init), init, last);
      PaddedPush(init, last);
      assert words == init + [last];
    }
  }

  /** A space at the end leaves an empty string behind it. */
  lemma SplitClosed(a: string)
    ensures Split(a + " ", {' '}) == Split(a, {' '}) + [""]
  {
    assert a + [' '] + "" == a + " ";
    assert Split("", {' '}) == [""];
    SplitAppend(a, ' ', "", {' '});
  }

  lemma OneMoreWord(pieces: seq<string>, init: seq<string>, last: string)
    requires pieces + [""] == [""] + init + [""]
    ensures pieces + [last] + [""] == [""] + (init + [last]) + [""]
  {
    assert pieces == (pieces + [""])[..|pieces|] == [""] + init;
  }

  lemma SplitLast(padded: string, init: seq<string>, last: string)
    requires EndsWith(padded, " ") && ' ' !in last
    requires Split(padded, {' '}) == [""] + init + [""]
    ensures Split(padded + last + " ", {' '}) == [""] + (init + [last]) + [""]
  {
    var head := padded[..|padded| - 1];
    assert padded == head + " ";
    SplitClosed(head);
    OneMoreWord(Split(head, {' '}), init, last);
    SplitAppend(head, ' ', last, {' '});
    assert padded + last == head + [' '] + last;
    SplitFree(last, {' '});
    SplitClosed(padded + last);
  }

  /** Two spaces cut a string in three. */
  lemma SplitAround(x: string, inner: string, y: string)
    ensures Split(x + (" " + inner + " ") + y, {' '}) == Split(x, {' '}) + (Split(inner, {' '}) + Split(y, {' '}))
  {
    assert x + (" " + inner + " ") + y == x + [' '] + (inner + [' '] + y);
    SplitAppend(x, ' ', inner + [' '] + y, {' '});
    SplitAppend(inner, ' ', y, {' '});
  }

  /** Between its outer spaces, a padded list of words splits into the words. */
  lemma InnerSplits(needle: seq<string>) returns (inner: string)
    requires AreWords(needle) && needle != []
    ensures Padded(needle) == " " + inner + " " && Split(inner, {' '}) == needle
  {
    var n := Padded(needle);
    PaddedEndsWithSpace(needle);
    inner := n[1..|n| - 1];
    assert n == " " + inner + " ";
    SplitAround("", inner, "");
    assert "" + (" " + inner + " ") + "" == n;
    SplitPadded(needle);
    assert Split("", {' '}) == [""];
    Middle(Split(inner, {' '}), needle);
  }

  /** Where the padded phrase stands, its words stand. */
  lemma PaddedMatchIsSublist(needle: seq<string>, haystack: seq<string>, i: nat)
    requires AreWords(needle) && AreWords(haystack) && needle != [] && At(Padded(haystack), Padded(needle), i)
    ensures IsSublist(needle, haystack)
  {
    var h, n := Padded(haystack), Padded(needle);
    var x, y := h[..i], h[i + |n|..];
    assert h == x + n + y;
    var inner := InnerSplits(needle);
    SplitAround(x, inner, y);
    SplitPadded(haystack);
    SublistBetween(Split(x, {' '}), needle, Split(y, {' '}), haystack);
  }

  lemma Middle(a: seq<string>, b: seq<string>)
    requires [""] + (a + [""]) == [""] + b + [""]
    ensures a == b
  {
    var l, r := [""] + (a + [""]), [""] + b + [""];
    assert |a| == |b|;
    forall k | 0 <= k < |a|
      ensures a[k] == b[k]
    {
      assert l[k + 1] == a[k] && r[k + 1] == b[k];
    }
  }

  lemma SublistBetween(x: seq<string>, needle: seq<string>, y: seq<string>, haystack: seq<string>)
    requires x != [] && y != [] && x + (needle + y) == [""] + haystack + [""]
    ensures IsSublist(needle, haystack)
  {
    var i := |x| - 1;
    var whole := [""] + haystack + [""];
    forall k | 0 <= k < |needle|
      ensures haystack[i + k] == needle[k]
    {
      assert whole[|x| + k] == needle[k] && whole[|x| + k] == haystack[|x| + k - 1];
    }
    assert haystack[i..i + |needle|] == needle;
    assert StandsAt(needle, haystack, i);
  }

  /** Where its words stand, the padded phrase stands. */
  lemma SublistIsPaddedMatch(needle: seq<string>, haystack: seq<string>, i: nat)
    requires StandsAt(needle, haystack, i)
    ensures Contains(Padded(haystack), Padded(needle))
  {
    var a, b := haystack[..i], haystack[i + |needle|..];
    assert haystack == a + needle + b;
    SpacedAppend(a + needle, b);
    SpacedAppend(a, needle);
    PaddedEndsWithSpace(a);
    var at := |Padded(a)| - 1;
    assert Padded(haystack) == Padded(a) + Spaced(needle) + Spaced(b);
    assert Padded(haystack)[at..at + |Padded(needle)|] == Padded(needle);
    assert At(Padded(haystack), Padded(needle), at);
  }

  lemma NoWordsSqueezeToNothing(words: seq<string>)
    requires AreWords(words)
    ensures Concat(words) == "" <==> words == []
  {
    if words != [] {
      assert words[0] in words;
    }
  }

  lemma SublistIsSqueezedMatch(needle: seq<string>, haystack: seq<string>, i: nat)
    requires StandsAt(needle, haystack, i)
    ensures Contains(Concat(haystack), Concat(needle))
  {
    var x, y := haystack[..i], haystack[i + |needle|..];
    assert haystack == x + needle + y;
    ConcatAppend(x + needle, y);
    ConcatAppend(x, needle);
    assert At(Concat(haystack), Concat(needle), |Concat(x)|);
  }

  /** A spaced match is exactly the phrase's words standing together, whole, somewhere among the line's words. */
  lemma SpacedIff(phrase: string, line: string, a: Alphabet)
    requires Sound(a)
    ensures var needle, haystack := FoldedWords(phrase, a), FoldedWords(line, a);
            FoundSpaced(FoldedOf(phrase, a), FoldedOf(line, a)) <==> needle != [] && IsSublist(needle, haystack)
  {
    var needle, haystack := FoldedWords(phrase, a), FoldedWords(line, a);
    FoldingMakesWords(phrase, a);
    FoldingMakesWords(line, a);
    NoWordsSqueezeToNothing(needle);
    if FoundSpaced(FoldedOf(phrase, a), FoldedOf(line, a)) {
      var i :| 0 <= i <= |Padded(haystack)| - |Padded(needle)| && At(Padded(haystack), Padded(needle), i);
      PaddedMatchIsSublist(needle, haystack, i);
    }
    if needle != [] && IsSublist(needle, haystack) {
      var i: nat :| StandsAt(needle, haystack, i);
      SublistIsPaddedMatch(needle, haystack, i);
    }
  }

  /** A spaced match is always a squeezed one, so looking under both folds finds what the squeezed one finds. */
  lemma FoundInIsFoundSqueezed(phrase: string, line: string, a: Alphabet)
    requires Sound(a)
    ensures FoundIn(FoldedOf(phrase, a), FoldedOf(line, a)) == FoundSqueezed(FoldedOf(phrase, a), FoldedOf(line, a))
  {
    var needle, haystack := FoldedWords(phrase, a), FoldedWords(line, a);
    SpacedIff(phrase, line, a);
    if FoundSpaced(FoldedOf(phrase, a), FoldedOf(line, a)) {
      var i: nat :| StandsAt(needle, haystack, i);
      SublistIsSqueezedMatch(needle, haystack, i);
    }
  }

  // ---- Ignorable characters ----

  function WithoutIgnorables(text: string): string {
    if text == "" then ""
    else WithoutIgnorables(text[..|text| - 1]) + if IsIgnorable(text[|text| - 1]) then "" else [text[|text| - 1]]
  }

  /** Ignorable characters, wherever they stand, change neither fold. */
  lemma {:induction false} IgnorablesChangeNothing(text: string, a: Alphabet)
    ensures Read(WithoutIgnorables(text), a) == Read(text, a)
    ensures FoldedOf(WithoutIgnorables(text), a) == FoldedOf(text, a)
  {
    if text != "" {
      var init, last := text[..|text| - 1], text[|text| - 1];
      IgnorablesChangeNothing(init, a);
      if IsIgnorable(last) {
        assert WithoutIgnorables(init) + "" == WithoutIgnorables(init);
      } else {
        assert (WithoutIgnorables(init) + [last])[..|WithoutIgnorables(init)|] == WithoutIgnorables(init);
      }
    }
  }

  // ---- Scanning a text ----

  datatype Hit = Hit(phrase: string, line: nat)

  function HitsOn(phrases: seq<string>, line: string, number: nat, a: Alphabet): seq<Hit> {
    if phrases == [] then []
    else
      var last := phrases[|phrases| - 1];
      HitsOn(phrases[..|phrases| - 1], line, number, a)
      + if FoundIn(FoldedOf(last, a), FoldedOf(line, a)) then [Hit(last, number)] else []
  }

  /** The hits of every line in turn, numbered from one. */
  function HitsIn(lines: seq<string>, on: (string, nat) -> seq<Hit>): seq<Hit> {
    if lines == [] then []
    else HitsIn(lines[..|lines| - 1], on) + on(lines[|lines| - 1], AsU32(|lines| - 1) + 1)
  }

  /** What is found on a line with these phrases. */
  function Finder(phrases: seq<string>, a: Alphabet): (string, nat) -> seq<Hit> {
    (line: string, number: nat) => HitsOn(phrases, line, number, a)
  }

  method FoldAll(phrases: seq<string>, a: Alphabet) returns (folded: seq<Folded>)
    requires Sound(a)
    ensures |folded| == |phrases| && forall i | 0 <= i < |phrases| :: folded[i] == FoldedOf(phrases[i], a)
  {
    folded := [];
    for i := 0 to |phrases|
      invariant |folded| == i && forall k | 0 <= k < i :: folded[k] == FoldedOf(phrases[k], a)
    {
      var f := Fold(phrases[i], a);
      folded := folded + [f];
    }
  }

  method ScanLine(phrases: seq<string>, folded: seq<Folded>, line: string, number: nat, a: Alphabet) returns (hits: seq<Hit>)
    requires Sound(a)
    requires |folded| == |phrases| && forall i | 0 <= i < |phrases| :: folded[i] == FoldedOf(phrases[i], a)
    ensures hits == HitsOn(phrases, line, number, a)
  {
    var haystack := Fold(line, a);
    hits := [];
    for i := 0 to |phrases|
      invariant hits == HitsOn(phrases[..i], line, number, a)
    {
      assert phrases[..i + 1][..i] == phrases[..i];
      if FoundIn(folded[i], haystack) {
        hits := hits + [Hit(phrases[i], number)];
      }
    }
    assert phrases[..|phrases|] == phrases;
  }

  method ScanLines(phrases: seq<string>, folded: seq<Folded>, lines: seq<string>, a: Alphabet, ghost on: (string, nat) -> seq<Hit>)
    returns (hits: seq<Hit>)
    requires Sound(a) && forall line, n :: on(line, n) == HitsOn(phrases, line, n, a)
    requires |folded| == |phrases| && forall i | 0 <= i < |phrases| :: folded[i] == FoldedOf(phrases[i], a)
    ensures hits == HitsIn(lines, on)
  {
    hits := [];
    for i := 0 to |lines|
      invariant hits == HitsIn(lines[..i], on)
    {
      assert lines[..i + 1][..i] == lines[..i];
      var more := ScanLine(phrases, folded, lines[i], AsU32(i) + 1, a);
      hits := hits + more;
    }
    assert lines[..|lines|] == lines;
  }

  /** Scans a text line by line for every phrase. */
  method ScanText(phrases: seq<string>, text: string, a: Alphabet) returns (hits: seq<Hit>)
    requires Sound(a)
    ensures hits == HitsIn(Changes.LinesOf(text), Finder(phrases, a))
  {
    var folded := FoldAll(phrases, a);
    hits := ScanLines(phrases, folded, Changes.LinesOf(text), a, Finder(phrases, a));
  }

  lemma {:induction false} HitsOnHas(phrases: seq<string>, line: string, number: nat, a: Alphabet, h: Hit)
    ensures h in HitsOn(phrases, line, number, a)
            <==> h.line == number && h.phrase in phrases && FoundIn(FoldedOf(h.phrase, a), FoldedOf(line, a))
  {
    if phrases != [] {
      var init, last := phrases[..|phrases| - 1], phrases[|phrases| - 1];
      assert phrases == init + [last];
      HitsOnHas(init, line, number, a, h);
    }
  }

  // ---- What is compared ----

  /** What one character leaves: its lower case if it is a letter or a digit that is not ignored, otherwise nothing. */
  function Letters(a: Alphabet): char -> string {
    (c: char) => if !IsIgnorable(c) && a.alphanumeric(c) then a.lower(c) else ""
  }

  predicate Separates(c: char, a: Alphabet) {
    !IsIgnorable(c) && !a.alphanumeric(c)
  }

  /** Run together, a text's words are what its characters leave, one after the other. */
  lemma {:induction false} SqueezedIsLetters(text: string, a: Alphabet)
    ensures Concat(FoldedWords(text, a)) == FlatMap(text, Letters(a))
    ensures Concat(Read(text, a).done) + Read(text, a).word == FlatMap(text, Letters(a))
  {
    if text != "" {
      SqueezedIsLetters(text[..|text| - 1], a);
      SqueezedCloses(Read(text[..|text| - 1], a));
      WordGrows(Concat(Read(text[..|text| - 1], a).done), Read(text[..|text| - 1], a).word, Letters(a)(text[|text| - 1]));
    }
    SqueezedCloses(Read(text, a));
  }

  /** A text is cut into words at its separators and nowhere else: between two of them is one word, or none. */
  lemma {:induction false} WordsAreCut(x: string, c: char, y: string, a: Alphabet)
    requires Separates(c, a)
    ensures FoldedWords(x + [c] + y, a) == FoldedWords(x, a) + FoldedWords(y, a)
    ensures Read(x + [c] + y, a) == Reading(FoldedWords(x, a) + Read(y, a).done, Read(y, a).word)
    decreases |y|
  {
    var text := x + [c] + y;
    if y == "" {
      assert text[..|x|] == x && text[|x|] == c;
    } else {
      assert text[..|text| - 1] == x + [c] + y[..|y| - 1];
      WordsAreCut(x, c, y[..|y| - 1], a);
    }
  }

  lemma {:induction false} UncutIsOneWord(text: string, a: Alphabet)
    requires forall c <- text :: !Separates(c, a)
    ensures FoldedWords(text, a) == if FlatMap(text, Letters(a)) == "" then [] else [FlatMap(text, Letters(a))]
    ensures Read(text, a) == Reading([], FlatMap(text, Letters(a)))
  {
    if text != "" {
      var init := text[..|text| - 1];
      assert forall c <- init :: c in text;
      UncutIsOneWord(init, a);
      assert text[|text| - 1] in text;
      assert FlatMap(init, Letters(a)) + "" == FlatMap(init, Letters(a));
    }
  }

  /** Whether one of the corpus's phrases, its words run together, stands in the line's words run together. */
  predicate Carries(line: string, phrase: string, a: Alphabet) {
    FlatMap(phrase, Letters(a)) != "" && Contains(FlatMap(line, Letters(a)), FlatMap(phrase, Letters(a)))
  }

  ghost predicate Reported(hits: seq<Hit>, phrase: string) {
    exists h <- hits :: h.phrase == phrase
  }

  lemma ReportedOn(phrases: seq<string>, line: string, number: nat, a: Alphabet, phrase: string)
    requires Sound(a)
    ensures Reported(HitsOn(phrases, line, number, a), phrase) <==> phrase in phrases && Carries(line, phrase, a)
  {
    FoldingMakesWords(phrase, a);
    NoWordsSqueezeToNothing(FoldedWords(phrase, a));
    FoundInIsFoundSqueezed(phrase, line, a);
    SqueezedIsLetters(phrase, a);
    SqueezedIsLetters(line, a);
    var hits := HitsOn(phrases, line, number, a);
    HitsOnHas(phrases, line, number, a, Hit(phrase, number));
    if h :| h in hits && h.phrase == phrase {
      HitsOnHas(phrases, line, number, a, h);
    }
  }

  lemma ReportedAppend(x: seq<Hit>, y: seq<Hit>, phrase: string)
    ensures Reported(x + y, phrase) <==> Reported(x, phrase) || Reported(y, phrase)
  {
    if h :| h in x && h.phrase == phrase {
      assert h in x + y;
    }
    if h :| h in y && h.phrase == phrase {
      assert h in x + y;
    }
  }

  lemma {:induction false} SomeLineReports(lines: seq<string>, on: (string, nat) -> seq<Hit>, phrase: string, carries: string -> bool)
    requires forall line, n :: Reported(on(line, n), phrase) <==> carries(line)
    ensures Reported(HitsIn(lines, on), phrase) <==> exists line <- lines :: carries(line)
  {
    if lines != [] {
      var init, last := lines[..|lines| - 1], lines[|lines| - 1];
      assert lines == init + [last];
      SomeLineReports(init, on, phrase, carries);
      ReportedAppend(HitsIn(init, on), on(last, AsU32(|lines| - 1) + 1), phrase);
    }
  }

  /** Whether a line of this number, counted from one, is one of those asked for. */
  ghost predicate IsLine(lines: seq<string>, number: nat, carries: string -> bool) {
    exists i: nat :: StandsOn(lines, number, carries, i)
  }

  ghost predicate StandsOn(lines: seq<string>, number: nat, carries: string -> bool, i: nat) {
    i < |lines| && number == AsU32(i) + 1 && carries(lines[i])
  }

  lemma OneMoreLine(init: seq<string>, last: string, number: nat, carries: string -> bool)
    ensures IsLine(init + [last], number, carries)
            <==> IsLine(init, number, carries) || (number == AsU32(|init|) + 1 && carries(last))
  {
    var lines := init + [last];
    if i: nat :| StandsOn(init, number, carries, i) {
      assert StandsOn(lines, number, carries, i);
    }
    if i: nat :| StandsOn(lines, number, carries, i) {
      assert i < |init| ==> StandsOn(init, number, carries, i);
    }
    if number == AsU32(|init|) + 1 && carries(last) {
      assert StandsOn(lines, number, carries, |init|);
    }
  }

  lemma {:induction false} HitsAreLines(lines: seq<string>, on: (string, nat) -> seq<Hit>, h: Hit, carries: string -> bool)
    requires forall line, n :: h in on(line, n) <==> h.line == n && carries(line)
    ensures h in HitsIn(lines, on) <==> IsLine(lines, h.line, carries)
  {
    if lines != [] {
      var init, last := lines[..|lines| - 1], lines[|lines| - 1];
      HitsAreLines(init, on, h, carries);
      OneMoreLine(init, last, h.line, carries);
      assert init + [last] == lines;
      assert h in on(last, AsU32(|init|) + 1) <==> h.line == AsU32(|init|) + 1 && carries(last);
    }
  }

  /** Every hit is a phrase of the corpus that a line carries, under that line's number, counted from one. */
  lemma HitsAre(phrases: seq<string>, lines: seq<string>, a: Alphabet, h: Hit)
    requires Sound(a)
    ensures h in HitsIn(lines, Finder(phrases, a))
            <==> IsLine(lines, h.line, (line: string) => h.phrase in phrases && Carries(line, h.phrase, a))
  {
    var carries := (line: string) => h.phrase in phrases && Carries(line, h.phrase, a);
    forall line, n
      ensures h in Finder(phrases, a)(line, n) <==> h.line == n && carries(line)
    {
      HitOnLine(phrases, line, n, a, h);
    }
    HitsAreLines(lines, Finder(phrases, a), h, carries);
  }

  lemma HitOnLine(phrases: seq<string>, line: string, number: nat, a: Alphabet, h: Hit)
    requires Sound(a)
    ensures h in Finder(phrases, a)(line, number) <==> h.line == number && h.phrase in phrases && Carries(line, h.phrase, a)
  {
    HitsOnHas(phrases, line, number, a, h);
    FoldingMakesWords(h.phrase, a);
    NoWordsSqueezeToNothing(FoldedWords(h.phrase, a));
    FoundInIsFoundSqueezed(h.phrase, line, a);
    SqueezedIsLetters(h.phrase, a);
    SqueezedIsLetters(line, a);
  }

  /** A scan reports exactly the phrases some line carries, and reports none that is all punctuation. */
  lemma ScanReportsIff(phrases: seq<string>, lines: seq<string>, a: Alphabet, phrase: string)
    requires Sound(a)
    ensures Reported(HitsIn(lines, Finder(phrases, a)), phrase)
            <==> phrase in phrases && exists line <- lines :: Carries(line, phrase, a)
  {
    var carries := (line: string) => phrase in phrases && Carries(line, phrase, a);
    forall line, n
      ensures Reported(Finder(phrases, a)(line, n), phrase) <==> carries(line)
    {
      ReportedOn(phrases, line, n, a, phrase);
    }
    SomeLineReports(lines, Finder(phrases, a), phrase, carries);
  }
}
