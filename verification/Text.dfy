/** Strings as sequences of characters: splitting, joining, searching. */
module Text {

  predicate StartsWith(s: string, prefix: string) {
    prefix <= s
  }

  predicate EndsWith(s: string, suffix: string) {
    |suffix| <= |s| && s[|s| - |suffix|..] == suffix
  }

  /** `str::contains` for a string needle. */
  predicate Contains(s: string, needle: string) {
    exists i | 0 <= i <= |s| - |needle| :: At(s, needle, i)
  }

  /** Whether `needle` stands in `s` at `i`. */
  predicate At(s: string, needle: string, i: nat) {
    i + |needle| <= |s| && s[i..i + |needle|] == needle
  }

  /** `str::split` on any character of `seps`; never empty. */
  function Split(s: string, seps: set<char>): (parts: seq<string>)
    ensures parts != []
  {
    if s == [] then [""]
    else
      var rest := Split(s[1..], seps);
      if s[0] in seps then [""] + rest else [[s[0]] + rest[0]] + rest[1..]
  }

  function Join(parts: seq<string>, sep: string): string {
    if parts == [] then ""
    else if |parts| == 1 then parts[0]
    else parts[0] + sep + Join(parts[1..], sep)
  }

  ghost predicate Free(part: string, seps: set<char>) {
    forall c <- seps :: c !in part
  }

  ghost predicate AllFree(parts: seq<string>, seps: set<char>) {
    forall part <- parts :: Free(part, seps)
  }

  lemma {:induction false} SplitFree(s: string, seps: set<char>)
    requires Free(s, seps)
    ensures Split(s, seps) == [s]
  {
    if s != [] {
      assert s[0] in s && s[0] !in seps;
      assert Free(s[1..], seps);
      SplitFree(s[1..], seps);
      assert [s[0]] + s[1..] == s;
    }
  }

  lemma {:induction false} PartsAreFree(s: string, seps: set<char>)
    ensures AllFree(Split(s, seps), seps)
  {
    if s != [] {
      PartsAreFree(s[1..], seps);
      var rest := Split(s[1..], seps);
      assert Free(rest[0], seps);
    }
  }

  /** A separator in the middle splits the two halves independently. */
  lemma SplitStep(c: char, rest: string, seps: set<char>)
    ensures Split([c] + rest, seps)
            == var parts := Split(rest, seps); if c in seps then [""] + parts else [[c] + parts[0]] + parts[1..]
  {
    assert ([c] + rest)[1..] == rest;
  }

  lemma HeadGrows(c: char, a: seq<string>, b: seq<string>)
    requires a != []
    ensures [[c] + (a + b)[0]] + (a + b)[1..] == [[c] + a[0]] + a[1..] + b
    ensures [""] + (a + b) == [""] + a + b
  {
  }

  lemma {:induction false} SplitAppend(a: string, c: char, b: string, seps: set<char>)
    requires c in seps
    ensures Split(a + [c] + b, seps) == Split(a, seps) + Split(b, seps)
  {
    if a == [] {
      assert a + [c] + b == [c] + b;
      SplitStep(c, b, seps);
    } else {
      assert a + [c] + b == [a[0]] + (a[1..] + [c] + b) && a == [a[0]] + a[1..];
      SplitAppend(a[1..], c, b, seps);
      SplitStep(a[0], a[1..] + [c] + b, seps);
      SplitStep(a[0], a[1..], seps);
      HeadGrows(a[0], Split(a[1..], seps), Split(b, seps));
    }
  }

  lemma {:induction false} SplitJoin(parts: seq<string>, c: char)
    requires parts != [] && AllFree(parts, {c})
    ensures Split(Join(parts, [c]), {c}) == parts
  {
    assert parts[0] in parts;
    SplitFree(parts[0], {c});
    if |parts| > 1 {
      SplitAppend(parts[0], c, Join(parts[1..], [c]), {c});
      SplitJoin(parts[1..], c);
      assert parts == [parts[0]] + parts[1..];
    }
  }

  lemma {:induction false} JoinSplit(s: string, c: char)
    ensures Join(Split(s, {c}), [c]) == s
  {
    if s != [] {
      JoinSplit(s[1..], c);
      var rest := Split(s[1..], {c});
      if s[0] == c {
        assert ([""] + rest)[1..] == rest;
      } else {
        var parts := [[s[0]] + rest[0]] + rest[1..];
        if |rest| > 1 {
          assert parts[1..] == rest[1..];
          assert Join(parts, [c]) == [s[0]] + (rest[0] + [c] + Join(rest[1..], [c]));
        }
      }
    }
  }

  /** The index of the last `c`, or `|s|` when there is none. */
  function LastIndexOf(s: string, c: char): (i: nat)
    ensures i <= |s|
    ensures i < |s| ==> s[i] == c && c !in s[i + 1..]
    ensures i == |s| ==> c !in s
  {
    if s == [] then 0
    else if s[|s| - 1] == c then |s| - 1
    else
      var init := s[..|s| - 1];
      var i := LastIndexOf(init, c);
      assert s == init + [s[|s| - 1]];
      if i == |init| then |s| else (assert s[i + 1..] == init[i + 1..] + [s[|s| - 1]]; i)
  }

  /** The index of the first `c`, or `|s|` when there is none. */
  function FirstIndexOf(s: string, c: char): (i: nat)
    ensures i <= |s| && c !in s[..i] && (i < |s| ==> s[i] == c)
  {
    if s == "" || s[0] == c then 0
    else
      var i := FirstIndexOf(s[1..], c);
      assert s[..i + 1] == [s[0]] + s[1..][..i];
      i + 1
  }

  /** `str::trim_matches` for one character. */
  function TrimChar(s: string, c: char): (r: string)
    decreases |s|
  {
    if s != [] && s[0] == c then TrimChar(s[1..], c)
    else if s != [] && s[|s| - 1] == c then TrimChar(s[..|s| - 1], c)
    else s
  }

  // ---- What a joined string holds ----

  lemma ContainsWithin(x: string, inner: string, y: string, needle: string)
    requires Contains(inner, needle)
    ensures Contains(x + inner + y, needle)
  {
    var i :| 0 <= i <= |inner| - |needle| && At(inner, needle, i);
    var s := x + inner + y;
    assert s[|x| + i..|x| + i + |needle|] == inner[i..i + |needle|];
    assert At(s, needle, |x| + i);
  }

  lemma ContainsItself(s: string)
    ensures Contains(s, s)
  {
    assert s[0..|s|] == s && At(s, s, 0);
  }

  /** Joined parts each stand in the whole. */
  lemma {:induction false} JoinContains(parts: seq<string>, sep: string, i: nat)
    requires i < |parts|
    ensures Contains(Join(parts, sep), parts[i])
    decreases |parts|
  {
    ContainsItself(parts[i]);
    if |parts| > 1 {
      var rest := Join(parts[1..], sep);
      if i == 0 {
        ContainsWithin("", parts[0], sep + rest, parts[0]);
        assert "" + parts[0] + (sep + rest) == parts[0] + sep + rest;
      } else {
        JoinContains(parts[1..], sep, i - 1);
        ContainsWithin(parts[0] + sep, rest, "", parts[i]);
        assert parts[0] + sep + rest + "" == parts[0] + sep + rest;
      }
    }
  }

  /** One string stands in another, and a second one stands past its end. */
  ghost predicate StandsBefore(s: string, first: string, second: string) {
    exists i: nat, j: nat :: At(s, first, i) && At(s, second, j) && i + |first| <= j
  }

  lemma BeforeBehind(x: string, s: string, first: string, second: string)
    requires StandsBefore(s, first, second)
    ensures StandsBefore(x + s, first, second)
  {
    var i: nat, j: nat :| At(s, first, i) && At(s, second, j) && i + |first| <= j;
    AtBehind(x, s, first, i);
    AtBehind(x, s, second, j);
  }

  lemma AtBehind(x: string, s: string, needle: string, i: nat)
    requires At(s, needle, i)
    ensures At(x + s, needle, |x| + i)
  {
    assert (x + s)[|x| + i..|x| + i + |needle|] == s[i..i + |needle|];
  }

  /** Joined parts stand in the whole in their order. */
  lemma {:induction false} JoinKeepsOrder(parts: seq<string>, sep: string, i: nat, j: nat)
    requires i < j < |parts|
    ensures StandsBefore(Join(parts, sep), parts[i], parts[j])
    decreases |parts|
  {
    var rest := Join(parts[1..], sep);
    if i == 0 {
      JoinContains(parts[1..], sep, j - 1);
      var at :| 0 <= at <= |rest| - |parts[j]| && At(rest, parts[j], at);
      AtBehind(parts[0] + sep, rest, parts[j], at);
      assert (parts[0] + sep + rest)[0..|parts[0]|] == parts[0];
      assert At(Join(parts, sep), parts[0], 0);
    } else {
      JoinKeepsOrder(parts[1..], sep, i - 1, j - 1);
      BeforeBehind(parts[0] + sep, rest, parts[i], parts[j]);
    }
  }

  // ---- Ordering, for the source's sorted maps and sorted findings ----

  /** Strings compare character by character, a prefix first. */
  predicate LexLeq(a: string, b: string) {
    a == [] || (b != [] && (a[0] < b[0] || (a[0] == b[0] && LexLeq(a[1..], b[1..]))))
  }

  lemma {:induction false} LexTotal(a: string, b: string)
    ensures LexLeq(a, b) || LexLeq(b, a)
    ensures LexLeq(a, b) && LexLeq(b, a) ==> a == b
  {
    if a != [] && b != [] {
      LexTotal(a[1..], b[1..]);
    }
  }

  lemma {:induction false} LexTransitive(a: string, b: string, c: string)
    requires LexLeq(a, b) && LexLeq(b, c)
    ensures LexLeq(a, c)
  {
    if a != [] && b != [] && a[0] == b[0] && c != [] && b[0] == c[0] {
      LexTransitive(a[1..], b[1..], c[1..]);
    }
  }
}
