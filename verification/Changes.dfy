/** What a run changed: each file's two texts, and the totals that caps are set on. */
module Changes {
  import opened Common
  import opened Diff
  import opened Scope

  datatype ChangeKind = Added | Modified | Deleted | Renamed(from: string)

  datatype FileChange = FileChange(path: string, kind: ChangeKind, before: Option<string>, after: Option<string>)

  /** `str::lines`: newline-terminated pieces, a trailing carriage return dropped with its newline. */
  function LinesOf(text: string): seq<string> {
    LinesFrom(text, "")
  }

  function LinesFrom(text: string, line: string): seq<string> {
    if text == [] then if line == "" then [] else [line]
    else if text[0] == '\n' then [DropReturn(line)] + LinesFrom(text[1..], "")
    else LinesFrom(text[1..], line + [text[0]])
  }

  function DropReturn(line: string): string {
    if line != "" && line[|line| - 1] == '\r' then line[..|line| - 1] else line
  }

  function SideLines(side: Option<string>): seq<string> {
    match side
    case None => []
    case Some(text) => LinesOf(text)
  }

  function FileLines(f: FileChange): LineCount {
    Counts(SideLines(f.before), SideLines(f.after))
  }

  /** Counts one change from its two texts. */
  method Lines(f: FileChange) returns (r: LineCount)
    ensures r == FileLines(f)
  {
    r := Count(SideLines(f.before), SideLines(f.after));
  }

  /** Printing lines and reading them back, for lines that hold no line break of their own. */
  lemma {:induction false} LinesRoundTrip(lines: seq<string>)
    requires forall line <- lines :: '\n' !in line && (line != "" ==> line[|line| - 1] != '\r')
    ensures LinesOf(Terminated(lines)) == lines
  {
    if lines != [] {
      assert lines[0] in lines;
      LinesRoundTrip(lines[1..]);
      LineThenRest("", lines[0], Terminated(lines[1..]));
      assert "" + lines[0] == lines[0] && lines == [lines[0]] + lines[1..];
      assert Terminated(lines) == lines[0] + ['\n'] + Terminated(lines[1..]);
    }
  }

  ghost function Terminated(lines: seq<string>): string {
    if lines == [] then "" else lines[0] + ['\n'] + Terminated(lines[1..])
  }

  lemma {:induction false} LineThenRest(done: string, line: string, rest: string)
    requires '\n' !in line
    ensures LinesFrom(line + ['\n'] + rest, done) == [DropReturn(done + line)] + LinesFrom(rest, "")
    decreases |line|
  {
    var text := line + ['\n'] + rest;
    if line == "" {
      assert text[1..] == rest && done + line == done;
    } else {
      assert line[0] in line && text[0] == line[0];
      assert text[1..] == line[1..] + ['\n'] + rest;
      LineThenRest(done + [line[0]], line[1..], rest);
      assert done + [line[0]] + line[1..] == done + line;
    }
  }

  /** Lines each ended by a line break, and what stands after the last: a carriage return goes with its line break. */
  lemma {:induction false} LinesMean(lines: seq<string>, last: string)
    requires (forall line <- lines :: '\n' !in line) && '\n' !in last
    ensures LinesOf(Terminated(lines) + last) == Dropped(lines) + if last == "" then [] else [last]
    decreases |lines|
  {
    if lines == [] {
      LastLineIs("", last);
      assert "" + last == last;
    } else {
      assert lines[0] in lines && forall line <- lines[1..] :: line in lines;
      LinesMean(lines[1..], last);
      FirstLineThenRest(lines[0], Terminated(lines[1..]), last);
      AppendRegroups([DropReturn(lines[0])], Dropped(lines[1..]), if last == "" then [] else [last]);
      DroppedHead(lines);
    }
  }

  lemma FirstLineThenRest(line: string, rest: string, last: string)
    requires '\n' !in line
    ensures LinesOf(line + ['\n'] + rest + last) == [DropReturn(line)] + LinesOf(rest + last)
  {
    LineThenRest("", line, rest + last);
    assert "" + line == line && line + ['\n'] + rest + last == line + ['\n'] + (rest + last);
  }

  lemma DroppedHead(lines: seq<string>)
    requires lines != []
    ensures Dropped(lines) == [DropReturn(lines[0])] + Dropped(lines[1..])
  {
  }

  lemma {:induction false} LastLineIs(done: string, last: string)
    requires '\n' !in last
    ensures LinesFrom(last, done) == if done + last == "" then [] else [done + last]
    decreases |last|
  {
    if last != "" {
      assert last[0] in last;
      LastLineIs(done + [last[0]], last[1..]);
      assert done + [last[0]] + last[1..] == done + last;
    } else {
      assert done + last == done;
    }
  }

  /** Each line without the carriage return it ends in, if it ends in one. */
  ghost function Dropped(lines: seq<string>): (dropped: seq<string>)
    ensures |dropped| == |lines| && forall i | 0 <= i < |lines| ::
              if EndsInReturn(lines[i]) then lines[i] == dropped[i] + ['\r'] else dropped[i] == lines[i]
  {
    seq(|lines|, i requires 0 <= i < |lines| => DropReturn(lines[i]))
  }

  predicate EndsInReturn(line: string) {
    line != "" && line[|line| - 1] == '\r'
  }

  // ---- Totals over a change set ----

  function FilesChanged(files: seq<FileChange>): nat {
    AsU32(|files|)
  }

  function LineTotal(f: FileChange): nat {
    FileLines(f).Total()
  }

  function LinesChanged(files: seq<FileChange>): nat {
    SaturatingSum(files, LineTotal)
  }

  /** The lines one file changes, held at the largest 32-bit value. */
  function LinesOfFile(f: FileChange): nat {
    Min(FileLines(f).added + FileLines(f).removed, U32_RANGE - 1)
  }

  /** A change set's lines are those its files add and remove, held at the largest 32-bit value. */
  lemma LinesChangedMeans(files: seq<FileChange>)
    ensures LinesChanged(files) == Min(SumBy(files, LinesOfFile), U32_RANGE - 1)
  {
    SaturatingSumIsCapped(files, LineTotal);
    forall f | f in files
      ensures LineTotal(f) == LinesOfFile(f)
    {
    }
    SumBySame(files, LineTotal, LinesOfFile);
  }

  /** Paths whose change deletes a page; renaming one does not count. */
  function DeletedPages(files: seq<FileChange>, layout: Layout): seq<string> {
    if files == [] then []
    else (if IsPageDeletion(layout, files[0]) then [files[0].path] else []) + DeletedPages(files[1..], layout)
  }

  predicate IsPageDeletion(layout: Layout, f: FileChange) {
    f.kind == Deleted && Classify(layout, f.path).Page?
  }

  ghost function DeletionWeight(layout: Layout): FileChange -> nat {
    (f: FileChange) => if IsPageDeletion(layout, f) then 1 else 0
  }

  lemma {:induction false} DeletedPagesIsSum(files: seq<FileChange>, layout: Layout)
    ensures |DeletedPages(files, layout)| == SumBy(files, DeletionWeight(layout)) <= |files|
  {
    if files != [] {
      DeletedPagesIsSum(files[1..], layout);
    }
  }

  /** The changes that delete a page, by where they stand. */
  ghost function PageDeletions(files: seq<FileChange>, layout: Layout): set<nat> {
    set i: nat | i < |files| && files[i].kind == Deleted && Classify(layout, files[i].path).Page?
  }

  lemma DeletionsPush(files: seq<FileChange>, f: FileChange, layout: Layout)
    ensures PageDeletions(files + [f], layout)
            == PageDeletions(files, layout) + if f.kind == Deleted && Classify(layout, f.path).Page? then {|files|} else {}
  {
    forall i: nat
      ensures i in PageDeletions(files + [f], layout)
              <==> i in PageDeletions(files, layout) || (i == |files| && f.kind == Deleted && Classify(layout, f.path).Page?)
    {
      assert i < |files| ==> (files + [f])[i] == files[i];
    }
  }

  lemma {:induction false} DeletionsAre(files: seq<FileChange>, layout: Layout)
    ensures SumBy(files, DeletionWeight(layout)) == |PageDeletions(files, layout)|
  {
    if files == [] {
      assert PageDeletions(files, layout) == {};
    } else {
      var init, last := files[..|files| - 1], files[|files| - 1];
      assert files == init + [last];
      DeletionsAre(init, layout);
      DeletionsPush(init, last, layout);
      SumByPush(init, last, DeletionWeight(layout));
    }
  }

  /** The pages deleted are the changes of kind deleted to a path that classifies as a page. */
  lemma DeletedPagesMean(files: seq<FileChange>, layout: Layout)
    ensures |DeletedPages(files, layout)| == |PageDeletions(files, layout)|
  {
    DeletedPagesIsSum(files, layout);
    DeletionsAre(files, layout);
  }

  /** Taking files out of a change set, in any order, never raises its lines, nor its true counts. */
  lemma TotalsAreMonotone(part: seq<FileChange>, whole: seq<FileChange>, layout: Layout)
    requires multiset(part) <= multiset(whole)
    ensures |part| <= |whole|
    ensures LinesChanged(part) <= LinesChanged(whole)
    ensures |DeletedPages(part, layout)| <= |DeletedPages(whole, layout)| <= |whole|
  {
    SubMultisetSize(part, whole);
    SaturatingSumIsCapped(part, LineTotal);
    SaturatingSumIsCapped(whole, LineTotal);
    SumBySubMultiset(part, whole, LineTotal);
    DeletedPagesIsSum(part, layout);
    DeletedPagesIsSum(whole, layout);
    SumBySubMultiset(part, whole, DeletionWeight(layout));
  }

  lemma SubMultisetSize<T>(part: seq<T>, whole: seq<T>)
    requires multiset(part) <= multiset(whole)
    ensures |part| <= |whole|
  {
    var rest := multiset(whole) - multiset(part);
    assert multiset(whole) == multiset(part) + rest;
    assert |multiset(part)| == |part| && |multiset(whole)| == |whole|;
  }

  lemma PrefixIsPart<T>(whole: seq<T>, n: nat)
    requires n <= |whole|
    ensures multiset(whole[..n]) <= multiset(whole)
  {
    assert whole == whole[..n] + whole[n..];
  }

  /**
   * The reported number of files, a 32-bit cast, never rises when files are taken out exactly when there are
   * fewer than 2^32 of them, or the cast happens to give the largest number there is.
   */
  lemma FileCountIsMonotoneIff(whole: seq<FileChange>)
    ensures (forall part | multiset(part) <= multiset(whole) :: FilesChanged(part) <= FilesChanged(whole))
            <==> |whole| < U32_RANGE || FilesChanged(whole) == U32_RANGE - 1
  {
    if |whole| < U32_RANGE || FilesChanged(whole) == U32_RANGE - 1 {
      forall part | multiset(part) <= multiset(whole)
        ensures FilesChanged(part) <= FilesChanged(whole)
      {
        SubMultisetSize(part, whole);
      }
    } else {
      var part := whole[..U32_RANGE - 1];
      PrefixIsPart(whole, U32_RANGE - 1);
      assert FilesChanged(part) == U32_RANGE - 1;
    }
  }

  /** Some first part of a change set deletes exactly so many pages. */
  lemma {:induction false} PrefixWithDeletions(files: seq<FileChange>, layout: Layout, k: nat) returns (n: nat)
    requires k <= |DeletedPages(files, layout)|
    ensures n <= |files| && |DeletedPages(files[..n], layout)| == k
    decreases |files|
  {
    n := |files|;
    assert files[..n] == files;
    if |DeletedPages(files, layout)| > k {
      var init, last := files[..n - 1], files[n - 1];
      assert files == init + [last];
      SumByAppend(init, [last], DeletionWeight(layout));
      DeletedPagesIsSum(files, layout);
      DeletedPagesIsSum(init, layout);
      assert SumBy([last], DeletionWeight(layout)) == DeletionWeight(layout)(last) <= 1;
      n := PrefixWithDeletions(init, layout, k);
      assert init[..n] == files[..n];
    }
  }

  // ---- What the counts of one file mean ----

  /** A script of edits from one side's lines to the other's. */
  ghost predicate Turns(script: seq<Edit<string>>, f: FileChange) {
    Rewrites(script, SideLines(f.before), SideLines(f.after))
  }

  ghost predicate SidesFit(f: FileChange) {
    |SideLines(f.before)| < U32_RANGE && |SideLines(f.after)| < U32_RANGE
  }

  /** What is reported of a file is at least what some script does to it, and unless it is a bound at most what any does. */
  lemma LinesAreLeast(f: FileChange)
    requires SidesFit(f)
    ensures exists script :: Turns(script, f)
              && Insertions(script) <= FileLines(f).added && Deletions(script) <= FileLines(f).removed
    ensures !FileLines(f).bounded ==> forall script :: Turns(script, f) ==>
              FileLines(f).added <= Insertions(script) && FileLines(f).removed <= Deletions(script)
  {
    var least := CountsNeverUnder(SideLines(f.before), SideLines(f.after));
    assert Turns(least, f);
    if !FileLines(f).bounded {
      forall script | Turns(script, f)
        ensures FileLines(f).added <= Insertions(script) && FileLines(f).removed <= Deletions(script)
      {
        CountsNeverOver(script, SideLines(f.before), SideLines(f.after));
      }
    }
  }
}
