/** The output gate: every check over one diff, and exactly when it refuses a proposal. */
module Gates {
  import opened Common
  import opened Text
  import opened Sorting
  import opened Scope
  import opened Trust
  import opened Changes

  datatype Check =
    | FilesChangedCheck
    | LinesChangedCheck
    | PagesDeletedCheck
    | OutOfScopeCheck
    | UnreadableFrontmatter
    | Secret
    | AccessField
    | ConfigChanged
    | NewExternalHost
    | InjectionPhrase

  datatype Verdict = Flag | Reject

  datatype Finding = Finding(check: Check, verdict: Verdict, path: Option<string>, line: Option<nat>)

  datatype Limits = Limits(maxFilesChanged: nat, maxLinesChanged: nat, maxPagesDeleted: nat)

  /** A match of a scanner: what it is compared by, and the line it is on. */
  datatype Hit<K> = Hit(key: K, line: nat)

  /** The scanners the gate runs over a file's text; `Scans` says what two of them are. */
  datatype Scanners = Scanners(
    /** The config areas a change reached, or none when a side does not parse. */
    configAreas: (Option<string>, Option<string>) -> Option<seq<ConfigArea>>,
    /** Whether a watched front matter field changed, or none when a side does not parse. */
    accessChanged: (Option<string>, Option<string>) -> Option<bool>,
    /** Secrets are compared by pattern and by their line with the secret cut out. */
    secrets: string -> seq<Hit<(string, string)>>,
    hosts: string -> seq<Hit<string>>,
    phrases: string -> seq<Hit<string>>)

  datatype Inputs = Inputs(
    files: seq<FileChange>,
    restrictions: Restrictions,
    limits: Limits,
    layout: Layout,
    knownHosts: set<string>,
    scanners: Scanners,
    allowBulkDelete: bool)

  datatype Report = Report(findings: seq<Finding>) {
    predicate Rejected() {
      exists f <- findings :: f.verdict == Reject
    }
  }

  // ---- The checks, in the order they run ----

  function Whole(check: Check): Finding {
    Finding(check, Reject, None, None)
  }

  function SizeFindings(inputs: Inputs): seq<Finding> {
    (if FilesChanged(inputs.files) > inputs.limits.maxFilesChanged then [Whole(FilesChangedCheck)] else [])
    + (if LinesChanged(inputs.files) > inputs.limits.maxLinesChanged then [Whole(LinesChangedCheck)] else [])
  }

  function DeletionFindings(inputs: Inputs): seq<Finding> {
    var deleted := AsU32(|DeletedPages(inputs.files, inputs.layout)|);
    if deleted > inputs.limits.maxPagesDeleted && !inputs.allowBulkDelete then [Whole(PagesDeletedCheck)] else []
  }

  /** The config areas one file's change reached; an unparseable side is the generic area. */
  function AreasOf(inputs: Inputs, file: FileChange): seq<ConfigArea> {
    if !Classify(inputs.layout, file.path).Config? then []
    else match inputs.scanners.configAreas(file.before, file.after)
      case Some(areas) => areas
      case None => [Unspecified]
  }

  predicate ConfigUnparseable(inputs: Inputs, file: FileChange) {
    Classify(inputs.layout, file.path).Config? && inputs.scanners.configAreas(file.before, file.after).None?
  }

  /** Everything one file's change writes to: its areas or itself, and a rename's old path. */
  function TargetsOf(inputs: Inputs, file: FileChange): seq<Target> {
    var areas := AreasOf(inputs, file);
    (if areas == [] then [Classify(inputs.layout, file.path)] else seq(|areas|, i requires 0 <= i < |areas| => Config(areas[i])))
    + (match file.kind
       case Renamed(from) => [Classify(inputs.layout, from)]
       case _ => [])
  }

  function DeniedFindings(inputs: Inputs, file: FileChange, targets: seq<Target>): seq<Finding> {
    if targets == [] then []
    else
      (if inputs.restrictions.Permits(targets[0]).Err? then [Finding(OutOfScopeCheck, Reject, Some(file.path), None)] else [])
      + DeniedFindings(inputs, file, targets[1..])
  }

  function ScopeFindings(inputs: Inputs, file: FileChange): seq<Finding> {
    var areas := AreasOf(inputs, file);
    (if ConfigUnparseable(inputs, file) then [Finding(ConfigChanged, Reject, Some(file.path), None)] else [])
    + DeniedFindings(inputs, file, TargetsOf(inputs, file))
    + (if inputs.restrictions.IsUntrustedTrigger() then []
       else seq(|areas|, i => Finding(ConfigChanged, Flag, Some(file.path), None)))
  }

  function AccessFindings(inputs: Inputs, file: FileChange): seq<Finding> {
    if !Classify(inputs.layout, file.path).Page? then []
    else match inputs.scanners.accessChanged(file.before, file.after)
      case None => [Finding(UnreadableFrontmatter, Reject, Some(file.path), None)]
      case Some(changed) =>
        if !changed then []
        else
          [Finding(AccessField, if inputs.restrictions.IsUntrustedTrigger() then Reject else Flag, Some(file.path), None)]
  }

  /** The keys a scanner finds on the before side: what the file already had. */
  function KeysBefore<K(==)>(scan: string -> seq<Hit<K>>, file: FileChange): set<K> {
    match file.before
    case None => {}
    case Some(text) => set h <- scan(text) :: h.key
  }

  function HitsAfter<K>(scan: string -> seq<Hit<K>>, file: FileChange): seq<Hit<K>> {
    match file.after
    case None => []
    case Some(text) => scan(text)
  }

  /** One finding a hit: a new one takes `novel`, an inherited one is a flag. */
  function HitFindings<K(==)>(check: Check, novel: Verdict, before: set<K>, path: string, hits: seq<Hit<K>>): seq<Finding> {
    if hits == [] then []
    else
      [Finding(check, if hits[0].key in before then Flag else novel, Some(path), Some(hits[0].line))]
      + HitFindings(check, novel, before, path, hits[1..])
  }

  function SecretFindings(inputs: Inputs, file: FileChange): seq<Finding> {
    HitFindings(Secret, Reject, KeysBefore(inputs.scanners.secrets, file), file.path, HitsAfter(inputs.scanners.secrets, file))
  }

  /** The first hit of each key not accounted for already, in order. */
  function FirstHits(hits: seq<Hit<string>>, reported: set<string>): seq<Hit<string>> {
    if hits == [] then []
    else if hits[0].key in reported then FirstHits(hits[1..], reported)
    else [hits[0]] + FirstHits(hits[1..], reported + {hits[0].key})
  }

  function LinkFindings(inputs: Inputs, file: FileChange): seq<Finding> {
    HitFindings(NewExternalHost, if inputs.restrictions.MayLinkNewHosts() then Flag else Reject,
                KeysBefore(inputs.scanners.hosts, file), file.path,
                FirstHits(HitsAfter(inputs.scanners.hosts, file), inputs.knownHosts))
  }

  function PhraseFindings(inputs: Inputs, file: FileChange): seq<Finding> {
    HitFindings(InjectionPhrase, if inputs.restrictions.IsUntrustedTrigger() then Reject else Flag,
                KeysBefore(inputs.scanners.phrases, file), file.path,
                FirstHits(HitsAfter(inputs.scanners.phrases, file), {}))
  }

  function FileFindings(inputs: Inputs, file: FileChange): seq<Finding> {
    ScopeFindings(inputs, file) + AccessFindings(inputs, file) + SecretFindings(inputs, file)
    + LinkFindings(inputs, file) + PhraseFindings(inputs, file)
  }

  function FilesFindings(inputs: Inputs, files: seq<FileChange>): seq<Finding> {
    if files == [] then [] else FilesFindings(inputs, files[..|files| - 1]) + FileFindings(inputs, files[|files| - 1])
  }

  function AllFindings(inputs: Inputs): seq<Finding> {
    SizeFindings(inputs) + DeletionFindings(inputs) + FilesFindings(inputs, inputs.files)
  }

  // ---- The order of a report ----

  function CheckRank(c: Check): nat {
    match c
    case FilesChangedCheck => 0
    case LinesChangedCheck => 1
    case PagesDeletedCheck => 2
    case OutOfScopeCheck => 3
    case UnreadableFrontmatter => 4
    case Secret => 5
    case AccessField => 6
    case ConfigChanged => 7
    case NewExternalHost => 8
    case InjectionPhrase => 9
  }

  /** The checks in the order a report lists them. */
  const CHECKS: seq<Check> :=
    [FilesChangedCheck, LinesChangedCheck, PagesDeletedCheck, OutOfScopeCheck, UnreadableFrontmatter, Secret, AccessField,
     ConfigChanged, NewExternalHost, InjectionPhrase]

  lemma RankIsPlace(c: Check)
    ensures CheckRank(c) < |CHECKS| && CHECKS[CheckRank(c)] == c
  {
  }

  predicate PathLeq(a: Option<string>, b: Option<string>) {
    a.None? || (b.Some? && LexLeq(a.value, b.value))
  }

  predicate LineLeq(a: Option<nat>, b: Option<nat>) {
    a.None? || (b.Some? && a.value <= b.value)
  }

  /** Rejections first, then by check, by file, by line. */
  predicate Leq(a: Finding, b: Finding) {
    if a.verdict != b.verdict then a.verdict == Reject
    else if a.check != b.check then CheckRank(a.check) < CheckRank(b.check)
    else if a.path != b.path then PathLeq(a.path, b.path)
    else LineLeq(a.line, b.line)
  }

  /** The gate's report on one diff. */
  function ReportOn(inputs: Inputs): Report {
    Report(Sort(AllFindings(inputs), Leq))
  }

  /** The caps, then each file's checks in turn, and all findings put in reading order at the end. */
  method CheckDiff(inputs: Inputs) returns (report: Report)
    ensures report == ReportOn(inputs)
  {
    var caps := SizeFindings(inputs) + DeletionFindings(inputs);
    var findings := caps;
    for i := 0 to |inputs.files|
      invariant findings == caps + FilesFindings(inputs, inputs.files[..i])
    {
      var found := CheckFile(inputs, inputs.files[i]);
      FilesFindingsStep(inputs, caps, i);
      findings := findings + found;
    }
    assert inputs.files[..|inputs.files|] == inputs.files;
    var sorted := InsertionSort(findings, Leq);
    report := Report(sorted);
  }

  lemma FilesFindingsStep(inputs: Inputs, caps: seq<Finding>, i: nat)
    requires i < |inputs.files|
    ensures caps + FilesFindings(inputs, inputs.files[..i + 1])
            == caps + FilesFindings(inputs, inputs.files[..i]) + FileFindings(inputs, inputs.files[i])
  {
    assert inputs.files[..i + 1] == inputs.files[..i] + [inputs.files[i]];
    OneMoreFinding(inputs, inputs.files[..i], inputs.files[i]);
    AppendRegroups(caps, FilesFindings(inputs, inputs.files[..i]), FileFindings(inputs, inputs.files[i]));
  }

  lemma {:induction false} OneMoreFinding(inputs: Inputs, files: seq<FileChange>, file: FileChange)
    ensures FilesFindings(inputs, files + [file]) == FilesFindings(inputs, files) + FileFindings(inputs, file)
  {
    assert (files + [file])[..|files|] == files;
  }

  /** The per-file checks, each pushing what it found. */
  method CheckFile(inputs: Inputs, file: FileChange) returns (found: seq<Finding>)
    ensures found == FileFindings(inputs, file)
  {
    found := ScopeFindings(inputs, file);
    found := found + AccessFindings(inputs, file);
    found := found + SecretFindings(inputs, file);
    found := found + LinkFindings(inputs, file);
    found := found + PhraseFindings(inputs, file);
  }

  lemma LeqTotal(a: Finding, b: Finding)
    ensures Leq(a, b) || Leq(b, a)
  {
    if a.path.Some? && b.path.Some? {
      LexTotal(a.path.value, b.path.value);
    }
  }

  lemma LeqTransitive(a: Finding, b: Finding, c: Finding)
    requires Leq(a, b) && Leq(b, c)
    ensures Leq(a, c)
  {
    if a.path.Some? && b.path.Some? && c.path.Some? {
      if LexLeq(a.path.value, b.path.value) && LexLeq(b.path.value, c.path.value) {
        LexTransitive(a.path.value, b.path.value, c.path.value);
      }
      LexTotal(a.path.value, b.path.value);
    }
  }

  lemma LeqIsOrder()
    ensures TotalOrder(Leq)
  {
    forall a, b
      ensures Leq(a, b) || Leq(b, a)
    {
      LeqTotal(a, b);
    }
    forall a, b, c | Leq(a, b) && Leq(b, c)
      ensures Leq(a, c)
    {
      LeqTransitive(a, b, c);
    }
  }

  /** A report is every finding, in reading order. */
  lemma ReportIsOrdered(inputs: Inputs)
    ensures IsSorted(ReportOn(inputs).findings, Leq) && InReadingOrder(ReportOn(inputs).findings)
    ensures multiset(ReportOn(inputs).findings) == multiset(AllFindings(inputs))
  {
    LeqIsOrder();
    SortIsOrderedPermutation(AllFindings(inputs), Leq);
    SortedIsInOrder(ReportOn(inputs).findings);
  }

  /** Rejections before flags, then as the checks are listed, then by path and by line, those without one first. */
  ghost predicate InReadingOrder(findings: seq<Finding>) {
    forall i, j | 0 <= i < j < |findings| :: ReadsBefore(findings[i], findings[j])
  }

  ghost predicate ReadsBefore(a: Finding, b: Finding) {
    && (a.verdict == Flag ==> b.verdict == Flag)
    && (a.verdict == b.verdict ==> exists p, q | 0 <= p <= q < |CHECKS| :: CHECKS[p] == a.check && CHECKS[q] == b.check)
    && (a.verdict == b.verdict && a.check == b.check ==>
          && (a.path.Some? ==> b.path.Some? && LexLeq(a.path.value, b.path.value))
          && (a.path == b.path && a.line.Some? ==> b.line.Some? && a.line.value <= b.line.value))
  }

  lemma SortedIsInOrder(findings: seq<Finding>)
    requires IsSorted(findings, Leq)
    ensures InReadingOrder(findings)
  {
    forall i, j | 0 <= i < j < |findings|
      ensures ReadsBefore(findings[i], findings[j])
    {
      LeqReadsBefore(findings[i], findings[j]);
    }
  }

  lemma LeqReadsBefore(a: Finding, b: Finding)
    requires Leq(a, b)
    ensures ReadsBefore(a, b)
  {
    RankIsPlace(a.check);
    RankIsPlace(b.check);
    if a.path.Some? && a.path == b.path {
      LexTotal(a.path.value, a.path.value);
    }
  }

  // ---- When the gate refuses ----

  ghost predicate HasReject(findings: seq<Finding>) {
    exists f <- findings :: f.verdict == Reject
  }

  /** Over one of the caps. */
  ghost predicate OverCaps(inputs: Inputs) {
    || FilesChanged(inputs.files) > inputs.limits.maxFilesChanged
    || LinesChanged(inputs.files) > inputs.limits.maxLinesChanged
    || (!inputs.allowBulkDelete && AsU32(|DeletedPages(inputs.files, inputs.layout)|) > inputs.limits.maxPagesDeleted)
  }

  /** What one file's change writes to: each config area it reached, or the file itself; and where it was moved from. */
  ghost predicate IsTarget(inputs: Inputs, file: FileChange, t: Target) {
    || (file.kind.Renamed? && t == Classify(inputs.layout, file.kind.from))
    || (if Classify(inputs.layout, file.path).Config? then
          match inputs.scanners.configAreas(file.before, file.after)
          case None => t == Config(Unspecified)
          case Some(areas) =>
            if areas == [] then t == Classify(inputs.layout, file.path) else exists area <- areas :: t == Config(area)
        else t == Classify(inputs.layout, file.path))
  }

  /** Whether the text before the change had something by this key. */
  ghost predicate HadBefore<K>(scan: string -> seq<Hit<K>>, file: FileChange, key: K) {
    file.before.Some? && exists h <- scan(file.before.value) :: h.key == key
  }

  /** The change brings something new. */
  ghost predicate Adds<K>(scan: string -> seq<Hit<K>>, file: FileChange, known: set<K>) {
    file.after.Some? && exists h <- scan(file.after.value) :: h.key !in known && !HadBefore(scan, file, h.key)
  }

  /** What one file may not do, as the table of checks states it. */
  ghost predicate FileRefused(inputs: Inputs, file: FileChange) {
    || (Classify(inputs.layout, file.path).Config? && inputs.scanners.configAreas(file.before, file.after).None?)
    || (exists t :: IsTarget(inputs, file, t) && inputs.restrictions.Permits(t).Err?)
    || AccessRefused(inputs, file)
    || Adds(inputs.scanners.secrets, file, {})
    || (inputs.restrictions.IsUntrustedTrigger()
        && (Adds(inputs.scanners.hosts, file, inputs.knownHosts) || Adds(inputs.scanners.phrases, file, {})))
  }

  lemma TargetsHave(inputs: Inputs, file: FileChange, t: Target)
    ensures t in TargetsOf(inputs, file) <==> IsTarget(inputs, file, t)
  {
    AreaTargets(AreasOf(inputs, file), t);
  }

  lemma AreaTargets(areas: seq<ConfigArea>, t: Target)
    ensures t in seq(|areas|, i requires 0 <= i < |areas| => Config(areas[i])) <==> exists area <- areas :: t == Config(area)
  {
    var targets := seq(|areas|, i requires 0 <= i < |areas| => Config(areas[i]));
    if area :| area in areas && t == Config(area) {
      var i :| 0 <= i < |areas| && areas[i] == area;
      assert targets[i] == t;
    }
  }

  lemma AddsIsNovel<K>(scan: string -> seq<Hit<K>>, file: FileChange, known: set<K>)
    ensures Adds(scan, file, known) <==> NovelHit(KeysBefore(scan, file) + known, HitsAfter(scan, file))
  {
    forall key
      ensures key in KeysBefore(scan, file) <==> HadBefore(scan, file, key)
    {
    }
  }

  ghost predicate AccessRefused(inputs: Inputs, file: FileChange) {
    && Classify(inputs.layout, file.path).Page?
    && var changed := inputs.scanners.accessChanged(file.before, file.after);
       changed.None? || (changed.value && inputs.restrictions.IsUntrustedTrigger())
  }

  /** A hit on the after side that the before side does not account for. */
  ghost predicate NovelHit<K>(known: set<K>, hits: seq<Hit<K>>) {
    exists h <- hits :: h.key !in known
  }

  lemma RejectAppend(a: seq<Finding>, b: seq<Finding>)
    ensures HasReject(a + b) <==> HasReject(a) || HasReject(b)
  {
    if HasReject(a + b) {
      var f :| f in a + b && f.verdict == Reject;
      assert f in a || f in b;
    }
    if HasReject(a) {
      var f :| f in a && f.verdict == Reject;
      assert f in a + b;
    }
    if HasReject(b) {
      var f :| f in b && f.verdict == Reject;
      assert f in a + b;
    }
  }

  lemma {:induction false} DeniedRejects(inputs: Inputs, file: FileChange, targets: seq<Target>)
    ensures HasReject(DeniedFindings(inputs, file, targets))
            <==> exists t <- targets :: inputs.restrictions.Permits(t).Err?
  {
    if targets != [] {
      var head := if inputs.restrictions.Permits(targets[0]).Err? then [Finding(OutOfScopeCheck, Reject, Some(file.path), None)] else [];
      DeniedRejects(inputs, file, targets[1..]);
      RejectAppend(head, DeniedFindings(inputs, file, targets[1..]));
      assert targets == [targets[0]] + targets[1..];
      assert inputs.restrictions.Permits(targets[0]).Err? ==> head[0] in head;
    }
  }

  lemma {:induction false} HitRejects<K>(check: Check, novel: Verdict, before: set<K>, path: string, hits: seq<Hit<K>>)
    ensures HasReject(HitFindings(check, novel, before, path, hits)) <==> novel == Reject && NovelHit(before, hits)
  {
    if hits != [] {
      var head := [Finding(check, if hits[0].key in before then Flag else novel, Some(path), Some(hits[0].line))];
      HitRejects(check, novel, before, path, hits[1..]);
      RejectAppend(head, HitFindings(check, novel, before, path, hits[1..]));
      assert head[0] in head;
      assert hits == [hits[0]] + hits[1..];
    }
  }

  lemma {:induction false} FirstHitsNovel(before: set<string>, reported: set<string>, hits: seq<Hit<string>>)
    ensures NovelHit(before, FirstHits(hits, reported)) <==> NovelHit(before + reported, hits)
    decreases |hits|
  {
    if hits != [] {
      var h := hits[0];
      assert hits == [h] + hits[1..];
      if h.key in reported {
        FirstHitsNovel(before, reported, hits[1..]);
      } else {
        FirstHitsNovel(before, reported + {h.key}, hits[1..]);
        assert FirstHits(hits, reported)[0] == h;
        assert h in hits && h in FirstHits(hits, reported);
      }
    }
  }

  lemma FileFindingsReject(inputs: Inputs, file: FileChange)
    ensures HasReject(FileFindings(inputs, file)) <==> FileRefused(inputs, file)
  {
    var scope, access := ScopeFindings(inputs, file), AccessFindings(inputs, file);
    var secrets, links, phrases := SecretFindings(inputs, file), LinkFindings(inputs, file), PhraseFindings(inputs, file);
    RejectAppend(scope + access + secrets + links, phrases);
    RejectAppend(scope + access + secrets, links);
    RejectAppend(scope + access, secrets);
    RejectAppend(scope, access);
    ScopeRejects(inputs, file);
    AccessRejects(inputs, file);
    ScannersReject(inputs, file);
  }

  lemma ScopeRejects(inputs: Inputs, file: FileChange)
    ensures HasReject(ScopeFindings(inputs, file)) <==>
            || (Classify(inputs.layout, file.path).Config? && inputs.scanners.configAreas(file.before, file.after).None?)
            || exists t :: IsTarget(inputs, file, t) && inputs.restrictions.Permits(t).Err?
  {
    var areas := AreasOf(inputs, file);
    var broken := if ConfigUnparseable(inputs, file) then [Finding(ConfigChanged, Reject, Some(file.path), None)] else [];
    var denied := DeniedFindings(inputs, file, TargetsOf(inputs, file));
    var flags := if inputs.restrictions.IsUntrustedTrigger() then []
                 else seq(|areas|, i => Finding(ConfigChanged, Flag, Some(file.path), None));
    DeniedRejects(inputs, file, TargetsOf(inputs, file));
    RejectAppend(broken + denied, flags);
    RejectAppend(broken, denied);
    assert ConfigUnparseable(inputs, file) ==> broken[0] in broken;
    forall t
      ensures t in TargetsOf(inputs, file) <==> IsTarget(inputs, file, t)
    {
      TargetsHave(inputs, file, t);
    }
  }

  lemma AccessRejects(inputs: Inputs, file: FileChange)
    ensures HasReject(AccessFindings(inputs, file)) <==> AccessRefused(inputs, file)
  {
    var findings := AccessFindings(inputs, file);
    if findings != [] {
      assert findings[0] in findings;
    }
  }

  lemma ScannersReject(inputs: Inputs, file: FileChange)
    ensures HasReject(SecretFindings(inputs, file)) <==> Adds(inputs.scanners.secrets, file, {})
    ensures HasReject(LinkFindings(inputs, file)) <==>
            inputs.restrictions.IsUntrustedTrigger() && Adds(inputs.scanners.hosts, file, inputs.knownHosts)
    ensures HasReject(PhraseFindings(inputs, file)) <==>
            inputs.restrictions.IsUntrustedTrigger() && Adds(inputs.scanners.phrases, file, {})
  {
    var untrusted := inputs.restrictions.IsUntrustedTrigger();
    var verdict := if untrusted then Reject else Flag;
    var secrets := KeysBefore(inputs.scanners.secrets, file);
    var hosts, phrases := KeysBefore(inputs.scanners.hosts, file), KeysBefore(inputs.scanners.phrases, file);
    var links, hits := HitsAfter(inputs.scanners.hosts, file), HitsAfter(inputs.scanners.phrases, file);
    AddsIsNovel(inputs.scanners.secrets, file, {});
    AddsIsNovel(inputs.scanners.hosts, file, inputs.knownHosts);
    AddsIsNovel(inputs.scanners.phrases, file, {});
    HitRejects(Secret, Reject, secrets, file.path, HitsAfter(inputs.scanners.secrets, file));
    HitRejects(NewExternalHost, verdict, hosts, file.path, FirstHits(links, inputs.knownHosts));
    FirstHitsNovel(hosts, inputs.knownHosts, links);
    HitRejects(InjectionPhrase, verdict, phrases, file.path, FirstHits(hits, {}));
    FirstHitsNovel(phrases, {}, hits);
    assert phrases + {} == phrases && secrets + {} == secrets;
  }

  ghost predicate AnyRefused(inputs: Inputs, files: seq<FileChange>) {
    exists file <- files :: FileRefused(inputs, file)
  }

  lemma AnyRefusedStep(inputs: Inputs, init: seq<FileChange>, last: FileChange)
    ensures AnyRefused(inputs, init + [last]) <==> AnyRefused(inputs, init) || FileRefused(inputs, last)
  {
    if AnyRefused(inputs, init) {
      var file :| file in init && FileRefused(inputs, file);
      assert file in init + [last];
    }
    assert last in init + [last];
  }

  lemma OneMoreFile(inputs: Inputs, before: seq<Finding>, here: seq<Finding>, init: seq<FileChange>, last: FileChange)
    requires HasReject(before) <==> AnyRefused(inputs, init)
    requires HasReject(here) <==> FileRefused(inputs, last)
    ensures HasReject(before + here) <==> AnyRefused(inputs, init + [last])
  {
    RejectAppend(before, here);
    AnyRefusedStep(inputs, init, last);
  }

  lemma {:induction false} FilesReject(inputs: Inputs, files: seq<FileChange>)
    ensures HasReject(FilesFindings(inputs, files)) <==> AnyRefused(inputs, files)
  {
    if files != [] {
      var init, last := files[..|files| - 1], files[|files| - 1];
      FilesReject(inputs, init);
      FileFindingsReject(inputs, last);
      OneMoreFinding(inputs, init, last);
      OneMoreFile(inputs, FilesFindings(inputs, init), FileFindings(inputs, last), init, last);
      AllButLast(files);
    }
  }

  lemma AllButLast<T>(s: seq<T>)
    requires s != []
    ensures s[..|s| - 1] + [s[|s| - 1]] == s
  {
  }

  lemma SortingKeepsVerdict(findings: seq<Finding>)
    ensures HasReject(Sort(findings, Leq)) <==> HasReject(findings)
  {
    LeqIsOrder();
    SortIsOrderedPermutation(findings, Leq);
  }

  /** The gate refuses a proposal exactly when a cap is exceeded or some file is refused. */
  lemma GateRejectsIff(inputs: Inputs)
    ensures ReportOn(inputs).Rejected() <==> OverCaps(inputs) || AnyRefused(inputs, inputs.files)
  {
    SortingKeepsVerdict(AllFindings(inputs));
    RejectAppend(SizeFindings(inputs) + DeletionFindings(inputs), FilesFindings(inputs, inputs.files));
    RejectAppend(SizeFindings(inputs), DeletionFindings(inputs));
    FilesReject(inputs, inputs.files);
    CapsReject(inputs);
    assert ReportOn(inputs).Rejected() <==> HasReject(Sort(AllFindings(inputs), Leq));
  }

  lemma CapsReject(inputs: Inputs)
    ensures HasReject(SizeFindings(inputs)) || HasReject(DeletionFindings(inputs)) <==> OverCaps(inputs)
  {
    var size, deletions := SizeFindings(inputs), DeletionFindings(inputs);
    assert size != [] ==> size[0] in size;
    assert deletions != [] ==> deletions[0] in deletions;
  }

  // ---- Every finding on one file, flags included ----

  /** A finding for one hit: a flag when the text before had it too, otherwise the verdict on what is new. */
  ghost predicate IsHit<K>(scan: string -> seq<Hit<K>>, file: FileChange, h: Hit<K>, novel: Verdict, f: Finding) {
    f.line == Some(h.line) && f.verdict == if HadBefore(scan, file, h.key) then Flag else novel
  }

  /** The first of its key. */
  ghost predicate IsFirstHit<K>(hits: seq<Hit<K>>, h: Hit<K>) {
    exists i | 0 <= i < |hits| :: hits[i] == h && forall j | 0 <= j < i :: hits[j].key != h.key
  }

  /** The findings a file deserves. */
  ghost predicate IsDue(inputs: Inputs, file: FileChange, f: Finding) {
    var untrusted := inputs.restrictions.IsUntrustedTrigger();
    var verdict := if untrusted then Reject else Flag;
    var target, areas := Classify(inputs.layout, file.path), inputs.scanners.configAreas(file.before, file.after);
    && f.path == Some(file.path)
    && match f.check
       case OutOfScopeCheck =>
         f.verdict == Reject && f.line == None && exists t :: IsTarget(inputs, file, t) && inputs.restrictions.Permits(t).Err?
       case ConfigChanged =>
         f.line == None && target.Config? && if f.verdict == Reject then areas == None else !untrusted && areas != Some([])
       case UnreadableFrontmatter =>
         f.verdict == Reject && f.line == None && target.Page? && inputs.scanners.accessChanged(file.before, file.after) == None
       case AccessField =>
         f.verdict == verdict && f.line == None && target.Page? && inputs.scanners.accessChanged(file.before, file.after) == Some(true)
       case Secret =>
         file.after.Some? && exists h <- inputs.scanners.secrets(file.after.value) :: IsHit(inputs.scanners.secrets, file, h, Reject, f)
       case NewExternalHost =>
         && file.after.Some?
         && var hits := inputs.scanners.hosts(file.after.value);
            exists h <- hits :: h.key !in inputs.knownHosts && IsFirstHit(hits, h) && IsHit(inputs.scanners.hosts, file, h, verdict, f)
       case InjectionPhrase =>
         && file.after.Some?
         && var hits := inputs.scanners.phrases(file.after.value);
            exists h <- hits :: IsFirstHit(hits, h) && IsHit(inputs.scanners.phrases, file, h, verdict, f)
       case _ => false
  }

  lemma {:induction false} DeniedHas(inputs: Inputs, file: FileChange, targets: seq<Target>, f: Finding)
    ensures f in DeniedFindings(inputs, file, targets)
            <==> f == Finding(OutOfScopeCheck, Reject, Some(file.path), None)
                 && exists t <- targets :: inputs.restrictions.Permits(t).Err?
  {
    if targets != [] {
      DeniedHas(inputs, file, targets[1..], f);
      assert targets == [targets[0]] + targets[1..];
    }
  }

  lemma {:induction false} HitFindingsHave<K>(check: Check, novel: Verdict, before: set<K>, path: string, hits: seq<Hit<K>>, f: Finding)
    ensures f in HitFindings(check, novel, before, path, hits)
            <==> exists h <- hits :: f == Finding(check, if h.key in before then Flag else novel, Some(path), Some(h.line))
  {
    if hits != [] {
      HitFindingsHave(check, novel, before, path, hits[1..], f);
      assert hits == [hits[0]] + hits[1..];
    }
  }

  lemma {:induction false} FirstHitsHave(hits: seq<Hit<string>>, reported: set<string>, h: Hit<string>)
    ensures h in FirstHits(hits, reported) <==> h.key !in reported && IsFirstHit(hits, h)
    decreases |hits|
  {
    if hits != [] {
      var first, rest := hits[0], hits[1..];
      FirstHitsHave(rest, if first.key in reported then reported else reported + {first.key}, h);
      FirstOrLater(first, rest, h);
      assert hits == [first] + rest;
    }
  }

  lemma FirstOrLater(first: Hit<string>, rest: seq<Hit<string>>, h: Hit<string>)
    ensures IsFirstHit([first] + rest, h) <==> h == first || (h.key != first.key && IsFirstHit(rest, h))
  {
    var hits := [first] + rest;
    if h == first {
      assert hits[0] == h;
    }
    if h.key != first.key && IsFirstHit(rest, h) {
      var i :| 0 <= i < |rest| && rest[i] == h && forall j | 0 <= j < i :: rest[j].key != h.key;
      assert hits[i + 1] == h;
      assert forall j | 0 < j < i + 1 :: hits[j] == rest[j - 1];
    }
    if IsFirstHit(hits, h) && h != first {
      var i :| 0 <= i < |hits| && hits[i] == h && forall j | 0 <= j < i :: hits[j].key != h.key;
      assert rest[i - 1] == h && hits[0].key != h.key;
      assert forall j | 0 <= j < i - 1 :: rest[j] == hits[j + 1];
    }
  }

  lemma ScopeFindingsAreDue(inputs: Inputs, file: FileChange, f: Finding)
    ensures f in ScopeFindings(inputs, file) <==> f.check in {OutOfScopeCheck, ConfigChanged} && IsDue(inputs, file, f)
  {
    DeniedHas(inputs, file, TargetsOf(inputs, file), f);
    forall t
      ensures t in TargetsOf(inputs, file) <==> IsTarget(inputs, file, t)
    {
      TargetsHave(inputs, file, t);
    }
    var areas := AreasOf(inputs, file);
    var flag := Finding(ConfigChanged, Flag, Some(file.path), None);
    var flags := seq(|areas|, i => flag);
    assert f in flags <==> areas != [] && f == flag by {
      assert areas != [] ==> flags[0] == flag;
    }
  }

  lemma AccessFindingsAreDue(inputs: Inputs, file: FileChange, f: Finding)
    ensures f in AccessFindings(inputs, file) <==> f.check in {UnreadableFrontmatter, AccessField} && IsDue(inputs, file, f)
  {
  }

  lemma HadIsKey<K>(scan: string -> seq<Hit<K>>, file: FileChange, key: K)
    ensures key in KeysBefore(scan, file) <==> HadBefore(scan, file, key)
  {
  }

  lemma SecretFindingsAreDue(inputs: Inputs, file: FileChange, f: Finding)
    ensures f in SecretFindings(inputs, file) <==> f.check == Secret && IsDue(inputs, file, f)
  {
    var scan := inputs.scanners.secrets;
    HitFindingsHave(Secret, Reject, KeysBefore(scan, file), file.path, HitsAfter(scan, file), f);
    forall key
      ensures key in KeysBefore(scan, file) <==> HadBefore(scan, file, key)
    {
      HadIsKey(scan, file, key);
    }
  }

  lemma LinkFindingsAreDue(inputs: Inputs, file: FileChange, f: Finding)
    ensures f in LinkFindings(inputs, file) <==> f.check == NewExternalHost && IsDue(inputs, file, f)
  {
    var scan, verdict := inputs.scanners.hosts, if inputs.restrictions.MayLinkNewHosts() then Flag else Reject;
    var hits := HitsAfter(scan, file);
    HitFindingsHave(NewExternalHost, verdict, KeysBefore(scan, file), file.path, FirstHits(hits, inputs.knownHosts), f);
    forall h
      ensures h in FirstHits(hits, inputs.knownHosts) <==> h.key !in inputs.knownHosts && IsFirstHit(hits, h)
      ensures h.key in KeysBefore(scan, file) <==> HadBefore(scan, file, h.key)
    {
      FirstHitsHave(hits, inputs.knownHosts, h);
      HadIsKey(scan, file, h.key);
    }
  }

  lemma PhraseFindingsAreDue(inputs: Inputs, file: FileChange, f: Finding)
    ensures f in PhraseFindings(inputs, file) <==> f.check == InjectionPhrase && IsDue(inputs, file, f)
  {
    var scan, verdict := inputs.scanners.phrases, if inputs.restrictions.IsUntrustedTrigger() then Reject else Flag;
    var hits := HitsAfter(scan, file);
    HitFindingsHave(InjectionPhrase, verdict, KeysBefore(scan, file), file.path, FirstHits(hits, {}), f);
    forall h
      ensures h in FirstHits(hits, {}) <==> IsFirstHit(hits, h)
      ensures h.key in KeysBefore(scan, file) <==> HadBefore(scan, file, h.key)
    {
      FirstHitsHave(hits, {}, h);
      HadIsKey(scan, file, h.key);
    }
  }

  /** What the checks find on a file is exactly what is due on it, flags as well as rejections. */
  lemma FindingsAreDue(inputs: Inputs, file: FileChange, f: Finding)
    ensures f in FileFindings(inputs, file) <==> IsDue(inputs, file, f)
  {
    ScopeFindingsAreDue(inputs, file, f);
    AccessFindingsAreDue(inputs, file, f);
    SecretFindingsAreDue(inputs, file, f);
    LinkFindingsAreDue(inputs, file, f);
    PhraseFindingsAreDue(inputs, file, f);
  }

  // ---- Every finding of a report ----

  /** The rejections due on the diff as a whole. */
  ghost predicate IsCapDue(inputs: Inputs, f: Finding) {
    && f == Finding(f.check, Reject, None, None)
    && match f.check
       case FilesChangedCheck => AsU32(|inputs.files|) > inputs.limits.maxFilesChanged
       case LinesChangedCheck =>
         Min(SumBy(inputs.files, LinesOfFile), U32_RANGE - 1) > inputs.limits.maxLinesChanged
       case PagesDeletedCheck =>
         !inputs.allowBulkDelete && AsU32(|PageDeletions(inputs.files, inputs.layout)|) > inputs.limits.maxPagesDeleted
       case _ => false
  }

  lemma CapFindingsAreDue(inputs: Inputs, f: Finding)
    ensures f in CapFindings(inputs) <==> IsCapDue(inputs, f)
  {
    LinesChangedMeans(inputs.files);
    DeletedPagesMean(inputs.files, inputs.layout);
    SizeFindingsHave(inputs, f);
  }

  lemma SizeFindingsHave(inputs: Inputs, f: Finding)
    ensures f in SizeFindings(inputs) <==>
            || (f == Whole(FilesChangedCheck) && AsU32(|inputs.files|) > inputs.limits.maxFilesChanged)
            || (f == Whole(LinesChangedCheck) && LinesChanged(inputs.files) > inputs.limits.maxLinesChanged)
  {
  }

  lemma {:induction false} FilesFindingsHave(inputs: Inputs, files: seq<FileChange>, f: Finding)
    ensures f in FilesFindings(inputs, files) <==> exists file <- files :: IsDue(inputs, file, f)
  {
    if files != [] {
      var init, last := files[..|files| - 1], files[|files| - 1];
      FilesFindingsHave(inputs, init, f);
      FindingsAreDue(inputs, last, f);
      OneMoreFinding(inputs, init, last);
      AllButLast(files);
      SomeOrLast(init, last, (file: FileChange) => IsDue(inputs, file, f));
    }
  }

  lemma SomeOrLast<T>(init: seq<T>, last: T, p: T ~> bool)
    requires forall t :: p.requires(t) && p.reads(t) == {}
    ensures (exists t <- init + [last] :: p(t)) <==> (exists t <- init :: p(t)) || p(last)
  {
    if t :| t in init && p(t) {
      assert t in init + [last];
    }
    assert last in init + [last];
  }

  /** The report holds exactly what is due on the diff as a whole and on each of its files. */
  lemma ReportIsDue(inputs: Inputs, f: Finding)
    ensures f in ReportOn(inputs).findings <==> IsCapDue(inputs, f) || exists file <- inputs.files :: IsDue(inputs, file, f)
  {
    ReportIsOrdered(inputs);
    CapFindingsAreDue(inputs, f);
    FilesFindingsHave(inputs, inputs.files, f);
    assert f in ReportOn(inputs).findings <==> f in multiset(AllFindings(inputs));
    CapIsFound(inputs, f);
  }

  // ---- What a part of a diff can be found to do ----

  /** The number compared with a cap is a 32-bit cast; whether a count over the cap is still seen to be over it. */
  predicate IsFelt(count: nat, cap: nat) {
    count <= cap || cap >= U32_RANGE - 1 || AsU32(count) > cap
  }

  /** Whether neither of the two counts that are cast slips back under its cap. */
  predicate CapsAreFelt(inputs: Inputs) {
    && IsFelt(|inputs.files|, inputs.limits.maxFilesChanged)
    && (inputs.allowBulkDelete || IsFelt(|DeletedPages(inputs.files, inputs.layout)|, inputs.limits.maxPagesDeleted))
  }

  function CapFindings(inputs: Inputs): seq<Finding> {
    SizeFindings(inputs) + DeletionFindings(inputs)
  }

  lemma CapsAreMonotone(whole: Inputs, part: seq<FileChange>)
    requires CapsAreFelt(whole) && multiset(part) <= multiset(whole.files)
    ensures multiset(CapFindings(whole.(files := part))) <= multiset(CapFindings(whole))
  {
    TotalsAreMonotone(part, whole.files, whole.layout);
    var smaller := whole.(files := part);
    SizesAreMonotone(smaller, whole);
    assert multiset(DeletionFindings(smaller)) <= multiset(DeletionFindings(whole));
  }

  lemma SizesAreMonotone(smaller: Inputs, whole: Inputs)
    requires smaller.limits == whole.limits && IsFelt(|whole.files|, whole.limits.maxFilesChanged)
    requires |smaller.files| <= |whole.files| && LinesChanged(smaller.files) <= LinesChanged(whole.files)
    ensures multiset(SizeFindings(smaller)) <= multiset(SizeFindings(whole))
  {
  }

  /** What the per-file checks make of one file, whatever else is in the diff. */
  function FileCheck(inputs: Inputs): FileChange -> seq<Finding> {
    (file: FileChange) => FileFindings(inputs, file)
  }

  lemma {:induction false} FindingsAreFlat(inputs: Inputs, files: seq<FileChange>)
    ensures FilesFindings(inputs, files) == FlatMap(files, FileCheck(inputs))
  {
    if files != [] {
      FindingsAreFlat(inputs, files[..|files| - 1]);
    }
  }

  /** Every per-file check reads the file alone. */
  lemma SameFileSameFindings(a: Inputs, b: Inputs, file: FileChange)
    requires b == a.(files := b.files)
    ensures FileFindings(a, file) == FileFindings(b, file)
  {
    SameScope(a, b, file);
    assert AccessFindings(a, file) == AccessFindings(b, file);
    assert SecretFindings(a, file) == SecretFindings(b, file);
    assert LinkFindings(a, file) == LinkFindings(b, file);
    assert PhraseFindings(a, file) == PhraseFindings(b, file);
  }

  lemma SameScope(a: Inputs, b: Inputs, file: FileChange)
    requires b == a.(files := b.files)
    ensures ScopeFindings(a, file) == ScopeFindings(b, file)
  {
    assert AreasOf(a, file) == AreasOf(b, file);
    assert TargetsOf(a, file) == TargetsOf(b, file);
    SameDenied(a, b, file, TargetsOf(a, file));
  }

  lemma {:induction false} SameDenied(a: Inputs, b: Inputs, file: FileChange, targets: seq<Target>)
    requires b == a.(files := b.files)
    ensures DeniedFindings(a, file, targets) == DeniedFindings(b, file, targets)
  {
    if targets != [] {
      SameDenied(a, b, file, targets[1..]);
    }
  }

  lemma {:induction false} SameFilesSameFindings(a: Inputs, b: Inputs, files: seq<FileChange>)
    requires b == a.(files := b.files)
    ensures FilesFindings(a, files) == FilesFindings(b, files)
  {
    if files != [] {
      SameFilesSameFindings(a, b, files[..|files| - 1]);
      SameFileSameFindings(a, b, files[|files| - 1]);
    }
  }

  lemma FilesAreMonotone(whole: Inputs, part: seq<FileChange>)
    requires multiset(part) <= multiset(whole.files)
    ensures multiset(FilesFindings(whole.(files := part), part)) <= multiset(FilesFindings(whole, whole.files))
  {
    SameFilesSameFindings(whole, whole.(files := part), part);
    FindingsAreFlat(whole, part);
    FindingsAreFlat(whole, whole.files);
    FlatMapSubMultiset(part, whole.files, FileCheck(whole));
  }

  /** A part of a diff has no finding, rejection or flag, that the whole has not, as often as it has it. */
  lemma FindingsAreMonotone(whole: Inputs, part: seq<FileChange>)
    requires CapsAreFelt(whole) && multiset(part) <= multiset(whole.files)
    ensures multiset(AllFindings(whole.(files := part))) <= multiset(AllFindings(whole))
  {
    CapsAreMonotone(whole, part);
    FilesAreMonotone(whole, part);
    AllFindingsAre(whole);
    AllFindingsAre(whole.(files := part));
  }

  lemma AllFindingsAre(inputs: Inputs)
    ensures multiset(AllFindings(inputs)) == multiset(CapFindings(inputs)) + multiset(FilesFindings(inputs, inputs.files))
  {
  }

  lemma RejectionIsMonotone(part: Inputs, whole: Inputs)
    requires multiset(AllFindings(part)) <= multiset(AllFindings(whole)) && !ReportOn(whole).Rejected()
    ensures !ReportOn(part).Rejected()
  {
    SortingKeepsVerdict(AllFindings(part));
    SortingKeepsVerdict(AllFindings(whole));
    forall f | f in AllFindings(part)
      ensures f.verdict != Reject
    {
      assert f in multiset(AllFindings(part));
      assert f in AllFindings(whole);
    }
  }

  // ---- And exactly when ----

  ghost predicate AreOf(findings: seq<Finding>, file: FileChange) {
    forall f <- findings :: f.path == Some(file.path)
  }

  lemma {:induction false} DeniedAreOf(inputs: Inputs, file: FileChange, targets: seq<Target>)
    ensures AreOf(DeniedFindings(inputs, file, targets), file)
  {
    if targets != [] {
      DeniedAreOf(inputs, file, targets[1..]);
    }
  }

  lemma {:induction false} HitsAreOf<K>(check: Check, novel: Verdict, before: set<K>, file: FileChange, hits: seq<Hit<K>>)
    ensures AreOf(HitFindings(check, novel, before, file.path, hits), file)
  {
    if hits != [] {
      HitsAreOf(check, novel, before, file, hits[1..]);
    }
  }

  lemma FindingsAreOf(inputs: Inputs, file: FileChange)
    ensures AreOf(FileFindings(inputs, file), file)
  {
    DeniedAreOf(inputs, file, TargetsOf(inputs, file));
    assert AreOf(ScopeFindings(inputs, file), file);
    assert AreOf(AccessFindings(inputs, file), file);
    HitsAreOf(Secret, Reject, KeysBefore(inputs.scanners.secrets, file), file, HitsAfter(inputs.scanners.secrets, file));
    HitsAreOf(NewExternalHost, if inputs.restrictions.MayLinkNewHosts() then Flag else Reject,
              KeysBefore(inputs.scanners.hosts, file), file,
              FirstHits(HitsAfter(inputs.scanners.hosts, file), inputs.knownHosts));
    HitsAreOf(InjectionPhrase, if inputs.restrictions.IsUntrustedTrigger() then Reject else Flag,
              KeysBefore(inputs.scanners.phrases, file), file, FirstHits(HitsAfter(inputs.scanners.phrases, file), {}));
  }

  lemma {:induction false} FilesHaveNoCaps(inputs: Inputs, files: seq<FileChange>, check: Check)
    ensures Whole(check) !in FilesFindings(inputs, files)
  {
    if files != [] {
      FilesHaveNoCaps(inputs, files[..|files| - 1], check);
      FindingsAreOf(inputs, files[|files| - 1]);
    }
  }

  /** Where a count slips back under its cap, some part of the diff is found to be over it. */
  lemma UnfeltPartIsOver(whole: Inputs) returns (part: seq<FileChange>, check: Check)
    requires !CapsAreFelt(whole)
    ensures multiset(part) <= multiset(whole.files)
    ensures Whole(check) in CapFindings(whole.(files := part)) && Whole(check) !in CapFindings(whole)
  {
    if !IsFelt(|whole.files|, whole.limits.maxFilesChanged) {
      PrefixIsPart(whole.files, U32_RANGE - 1);
      part, check := whole.files[..U32_RANGE - 1], FilesChangedCheck;
    } else {
      var n := PrefixWithDeletions(whole.files, whole.layout, U32_RANGE - 1);
      PrefixIsPart(whole.files, n);
      part, check := whole.files[..n], PagesDeletedCheck;
    }
    CapShows(whole.(files := part));
    CapShows(whole);
  }

  lemma CapShows(inputs: Inputs)
    ensures Whole(FilesChangedCheck) in CapFindings(inputs) <==> FilesChanged(inputs.files) > inputs.limits.maxFilesChanged
    ensures Whole(PagesDeletedCheck) in CapFindings(inputs)
            <==> !inputs.allowBulkDelete && AsU32(|DeletedPages(inputs.files, inputs.layout)|) > inputs.limits.maxPagesDeleted
  {
    SizeShows(inputs);
    DeletionShows(inputs);
  }

  lemma SizeShows(inputs: Inputs)
    ensures Whole(FilesChangedCheck) in SizeFindings(inputs) <==> FilesChanged(inputs.files) > inputs.limits.maxFilesChanged
    ensures Whole(PagesDeletedCheck) !in SizeFindings(inputs)
  {
  }

  lemma DeletionShows(inputs: Inputs)
    ensures Whole(FilesChangedCheck) !in DeletionFindings(inputs)
    ensures Whole(PagesDeletedCheck) in DeletionFindings(inputs)
            <==> !inputs.allowBulkDelete && AsU32(|DeletedPages(inputs.files, inputs.layout)|) > inputs.limits.maxPagesDeleted
  {
  }

  /** No part of a diff has a finding the whole has not, exactly when no count slips back under its cap. */
  lemma FindingsAreMonotoneIff(whole: Inputs)
    ensures (forall part | multiset(part) <= multiset(whole.files)
               :: multiset(AllFindings(whole.(files := part))) <= multiset(AllFindings(whole)))
            <==> CapsAreFelt(whole)
  {
    if CapsAreFelt(whole) {
      forall part | multiset(part) <= multiset(whole.files)
        ensures multiset(AllFindings(whole.(files := part))) <= multiset(AllFindings(whole))
      {
        FindingsAreMonotone(whole, part);
      }
    } else {
      var part, check := UnfeltPartIsOver(whole);
      NotAFinding(whole, whole.(files := part), check);
    }
  }

  lemma NotAFinding(whole: Inputs, part: Inputs, check: Check)
    requires Whole(check) in CapFindings(part) && Whole(check) !in CapFindings(whole)
    ensures !(multiset(AllFindings(part)) <= multiset(AllFindings(whole)))
    ensures ReportOn(part).Rejected()
  {
    var cap := Whole(check);
    FilesHaveNoCaps(whole, whole.files, check);
    CapIsFound(whole, cap);
    CapIsFound(part, cap);
    OneTooMany(cap, AllFindings(part), AllFindings(whole));
    SortingKeepsVerdict(AllFindings(part));
  }

  lemma CapIsFound(inputs: Inputs, f: Finding)
    ensures f in AllFindings(inputs) <==> f in CapFindings(inputs) || f in FilesFindings(inputs, inputs.files)
  {
  }

  lemma OneTooMany<T>(x: T, a: seq<T>, b: seq<T>)
    requires x in a && x !in b
    ensures !(multiset(a) <= multiset(b))
  {
    assert x in multiset(a) && x !in multiset(b);
  }

  /** Exactly then does every part of a passed diff pass: with 2^32 files a cap can let through what its parts exceed. */
  lemma GateIsMonotoneIff(whole: Inputs)
    requires !ReportOn(whole).Rejected()
    ensures (forall part | multiset(part) <= multiset(whole.files) :: !ReportOn(whole.(files := part)).Rejected())
            <==> CapsAreFelt(whole)
  {
    if CapsAreFelt(whole) {
      forall part | multiset(part) <= multiset(whole.files)
        ensures !ReportOn(whole.(files := part)).Rejected()
      {
        FindingsAreMonotone(whole, part);
        RejectionIsMonotone(whole.(files := part), whole);
      }
    } else {
      var part, check := UnfeltPartIsOver(whole);
      NotAFinding(whole, whole.(files := part), check);
    }
  }
}
