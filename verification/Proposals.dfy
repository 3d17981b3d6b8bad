/** Proposals: opened only past the gate, decided file by file, split page by page. */
module Proposals {
  import opened Common
  import opened Text
  import opened Scope
  import opened Changes
  import opened Gates

  datatype FileDecision = Undecided | Accepted | Declined

  /** A proposal's value: what a clone of it would hold. */
  datatype Contents = Contents(
    branch: string,
    files: seq<FileChange>,
    report: Report,
    decisions: map<string, FileDecision>,
    followUps: seq<seq<FileChange>>)
  {
    function DecisionOn(path: string): FileDecision {
      if path in decisions then decisions[path] else Undecided
    }

    function AcceptedPaths(): set<string> {
      set path <- decisions | decisions[path] == Accepted
    }

    ghost predicate FullyReviewed() {
      forall path <- decisions :: decisions[path] != Undecided
    }
  }

  function UndecidedAll(files: seq<FileChange>): map<string, FileDecision> {
    map f <- files :: f.path := Undecided
  }

  class Proposal {
    var branch: string
    var files: seq<FileChange>
    var report: Report
    var decisions: map<string, FileDecision>
    var followUps: seq<seq<FileChange>>

    constructor (branch: string, files: seq<FileChange>, report: Report)
      ensures Value() == Contents(branch, files, report, UndecidedAll(files), [])
    {
      this.branch := branch;
      this.files := files;
      this.report := report;
      this.decisions := UndecidedAll(files);
      this.followUps := [];
    }

    function Value(): Contents
      reads this
    {
      Contents(branch, files, report, decisions, followUps)
    }

    /** Sets one decision; an unknown path is answered with false and leaves everything alone. */
    method Set(path: string, decision: FileDecision) returns (known: bool)
      modifies this`decisions
      ensures known == (path in old(decisions))
      ensures decisions == if known then old(decisions)[path := decision] else old(decisions)
    {
      known := path in decisions;
      if known {
        decisions := decisions[path := decision];
      }
    }

    method Accept(path: string) returns (known: bool)
      modifies this`decisions
      ensures known == (path in old(decisions))
      ensures decisions == if known then old(decisions)[path := Accepted] else old(decisions)
    {
      known := Set(path, Accepted);
    }

    method Decline(path: string) returns (known: bool)
      modifies this`decisions
      ensures known == (path in old(decisions))
      ensures decisions == if known then old(decisions)[path := Declined] else old(decisions)
    {
      known := Set(path, Declined);
    }

    /** Afterwards nothing is left to review, and what is accepted is every file the proposal has. */
    method AcceptAll()
      modifies this`decisions
      ensures decisions == map path <- old(decisions) :: path := Accepted
      ensures Value().FullyReviewed() && Value().AcceptedPaths() == old(decisions.Keys)
    {
      decisions := map path <- decisions :: path := Accepted;
    }

    /** Afterwards nothing is left to review, and nothing is accepted. */
    method DeclineAll()
      modifies this`decisions
      ensures decisions == map path <- old(decisions) :: path := Declined
      ensures Value().FullyReviewed() && Value().AcceptedPaths() == {} && decisions.Keys == old(decisions.Keys)
    {
      decisions := map path <- decisions :: path := Declined;
    }

    method Reopen(diff: seq<FileChange>)
      modifies this`decisions
      ensures decisions == old(decisions) + UndecidedAll(diff)
    {
      for i := 0 to |diff|
        invariant decisions == old(decisions) + UndecidedAll(diff[..i])
      {
        UndecidedStep(diff, i);
        PutAfter(old(decisions), UndecidedAll(diff[..i]), diff[i].path, Undecided);
        decisions := decisions[diff[i].path := Undecided];
      }
      assert diff[..|diff|] == diff;
    }

    /**
     * A round of reviewer comments. Refused, with nothing changed, when the follow-up's own gate refused it;
     * otherwise every file it touches, decided before or not, is undecided again and nothing else moves.
     */
    method Address(diff: seq<FileChange>, gate: Report) returns (ok: bool)
      modifies this`decisions, this`followUps
      ensures ok == !gate.Rejected()
      ensures !ok ==> decisions == old(decisions) && followUps == old(followUps)
      ensures ok ==> decisions == old(decisions) + UndecidedAll(diff) && followUps == old(followUps) + [diff]
    {
      if gate.Rejected() {
        return false;
      }
      Reopen(diff);
      followUps := followUps + [diff];
      return true;
    }
  }

  lemma PutAfter(m: map<string, FileDecision>, more: map<string, FileDecision>, path: string, d: FileDecision)
    ensures (m + more)[path := d] == m + more[path := d]
  {
  }

  lemma UndecidedStep(diff: seq<FileChange>, i: nat)
    requires i < |diff|
    ensures UndecidedAll(diff[..i + 1]) == UndecidedAll(diff[..i])[diff[i].path := Undecided]
  {
    assert diff[..i + 1] == diff[..i] + [diff[i]];
  }

  /** So a round that touches any file leaves the proposal open, however far the review had got. */
  lemma AddressingReopens(p: Contents, diff: seq<FileChange>)
    requires diff != []
    ensures !p.(decisions := p.decisions + UndecidedAll(diff), followUps := p.followUps + [diff]).FullyReviewed()
  {
    var after := p.decisions + UndecidedAll(diff);
    assert diff[0] in diff && diff[0].path in after && after[diff[0].path] == Undecided;
  }

  /** A proposal exists only past the gate. */
  method Open(branch: string, files: seq<FileChange>, report: Report) returns (proposal: Option<Proposal>)
    ensures proposal.None? <==> report.Rejected()
    ensures proposal.Some? ==> fresh(proposal.value)
    ensures proposal.Some? ==> proposal.value.Value() == Contents(branch, files, report, UndecidedAll(files), [])
  {
    if report.Rejected() {
      return None;
    }
    var p := new Proposal(branch, files, report);
    proposal := Some(p);
  }

  // ---- Splitting ----

  /** The page each file belongs to, if it is one. */
  type Pages = FileChange -> Option<string>

  /** The route a layout serves each file under. */
  function PagesOf(layout: Layout): Pages {
    (f: FileChange) =>
      match Classify(layout, f.path)
      case Page(route) => Some(route)
      case _ => None
  }

  /** The files of one group, in their original order. */
  function GroupOf(files: seq<FileChange>, page: Pages, key: Option<string>): seq<FileChange> {
    if files == [] then []
    else
      GroupOf(files[..|files| - 1], page, key)
      + if page(files[|files| - 1]) == key then [files[|files| - 1]] else []
  }

  function PageRoutes(files: seq<FileChange>, page: Pages): set<string> {
    set f <- files | page(f).Some? :: page(f).value
  }

  function Dashed(route: string): string {
    if route == "" then "" else [if route[0] == '/' then '-' else route[0]] + Dashed(route[1..])
  }

  /** One part: the files it takes, on a branch of its own, each with the decision it had. */
  function PartOf(p: Contents, route: string, files: seq<FileChange>): Contents {
    Contents(p.branch + Dashed(route), files, p.report, map f <- files :: f.path := p.DecisionOn(f.path), [])
  }

  /** A part's branch is the whole's, and then its route with a dash for every slash. */
  lemma {:induction false} DashedIs(route: string)
    ensures |Dashed(route)| == |route|
    ensures forall k | 0 <= k < |route| :: Dashed(route)[k] == if route[k] == '/' then '-' else route[k]
  {
    if route != "" {
      DashedIs(route[1..]);
    }
  }

  ghost predicate Ascending(routes: seq<string>) {
    forall i, j | 0 <= i < j < |routes| :: routes[i] != routes[j] && LexLeq(routes[i], routes[j])
  }

  lemma ElementsAppend(routes: seq<string>, route: string)
    ensures ElementsOf(routes + [route]) == ElementsOf(routes) + {route}
  {
  }

  lemma {:induction false} LeastExists(routes: set<string>) returns (least: string)
    requires routes != {}
    ensures least in routes && forall r <- routes :: LexLeq(least, r)
    decreases |routes|
  {
    var r :| r in routes;
    LexTotal(r, r);
    if routes == {r} {
      least := r;
    } else {
      assert routes - {r} != {};
      least := LeastExists(routes - {r});
      LexTotal(least, r);
      if LexLeq(r, least) {
        forall s | s in routes
          ensures LexLeq(r, s)
        {
          if s != r {
            LexTransitive(r, least, s);
          }
        }
        least := r;
      }
    }
  }

  /** The files a part takes: its page's, and for the first part also what is no page. */
  function PartFiles(p: Contents, page: Pages, route: string, first: bool): seq<FileChange> {
    GroupOf(p.files, page, Some(route)) + if first then GroupOf(p.files, page, None) else []
  }

  /** Whether there is more than one group to part: two pages, or a page and something else. */
  predicate Splits(p: Contents, page: Pages) {
    |PageRoutes(p.files, page)| + (if GroupOf(p.files, page, None) == [] then 0 else 1) > 1
  }

  /** Files by page, and the files that are no page. */
  method GroupByPage(files: seq<FileChange>, page: Pages)
    returns (groups: map<string, seq<FileChange>>, leftovers: seq<FileChange>)
    ensures groups.Keys == PageRoutes(files, page)
    ensures forall r <- groups :: groups[r] == GroupOf(files, page, Some(r))
    ensures leftovers == GroupOf(files, page, None)
  {
    groups := map[];
    leftovers := [];
    for i := 0 to |files|
      invariant groups.Keys == PageRoutes(files[..i], page)
      invariant forall r <- groups :: groups[r] == GroupOf(files[..i], page, Some(r))
      invariant leftovers == GroupOf(files[..i], page, None)
    {
      GroupStep(files, page, i);
      match page(files[i])
      case Some(route) =>
        var held := if route in groups then groups[route] else [];
        groups := groups[route := held + [files[i]]];
      case None =>
        leftovers := leftovers + [files[i]];
    }
    assert files[..|files|] == files;
  }

  /** The keys of a sorted map, in the order it is walked. */
  method InOrder(keys: set<string>) returns (routes: seq<string>)
    ensures Ascending(routes) && ElementsOf(routes) == keys
  {
    routes := [];
    var remaining := keys;
    while remaining != {}
      invariant remaining <= keys && ElementsOf(routes) == keys - remaining
      invariant Ascending(routes)
      invariant forall r <- routes, s <- remaining :: LexLeq(r, s)
      decreases |remaining|
    {
      var _ := LeastExists(remaining);
      var route :| route in remaining && forall r <- remaining :: LexLeq(route, r);
      assert forall r <- routes :: r in ElementsOf(routes);
      ElementsAppend(routes, route);
      routes := routes + [route];
      remaining := remaining - {route};
    }
  }

  /** One proposal per page, in route order. */
  method SplitPerPage(p: Contents, layout: Layout) returns (parts: seq<Contents>, routes: seq<string>)
    ensures !Splits(p, PagesOf(layout)) ==> parts == [p] && routes == []
    ensures Splits(p, PagesOf(layout)) ==> IsSplit(p, PagesOf(layout), parts, routes)
  {
    var page := PagesOf(layout);
    var groups, leftovers := GroupByPage(p.files, page);
    if |groups.Keys| + (if leftovers == [] then 0 else 1) <= 1 {
      return [p], [];
    }
    routes := InOrder(groups.Keys);
    assert forall r <- routes :: r in ElementsOf(routes);
    parts := PartsInOrder(p, page, groups, leftovers, routes);
  }

  /** A part for each page in turn; the first takes the leftovers along. */
  method PartsInOrder(p: Contents, page: Pages, groups: map<string, seq<FileChange>>, leftovers: seq<FileChange>, routes: seq<string>)
    returns (parts: seq<Contents>)
    requires forall r <- routes :: r in groups && groups[r] == GroupOf(p.files, page, Some(r))
    requires leftovers == GroupOf(p.files, page, None)
    ensures parts == PartsFor(p, page, routes)
  {
    parts := [];
    for i := 0 to |routes|
      invariant parts == PartsFor(p, page, routes[..i])
    {
      assert routes[i] in routes;
      var files := groups[routes[i]];
      if i == 0 {
        files := files + leftovers;
      }
      assert files == PartFiles(p, page, routes[i], i == 0);
      PartsForStep(p, page, routes, i);
      parts := parts + [PartOf(p, routes[i], files)];
    }
    assert routes[..|routes|] == routes;
  }

  /** One part a page; the first also takes what is no page. */
  function PartsFor(p: Contents, page: Pages, routes: seq<string>): seq<Contents> {
    if routes == [] then []
    else
      var init, last := routes[..|routes| - 1], routes[|routes| - 1];
      PartsFor(p, page, init) + [PartOf(p, last, PartFiles(p, page, last, init == []))]
  }

  lemma {:induction false} PartsForStep(p: Contents, page: Pages, routes: seq<string>, i: nat)
    requires i < |routes|
    ensures PartsFor(p, page, routes[..i + 1])
            == PartsFor(p, page, routes[..i]) + [PartOf(p, routes[i], PartFiles(p, page, routes[i], i == 0))]
  {
    assert routes[..i + 1][..i] == routes[..i];
  }

  /** The parts of a split: one a page, in route order, every file where it belongs. */
  ghost predicate IsSplit(p: Contents, page: Pages, parts: seq<Contents>, routes: seq<string>) {
    Ascending(routes) && ElementsOf(routes) == PageRoutes(p.files, page) && parts == PartsFor(p, page, routes)
  }

  lemma {:induction false} GroupStep(files: seq<FileChange>, page: Pages, i: nat)
    requires i < |files|
    ensures forall key :: GroupOf(files[..i + 1], page, key)
              == GroupOf(files[..i], page, key) + if page(files[i]) == key then [files[i]] else []
    ensures PageRoutes(files[..i + 1], page)
            == PageRoutes(files[..i], page)
               + match page(files[i]) { case Some(r) => {r} case None => {} }
    ensures forall r | r !in PageRoutes(files[..i], page) :: GroupOf(files[..i], page, Some(r)) == []
  {
    var done := files[..i + 1];
    assert done[..i] == files[..i] && done == files[..i] + [files[i]];
    forall r | r !in PageRoutes(files[..i], page)
      ensures GroupOf(files[..i], page, Some(r)) == []
    {
      NoGroup(files[..i], page, r);
    }
  }

  lemma {:induction false} NoGroup(files: seq<FileChange>, page: Pages, r: string)
    requires r !in PageRoutes(files, page)
    ensures GroupOf(files, page, Some(r)) == []
  {
    if files != [] {
      var init, last := files[..|files| - 1], files[|files| - 1];
      assert files == init + [last];
      assert last in files && forall f <- init :: f in files;
      NoGroup(init, page, r);
    }
  }

  // ---- What splitting keeps ----

  ghost function AllFiles(parts: seq<Contents>): seq<FileChange> {
    if parts == [] then [] else AllFiles(parts[..|parts| - 1]) + parts[|parts| - 1].files
  }

  /** The files on any of a set of pages. */
  ghost function FilesOn(files: seq<FileChange>, page: Pages, routes: set<string>): seq<FileChange> {
    if files == [] then []
    else
      var last := files[|files| - 1];
      FilesOn(files[..|files| - 1], page, routes)
      + if page(last).Some? && page(last).value in routes then [last] else []
  }

  lemma {:induction false} FilesOnOneMore(files: seq<FileChange>, page: Pages, routes: set<string>, route: string)
    requires route !in routes
    ensures multiset(FilesOn(files, page, routes + {route}))
            == multiset(FilesOn(files, page, routes)) + multiset(GroupOf(files, page, Some(route)))
  {
    if files != [] {
      FilesOnOneMore(files[..|files| - 1], page, routes, route);
    }
  }

  lemma {:induction false} FilesOnAll(files: seq<FileChange>, page: Pages, routes: set<string>)
    requires PageRoutes(files, page) <= routes
    ensures multiset(FilesOn(files, page, routes)) + multiset(GroupOf(files, page, None)) == multiset(files)
  {
    if files != [] {
      var init, last := files[..|files| - 1], files[|files| - 1];
      assert files == init + [last];
      assert last in files && forall f <- init :: f in files;
      FilesOnAll(init, page, routes);
      if page(last).Some? {
        assert page(last).value in PageRoutes(files, page);
        assert FilesOn(files, page, routes) == FilesOn(init, page, routes) + [last];
        assert GroupOf(files, page, None) == GroupOf(init, page, None);
      } else {
        assert FilesOn(files, page, routes) == FilesOn(init, page, routes);
        assert GroupOf(files, page, None) == GroupOf(init, page, None) + [last];
      }
    }
  }

  lemma {:induction false} NoFilesOnNothing(files: seq<FileChange>, page: Pages)
    ensures FilesOn(files, page, {}) == []
  {
    if files != [] {
      NoFilesOnNothing(files[..|files| - 1], page);
    }
  }

  ghost predicate Distinct(routes: seq<string>) {
    forall i, j | 0 <= i < j < |routes| :: routes[i] != routes[j]
  }

  /** The leftovers travel with the first part and with no other. */
  ghost function Leftovers(p: Contents, page: Pages, taken: bool): multiset<FileChange> {
    if taken then multiset(GroupOf(p.files, page, None)) else multiset{}
  }

  lemma Regroup<T>(on: multiset<T>, one: multiset<T>, none: multiset<T>, first: bool)
    ensures (on + if first then multiset{} else none) + (one + if first then none else multiset{}) == (on + one) + none
  {
  }

  lemma PartMultiset(p: Contents, page: Pages, route: string, first: bool)
    ensures multiset(PartFiles(p, page, route, first))
            == multiset(GroupOf(p.files, page, Some(route))) + Leftovers(p, page, first)
  {
  }

  lemma {:induction false} PartsSoFar(p: Contents, page: Pages, routes: seq<string>)
    requires Distinct(routes)
    ensures multiset(AllFiles(PartsFor(p, page, routes)))
            == multiset(FilesOn(p.files, page, ElementsOf(routes))) + Leftovers(p, page, routes != [])
    decreases |routes|
  {
    if routes == [] {
      assert ElementsOf(routes) == {};
      NoFilesOnNothing(p.files, page);
    } else {
      var init, last := routes[..|routes| - 1], routes[|routes| - 1];
      var part := PartOf(p, last, PartFiles(p, page, last, init == []));
      assert routes == init + [last];
      PartsSoFar(p, page, init);
      ElementsAppend(init, last);
      FilesOnOneMore(p.files, page, ElementsOf(init), last);
      LastPart(PartsFor(p, page, init), part);
      PartMultiset(p, page, last, init == []);
      Regroup(multiset(FilesOn(p.files, page, ElementsOf(init))), multiset(GroupOf(p.files, page, Some(last))),
              multiset(GroupOf(p.files, page, None)), init == []);
    }
  }

  lemma LastPart(parts: seq<Contents>, part: Contents)
    ensures multiset(AllFiles(parts + [part])) == multiset(AllFiles(parts)) + multiset(part.files)
  {
    assert (parts + [part])[..|parts|] == parts;
  }

  lemma {:induction false} PartAt(p: Contents, page: Pages, routes: seq<string>, k: nat)
    requires k < |routes|
    ensures |PartsFor(p, page, routes)| == |routes|
    ensures PartsFor(p, page, routes)[k] == PartOf(p, routes[k], PartFiles(p, page, routes[k], k == 0))
  {
    if k < |routes| - 1 {
      PartAt(p, page, routes[..|routes| - 1], k);
    } else if k > 0 {
      PartAt(p, page, routes[..|routes| - 1], 0);
    }
  }

  /** The parts hold the original files, each exactly once, whichever part it went to. */
  lemma {:induction false} SplitIsPartition(p: Contents, page: Pages, parts: seq<Contents>, routes: seq<string>)
    requires Splits(p, page) && IsSplit(p, page, parts, routes)
    ensures multiset(AllFiles(parts)) == multiset(p.files)
  {
    assert |PageRoutes(p.files, page)| > 0;
    assert |routes| > 0;
    assert Distinct(routes);
    PartsSoFar(p, page, routes);
    FilesOnAll(p.files, page, PageRoutes(p.files, page));
  }

  lemma {:induction false} PartIsSubMultiset(parts: seq<Contents>, k: nat)
    requires k < |parts|
    ensures multiset(parts[k].files) <= multiset(AllFiles(parts))
  {
    if k < |parts| - 1 {
      PartIsSubMultiset(parts[..|parts| - 1], k);
    }
  }

  lemma {:induction false} PartIs(p: Contents, page: Pages, parts: seq<Contents>, routes: seq<string>, k: nat)
    requires IsSplit(p, page, parts, routes) && k < |parts| == |routes|
    ensures parts[k] == PartOf(p, routes[k], PartFiles(p, page, routes[k], k == 0))
  {
    PartAt(p, page, routes, k);
  }

  /** A part holds files of its own page, and the first part also those of none. */
  lemma {:induction false} PartIsOnePage(p: Contents, page: Pages, parts: seq<Contents>, routes: seq<string>, k: nat)
    requires Splits(p, page) && IsSplit(p, page, parts, routes) && k < |parts| == |routes|
    ensures multiset(parts[k].files) <= multiset(p.files)
    ensures forall f <- parts[k].files :: page(f) == Some(routes[k]) || (k == 0 && page(f) == None)
    ensures parts[k].branch == p.branch + Dashed(routes[k]) && parts[k].report == p.report && parts[k].followUps == []
    ensures parts[k].decisions.Keys == set f <- parts[k].files :: f.path
  {
    SplitIsPartition(p, page, parts, routes);
    PartAt(p, page, routes, k);
    PartIsSubMultiset(parts, k);
    GroupHasKey(p.files, page, Some(routes[k]));
    GroupHasKey(p.files, page, None);
  }

  /**
   * Splitting is safe without gating again: a part carries no finding, rejection or flag, that the whole did
   * not, nor any more often, so a part of a diff the gate passed would pass it too.
   */
  lemma {:induction false} SplitIsSafe(p: Contents, inputs: Inputs, parts: seq<Contents>, routes: seq<string>, k: nat)
    requires inputs.files == p.files && CapsAreFelt(inputs)
    requires Splits(p, PagesOf(inputs.layout)) && IsSplit(p, PagesOf(inputs.layout), parts, routes) && k < |parts| == |routes|
    ensures multiset(AllFindings(inputs.(files := parts[k].files))) <= multiset(AllFindings(inputs))
    ensures !ReportOn(inputs).Rejected() ==> !ReportOn(inputs.(files := parts[k].files)).Rejected()
  {
    PartIsOnePage(p, PagesOf(inputs.layout), parts, routes, k);
    FindingsAreMonotone(inputs, parts[k].files);
    if !ReportOn(inputs).Rejected() {
      RejectionIsMonotone(inputs.(files := parts[k].files), inputs);
    }
  }

  lemma {:induction false} PartsKeepDecisions(p: Contents, page: Pages, parts: seq<Contents>, routes: seq<string>, k: nat)
    requires Splits(p, page) && IsSplit(p, page, parts, routes) && k < |parts| == |routes|
    ensures forall f <- parts[k].files :: f in p.files && parts[k].DecisionOn(f.path) == p.DecisionOn(f.path)
  {
    PartIsOnePage(p, page, parts, routes, k);
    PartIs(p, page, parts, routes, k);
    forall f | f in parts[k].files
      ensures f in p.files
    {
      assert f in multiset(parts[k].files);
      assert f in multiset(p.files);
    }
  }

  lemma {:induction false} GroupHasKey(files: seq<FileChange>, page: Pages, key: Option<string>)
    ensures forall f <- GroupOf(files, page, key) :: page(f) == key
  {
    if files != [] {
      GroupHasKey(files[..|files| - 1], page, key);
    }
  }

  // ---- When two parts ask for one branch ----

  predicate SameDash(a: char, b: char) {
    a == b || (a in {'/', '-'} && b in {'/', '-'})
  }

  /** Whether two routes differ at most in which of their places hold a slash and which a dash. */
  predicate DashAlike(a: string, b: string) {
    |a| == |b| && forall k | 0 <= k < |a| :: SameDash(a[k], b[k])
  }

  lemma {:induction false} DashedIff(a: string, b: string)
    ensures Dashed(a) == Dashed(b) <==> DashAlike(a, b)
  {
    DashedLength(a);
    DashedLength(b);
    if a != "" && b != "" {
      DashedIff(a[1..], b[1..]);
      assert Dashed(a) == [Dashed(a)[0]] + Dashed(a[1..]) && Dashed(b) == [Dashed(b)[0]] + Dashed(b[1..]);
      assert Dashed(a)[1..] == Dashed(a[1..]) && Dashed(b)[1..] == Dashed(b[1..]);
      assert DashAlike(a, b) <==> SameDash(a[0], b[0]) && DashAlike(a[1..], b[1..]) by {
        forall k | 0 <= k < |a|
          ensures k > 0 ==> a[k] == a[1..][k - 1]
        {
        }
        forall k | 0 <= k < |b|
          ensures k > 0 ==> b[k] == b[1..][k - 1]
        {
        }
      }
    }
  }

  lemma {:induction false} DashedLength(a: string)
    ensures |Dashed(a)| == |a|
  {
    if a != "" {
      DashedLength(a[1..]);
    }
  }

  /** Two parts of a split ask for the same branch exactly when their routes differ only in slashes and dashes. */
  lemma BranchesAgreeIff(p: Contents, page: Pages, parts: seq<Contents>, routes: seq<string>, i: nat, j: nat)
    requires IsSplit(p, page, parts, routes) && i < |routes| && j < |routes|
    ensures |parts| == |routes| && (parts[i].branch == parts[j].branch <==> DashAlike(routes[i], routes[j]))
  {
    PartAt(p, page, routes, i);
    PartAt(p, page, routes, j);
    DashedIff(routes[i], routes[j]);
    assert (p.branch + Dashed(routes[i]))[|p.branch|..] == Dashed(routes[i]);
    assert (p.branch + Dashed(routes[j]))[|p.branch|..] == Dashed(routes[j]);
  }

  /** A run over two pages whose routes differ in a slash and a dash: its split has two parts on one branch. */
  lemma BranchesCollide(p: Contents, page: Pages, one: FileChange, other: FileChange)
    requires p.files == [one, other] && page(one) == Some("/a/b") && page(other) == Some("/a-b")
    ensures var routes := ["/a-b", "/a/b"];
            var parts := PartsFor(p, page, routes);
            && Splits(p, page) && IsSplit(p, page, parts, routes)
            && |parts| == 2 && parts[0].branch == parts[1].branch
  {
    var routes := ["/a-b", "/a/b"];
    assert one in p.files && other in p.files;
    assert "/a/b" in PageRoutes(p.files, page) && "/a-b" in PageRoutes(p.files, page);
    assert routes[0] != routes[1] by {
      assert routes[0][2] == '-' && routes[1][2] == '/';
    }
    assert PageRoutes(p.files, page) == {routes[0], routes[1]};
    assert ElementsOf(routes) == {routes[0], routes[1]};
    InDashOrder();
    assert |{routes[0], routes[1]}| == 2;
    BranchesAgreeIff(p, page, PartsFor(p, page, routes), routes, 0, 1);
  }

  lemma InDashOrder()
    ensures LexLeq("/a-b", "/a/b")
  {
    assert "/a-b"[1..] == "a-b" && "/a/b"[1..] == "a/b";
    assert "a-b"[1..] == "-b" && "a/b"[1..] == "/b";
    assert LexLeq("-b", "/b");
    assert LexLeq("a-b", "a/b");
  }

  /** And such files exist, in a layout with no content root: `a/b.md`, and `a-b.md`. */
  lemma SlashedPage(layout: Layout, f: FileChange)
    requires layout == Layout("liyasa.json", "AGENTS.md", {}, "") && f.path == "a/b.md"
    ensures PagesOf(layout)(f) == Some("/a/b")
  {
    NestedPath("a", "b.md");
    SlashedSpelling();
    ShortPage(layout, f, "a/b", "/a/b");
  }

  lemma DashedPage(layout: Layout, f: FileChange)
    requires layout == Layout("liyasa.json", "AGENTS.md", {}, "") && f.path == "a-b.md"
    ensures PagesOf(layout)(f) == Some("/a-b")
  {
    FlatPath(f.path);
    DashedSpelling();
    ShortPage(layout, f, "a-b", "/a-b");
  }

  /** So a run over those two files splits into two proposals that ask for one branch. */
  lemma TwoPagesOneBranch(p: Contents, layout: Layout, one: FileChange, other: FileChange)
    requires layout == Layout("liyasa.json", "AGENTS.md", {}, "")
    requires p.files == [one, other] && one.path == "a/b.md" && other.path == "a-b.md"
    ensures exists parts: seq<Contents>, routes :: IsSplit(p, PagesOf(layout), parts, routes) && |parts| == 2 && parts[0].branch == parts[1].branch
  {
    SlashedPage(layout, one);
    DashedPage(layout, other);
    BranchesCollide(p, PagesOf(layout), one, other);
  }

  lemma SlashedSpelling()
    ensures "a/b" + ".md" == "a/b.md" && "/" + "a/b" == "/a/b"
  {
  }

  lemma DashedSpelling()
    ensures "a-b" + ".md" == "a-b.md" && "/" + "a-b" == "/a-b"
  {
  }

  lemma ShortPage(layout: Layout, f: FileChange, t: string, route: string)
    requires layout == Layout("liyasa.json", "AGENTS.md", {}, "")
    requires |t| == 3 && t + ".md" == f.path && "/" + t == route && CanonicalPath(f.path) == Some(f.path)
    ensures PagesOf(layout)(f) == Some(route)
  {
    MdHasStem(layout, t);
    assert ContentPrefix(layout) + (t + ".md") == f.path;
    RouteOfIff(layout, f.path, t);
    ShortPaths(layout, f.path);
  }

  lemma ShortPaths(layout: Layout, path: string)
    requires layout == Layout("liyasa.json", "AGENTS.md", {}, "") && |path| == 6
    ensures path != layout.configFile && path != layout.agentsFile && !EndsWith(path, "/" + layout.agentsFile)
  {
    assert |"/" + layout.agentsFile| == 10;
  }

  lemma FlatPath(name: string)
    requires name == "a-b.md"
    ensures CanonicalPath(name) == Some(name)
  {
    SplitFree(name, {'/', '\\'});
    NamedFixed([name]);
  }

  lemma NestedPath(dir: string, name: string)
    requires dir == "a" && name == "b.md"
    ensures CanonicalPath("a/b.md") == Some("a/b.md")
  {
    var seps := {'/', '\\'};
    assert "a/b.md" == dir + ['/'] + name;
    NestedParts(dir, name);
    assert Join([dir, name], "/") == "a/b.md" by {
      assert [dir, name][1..] == [name];
      assert dir + "/" + name == "a/b.md";
    }
  }

  lemma NestedParts(dir: string, name: string)
    requires dir == "a" && name == "b.md"
    ensures Split(dir + ['/'] + name, {'/', '\\'}) == [dir, name] && Named([dir, name]) == [dir, name]
  {
    var seps := {'/', '\\'};
    SplitFree(dir, seps);
    SplitFree(name, seps);
    SplitAppend(dir, '/', name, seps);
    NamedFixed([dir, name]);
  }
}
