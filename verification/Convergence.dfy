/** What a whole index pass comes to: the rows each page produces now, whatever was interrupted on the way. */
module Convergence {
  import opened Common
  import opened Rows
  import opened IndexPass

  /** No two tasks disagree about one route. */
  ghost predicate Coherent(plan: seq<Task>) {
    forall a <- plan, b <- plan :: a.route == b.route ==> a == b
  }

  ghost predicate Sane(plan: seq<Task>) {
    WellFormed(plan) && Coherent(plan)
  }

  lemma {:induction false} WithdrawnHas(asked: seq<string>, returned: set<string>, route: string)
    ensures route in Withdrawn(asked, returned) <==> route in asked && route !in returned
  {
    if asked != [] {
      var init, last := asked[..|asked| - 1], asked[|asked| - 1];
      assert asked == init + [last];
      WithdrawnHas(init, returned, route);
    }
  }

  lemma {:induction false} TasksHave(pages: seq<Page>, t: Task)
    ensures t in TasksOf(pages) <==> exists p <- pages :: t == Task(p.route, p.Records())
  {
    if pages != [] {
      var init, last := pages[..|pages| - 1], pages[|pages| - 1];
      assert pages == init + [last];
      TasksHave(init, t);
    }
  }

  /** What a plan holds: a task for every page returned, and an empty one for every route asked for and gone. */
  lemma PlanHas(asked: seq<string>, pages: seq<Page>, t: Task)
    ensures t in PlanOf(asked, pages)
            <==> (exists p <- pages :: t.route == p.route && match p.outcome { case Ok(records) => t.records == records case Err(_) => t.records == [] })
                 || (t.route in asked && t.records == [] && t.route !in Returned(pages))
  {
    TasksHave(pages, t);
    assert (exists p <- pages :: t == Task(p.route, p.Records()))
           <==> exists p <- pages :: t.route == p.route && match p.outcome { case Ok(records) => t.records == records case Err(_) => t.records == [] };
    WithdrawnHas(asked, Returned(pages), t.route);
    var gone := Withdrawn(asked, Returned(pages));
    if t.records == [] && t.route in gone {
      var i :| 0 <= i < |gone| && gone[i] == t.route;
      assert Withdrawals(gone)[i] == t;
    }
  }

  /** Pages with well-formed records, one a route, make a plan with nothing to disagree about. */
  lemma PlansAreSane(asked: seq<string>, pages: seq<Page>)
    requires forall p <- pages :: OfRoute(p.Records(), p.route)
    requires forall p <- pages, q <- pages :: p.route == q.route ==> p == q
    ensures Sane(PlanOf(asked, pages))
  {
    var plan := PlanOf(asked, pages);
    forall t | t in plan
      ensures OfRoute(t.records, t.route)
    {
      PlanHas(asked, pages, t);
    }
    forall a, b | a in plan && b in plan && a.route == b.route
      ensures a == b
    {
      PlanHas(asked, pages, a);
      PlanHas(asked, pages, b);
    }
  }

  lemma SaneInit(plan: seq<Task>)
    requires Sane(plan) && plan != []
    ensures Sane(plan[..|plan| - 1]) && OfRoute(plan[|plan| - 1].records, plan[|plan| - 1].route)
  {
    var init := plan[..|plan| - 1];
    assert forall t <- init :: t in plan;
    assert plan[|plan| - 1] in plan;
  }

  lemma SameOnChain(a: Rows, b: Rows, c: Rows, route: string)
    requires SameOn(a, b, route) && SameOn(b, c, route)
    ensures SameOn(a, c, route)
  {
    forall id: Id | id.route == route
      ensures SameAt(a, c, id)
    {
      assert SameAt(a, b, id) && SameAt(b, c, id);
    }
  }

  lemma ElsewhereIsSame(rows: Rows, t: Task, embed: string -> Vector, route: string)
    requires OfRoute(t.records, t.route) && t.route != route
    ensures SameOn(Refreshed(rows, t.route, t.records, embed), rows, route)
  {
    forall id: Id | id.route == route
      ensures SameAt(Refreshed(rows, t.route, t.records, embed), rows, id)
    {
      RefreshedElsewhere(rows, t.route, t.records, embed, id);
    }
  }

  /** A route no task is about keeps its rows. */
  lemma {:induction false} OthersAreUntouched(rows: Rows, plan: seq<Task>, embed: string -> Vector, route: string)
    requires Sane(plan) && forall t <- plan :: t.route != route
    ensures SameOn(After(rows, plan, embed), rows, route)
  {
    if plan != [] {
      var init, last := plan[..|plan| - 1], plan[|plan| - 1];
      SaneInit(plan);
      assert last in plan && forall t <- init :: t in plan;
      OthersAreUntouched(rows, init, embed, route);
      ElsewhereIsSame(After(rows, init, embed), last, embed, route);
      SameOnChain(After(rows, plan, embed), After(rows, init, embed), rows, route);
    }
  }

  /** Done once or many times, among whatever other tasks, a task leaves on its route what it would leave alone. */
  lemma {:induction false} EachTaskIsDone(rows: Rows, plan: seq<Task>, embed: string -> Vector, t: Task)
    requires Sane(plan) && t in plan
    ensures SameOn(After(rows, plan, embed), Refreshed(rows, t.route, t.records, embed), t.route)
    decreases |plan|
  {
    var init, last := plan[..|plan| - 1], plan[|plan| - 1];
    assert plan == init + [last];
    SaneInit(plan);
    var before := After(rows, init, embed);
    var alone := Refreshed(rows, t.route, t.records, embed);
    if last.route == t.route {
      assert last == t;
      if t in init {
        EachTaskIsDone(rows, init, embed, t);
        RefreshedIsLocal(before, alone, t.route, t.records, embed);
        SecondPassIsIdle(rows, t.route, t.records, embed);
      } else {
        assert forall u <- init :: u in plan;
        OthersAreUntouched(rows, init, embed, t.route);
        RefreshedIsLocal(before, rows, t.route, t.records, embed);
      }
    } else {
      EachTaskIsDone(rows, init, embed, t);
      ElsewhereIsSame(before, last, embed, t.route);
      SameOnChain(After(rows, plan, embed), before, alone, t.route);
    }
  }

  // ---- What a finished pass leaves ----

  /** The rows of a route are the chunks its page produces now, each with its own text's hash. */
  ghost predicate Current(rows: Rows, route: string, produced: seq<Record>) {
    && (forall id: Id | id.route == route :: id in rows <==> id in IdsOf(produced))
    && (forall r <- produced :: r.id in rows && rows[r.id].record.hash == r.hash)
  }

  /** Every route the pass was about holds exactly what its page produces: nothing for one excluded or withdrawn. */
  lemma PassLeavesEveryRouteCurrent(rows: Rows, plan: seq<Task>, embed: string -> Vector, t: Task)
    requires Sane(plan) && t in plan
    ensures Current(After(rows, plan, embed), t.route, t.records)
  {
    var after, alone := After(rows, plan, embed), Refreshed(rows, t.route, t.records, embed);
    EachTaskIsDone(rows, plan, embed, t);
    forall id: Id | id.route == t.route
      ensures id in after <==> id in IdsOf(t.records)
    {
      assert SameAt(after, alone, id);
      RefreshedAt(rows, t.route, t.records, embed, id);
    }
    forall r | r in t.records
      ensures r.id in after && after[r.id].record.hash == r.hash
    {
      assert SameAt(after, alone, r.id);
      RefreshedHolds(rows, t.route, t.records, embed, r);
    }
  }

  /** And under each of its chunks, the current text and the vector made from it. */
  lemma PassLeavesTextsCurrent(rows: Rows, plan: seq<Task>, hash: string -> string, embed: string -> Vector, t: Task, r: Record)
    requires Sane(plan) && t in plan && r in t.records
    requires Faithful(rows, hash, embed) && Hashed(t.records, hash) && Injective(hash)
    ensures r.id in After(rows, plan, embed)
    ensures var row := After(rows, plan, embed)[r.id];
            row.record.text == r.text && row.vector == embed(r.text)
            && (row.record == r <==> !(r.id in rows && rows[r.id].record.hash == r.hash && rows[r.id].record.context != r.context))
  {
    EachTaskIsDone(rows, plan, embed, t);
    assert SameAt(After(rows, plan, embed), Refreshed(rows, t.route, t.records, embed), r.id);
    TextAndVectorAreCurrent(rows, t.route, t.records, hash, embed, r);
    MetadataIsCurrentIff(rows, t.route, t.records, hash, embed, r);
  }

  lemma {:induction false} PassStaysFaithful(rows: Rows, plan: seq<Task>, hash: string -> string, embed: string -> Vector)
    requires Sane(plan) && Faithful(rows, hash, embed) && forall t <- plan :: Hashed(t.records, hash)
    ensures Faithful(After(rows, plan, embed), hash, embed)
  {
    if plan != [] {
      var init, last := plan[..|plan| - 1], plan[|plan| - 1];
      SaneInit(plan);
      assert last in plan && forall t <- init :: t in plan;
      PassStaysFaithful(rows, init, hash, embed);
      RefreshedStaysFaithful(After(rows, init, embed), last.route, last.records, hash, embed);
    }
  }

  // ---- Running again ----

  /** Two stores that agree on every route agree. */
  lemma AgreeEverywhere(a: Rows, b: Rows)
    requires forall route: string :: SameOn(a, b, route)
    ensures a == b
  {
    forall id: Id
      ensures (id in a <==> id in b) && (id in a ==> a[id] == b[id])
    {
      assert SameOn(a, b, id.route) && SameAt(a, b, id);
    }
    SameRows(a, b);
  }

  lemma TakeIsSane(plan: seq<Task>, i: nat)
    requires Sane(plan) && i <= |plan|
    ensures Sane(plan[..i])
  {
    assert forall t <- plan[..i] :: t in plan;
  }

  /** A store a pass was interrupted on refreshes, on any route of the plan, as the store it started from would. */
  lemma MidwayRefreshesTheSame(rows: Rows, plan: seq<Task>, embed: string -> Vector, i: nat, midway: Rows, t: Task)
    requires Sane(plan) && StoppedAt(rows, plan, embed, i, midway) && t in plan
    ensures SameOn(Refreshed(midway, t.route, t.records, embed), Refreshed(rows, t.route, t.records, embed), t.route)
  {
    var before := After(rows, plan[..i], embed);
    TakeIsSane(plan, i);
    assert plan[i] in plan && forall u <- plan[..i] :: u in plan;
    RerunFinishes(before, plan[i].route, plan[i].records, embed, midway);
    if plan[i].route == t.route {
      assert plan[i] == t;
    } else {
      assert SameOn(midway, before, t.route);
      RefreshedIsLocal(midway, before, t.route, t.records, embed);
    }
    BeforeRefreshesTheSame(rows, plan[..i], embed, t);
    SameOnChain(Refreshed(midway, t.route, t.records, embed), Refreshed(before, t.route, t.records, embed),
                Refreshed(rows, t.route, t.records, embed), t.route);
  }

  lemma BeforeRefreshesTheSame(rows: Rows, done: seq<Task>, embed: string -> Vector, t: Task)
    requires Sane(done) && OfRoute(t.records, t.route) && forall u <- done :: u.route == t.route ==> u == t
    ensures SameOn(Refreshed(After(rows, done, embed), t.route, t.records, embed),
                   Refreshed(rows, t.route, t.records, embed), t.route)
  {
    var before, alone := After(rows, done, embed), Refreshed(rows, t.route, t.records, embed);
    if t in done {
      EachTaskIsDone(rows, done, embed, t);
      RefreshedIsLocal(before, alone, t.route, t.records, embed);
      SecondPassIsIdle(rows, t.route, t.records, embed);
    } else {
      OthersAreUntouched(rows, done, embed, t.route);
      RefreshedIsLocal(before, rows, t.route, t.records, embed);
    }
  }

  lemma MidwayElsewhere(rows: Rows, plan: seq<Task>, embed: string -> Vector, i: nat, midway: Rows, route: string)
    requires Sane(plan) && StoppedAt(rows, plan, embed, i, midway) && forall t <- plan :: t.route != route
    ensures SameOn(midway, rows, route)
  {
    TakeIsSane(plan, i);
    assert plan[i] in plan && forall u <- plan[..i] :: u in plan;
    RerunFinishes(After(rows, plan[..i], embed), plan[i].route, plan[i].records, embed, midway);
    OthersAreUntouched(rows, plan[..i], embed, route);
    SameOnChain(midway, After(rows, plan[..i], embed), rows, route);
  }

  /** Interrupted at any store or embed step and run again, a pass ends with the rows it would have ended with. */
  lemma RerunReachesTheSameRows(rows: Rows, plan: seq<Task>, embed: string -> Vector, i: nat, midway: Rows)
    requires Sane(plan) && StoppedAt(rows, plan, embed, i, midway)
    ensures After(midway, plan, embed) == After(rows, plan, embed)
  {
    forall route: string
      ensures SameOn(After(midway, plan, embed), After(rows, plan, embed), route)
    {
      if t :| t in plan && t.route == route {
        EachTaskIsDone(rows, plan, embed, t);
        EachTaskIsDone(midway, plan, embed, t);
        MidwayRefreshesTheSame(rows, plan, embed, i, midway, t);
        SameOnChain(After(midway, plan, embed), Refreshed(midway, t.route, t.records, embed),
                    Refreshed(rows, t.route, t.records, embed), route);
        SameOnChain(After(midway, plan, embed), Refreshed(rows, t.route, t.records, embed), After(rows, plan, embed), route);
      } else {
        OthersAreUntouched(rows, plan, embed, route);
        OthersAreUntouched(midway, plan, embed, route);
        MidwayElsewhere(rows, plan, embed, i, midway, route);
        SameOnChain(After(midway, plan, embed), midway, rows, route);
        SameOnChain(After(midway, plan, embed), rows, After(rows, plan, embed), route);
      }
    }
    AgreeEverywhere(After(midway, plan, embed), After(rows, plan, embed));
  }

  /** Stores a plan was stopped on one after another, each run starting from where the last one stopped. */
  ghost predicate StopsThrough(rows: Rows, plan: seq<Task>, embed: string -> Vector, stops: seq<Rows>)
    decreases |stops|
  {
    stops == []
    || ((exists i: nat :: StoppedAt(rows, plan, embed, i, stops[0])) && StopsThrough(stops[0], plan, embed, stops[1..]))
  }

  /** However many runs were stopped, the one that finishes ends with the rows the first would have ended with. */
  lemma {:induction false} RerunsReachTheSameRows(rows: Rows, plan: seq<Task>, embed: string -> Vector, stops: seq<Rows>)
    requires Sane(plan) && StopsThrough(rows, plan, embed, stops) && stops != []
    ensures After(stops[|stops| - 1], plan, embed) == After(rows, plan, embed)
    decreases |stops|
  {
    var i: nat :| StoppedAt(rows, plan, embed, i, stops[0]);
    RerunReachesTheSameRows(rows, plan, embed, i, stops[0]);
    if |stops| > 1 {
      RerunsReachTheSameRows(stops[0], plan, embed, stops[1..]);
    }
  }

  /** A pass run again after each failure: when one succeeds, the rows are those of a pass that never failed. */
  method RunUntilDone(job: IndexJob, asked: seq<string>, pages: seq<Page>, tries: nat) returns (result: Result<Report, JobError>)
    requires tries > 0 && Sane(PlanOf(asked, pages)) && forall p <- pages :: OfRoute(p.Records(), p.route)
    modifies job.embedder, job.embedder.store
    ensures var plan := PlanOf(asked, pages);
            && (result.Ok? ==> job.embedder.store.rows == After(old(job.embedder.store.rows), plan, job.embedder.embed))
            && After(job.embedder.store.rows, plan, job.embedder.embed)
               == After(old(job.embedder.store.rows), plan, job.embedder.embed)
  {
    ghost var plan, embed := PlanOf(asked, pages), job.embedder.embed;
    ghost var rows := job.embedder.store.rows;
    var left := tries;
    while true
      invariant left > 0 && After(job.embedder.store.rows, plan, embed) == After(rows, plan, embed)
      decreases left
    {
      ghost var before := job.embedder.store.rows;
      ghost var stopped;
      result, stopped := job.Run(asked, Some(pages));
      left := left - 1;
      if result.Ok? {
        FurtherPassIsIdle(before, plan, embed);
        return;
      }
      RerunReachesTheSameRows(before, plan, embed, stopped, job.embedder.store.rows);
      if left == 0 {
        return;
      }
    }
  }

  /** A route that is current gives its page nothing to embed and nothing to delete. */
  lemma CurrentIsIdle(s: State, t: Task, embed: string -> Vector)
    requires OfRoute(t.records, t.route) && Current(s.rows, t.route, t.records)
    ensures s.Do(t, embed) == s.(untouched := s.untouched + |t.records|)
  {
    assert forall r <- t.records :: IsUnchanged(s.rows, r);
    NothingChanged(s.rows, t.records);
    assert Stale(s.rows, t.route, t.records) == {};
    assert s.rows - {} == s.rows;
    assert Embedded([], embed) == [];
  }

  lemma {:induction false} IdlePrefix(rows: Rows, plan: seq<Task>, done: seq<Task>, embed: string -> Vector)
    requires Sane(plan) && (forall t <- done :: t in plan) && forall t <- plan :: Current(rows, t.route, t.records)
    ensures var s := DoAll(State(rows, 0, 0, 0), done, embed);
            s.rows == rows && s.embedded == 0 && s.deleted == 0
  {
    if done != [] {
      var init, last := done[..|done| - 1], done[|done| - 1];
      assert last in done && forall t <- init :: t in done;
      IdlePrefix(rows, plan, init, embed);
      CurrentIsIdle(DoAll(State(rows, 0, 0, 0), init, embed), last, embed);
    }
  }

  /** A further pass over the same pages embeds nothing, deletes nothing, and leaves the rows alone. */
  lemma FurtherPassIsIdle(rows: Rows, plan: seq<Task>, embed: string -> Vector)
    requires Sane(plan)
    ensures var s := DoAll(State(After(rows, plan, embed), 0, 0, 0), plan, embed);
            s.rows == After(rows, plan, embed) && s.embedded == 0 && s.deleted == 0
  {
    forall t | t in plan
      ensures Current(After(rows, plan, embed), t.route, t.records)
    {
      PassLeavesEveryRouteCurrent(rows, plan, embed, t);
    }
    IdlePrefix(After(rows, plan, embed), plan, plan, embed);
  }

  // ---- What a report counts ----

  /** Whether the store as it is has no row for a record, or one with another hash. */
  function Differs(rows: Rows): Record -> nat {
    (r: Record) => if r.id in rows && rows[r.id].record.hash == r.hash then 0 else 1
  }

  function RecordsOf(): Task -> nat {
    (t: Task) => |t.records|
  }

  function DifferingOf(rows: Rows): Task -> nat {
    (t: Task) => SumBy(t.records, Differs(rows))
  }

  function StaleOf(rows: Rows): Task -> nat {
    (t: Task) => |Stale(rows, t.route, t.records)|
  }

  lemma {:induction false} ChangedCount(rows: Rows, records: seq<Record>)
    ensures |Changed(rows, records)| == SumBy(records, Differs(rows)) <= |records|
  {
    if records != [] {
      var init, last := records[..|records| - 1], records[|records| - 1];
      assert records == init + [last];
      ChangedCount(rows, init);
      SumByPush(init, last, Differs(rows));
    }
  }

  /** A task counts the same over stores that agree on its route. */
  lemma SameCounts(a: Rows, b: Rows, t: Task)
    requires OfRoute(t.records, t.route) && SameOn(a, b, t.route)
    ensures |Changed(a, t.records)| == |Changed(b, t.records)| && Stale(a, t.route, t.records) == Stale(b, t.route, t.records)
  {
    ChangedCount(a, t.records);
    ChangedCount(b, t.records);
    forall r | r in t.records
      ensures Differs(a)(r) == Differs(b)(r)
    {
      assert SameAt(a, b, r.id);
    }
    SumBySame(t.records, Differs(a), Differs(b));
    forall id: Id | id.route == t.route
      ensures id in a <==> id in b
    {
      assert SameAt(a, b, id);
    }
  }

  /** As embedded the records that differ, as untouched the others, and as deleted the rows no longer produced. */
  ghost predicate Counts(s: State, rows: Rows, plan: seq<Task>) {
    && s.embedded == SumBy(plan, DifferingOf(rows))
    && s.embedded + s.untouched == SumBy(plan, RecordsOf())
    && s.deleted == SumBy(plan, StaleOf(rows))
  }

  lemma OneMoreCounts(s: State, rows: Rows, init: seq<Task>, last: Task, embed: string -> Vector)
    requires Counts(s, rows, init) && OfRoute(last.records, last.route) && SameOn(s.rows, rows, last.route)
    ensures Counts(s.Do(last, embed), rows, init + [last])
  {
    SameCounts(s.rows, rows, last);
    ChangedCount(rows, last.records);
    SumByPush(init, last, DifferingOf(rows));
    SumByPush(init, last, RecordsOf());
    SumByPush(init, last, StaleOf(rows));
  }

  /** What the report of a pass over distinct routes counts is what differs from the store as it was before it. */
  lemma {:induction false} ReportCounts(rows: Rows, plan: seq<Task>, embed: string -> Vector)
    requires WellFormed(plan) && forall i, j | 0 <= i < j < |plan| :: plan[i].route != plan[j].route
    ensures Counts(DoAll(State(rows, 0, 0, 0), plan, embed), rows, plan)
  {
    if plan != [] {
      var init, last := plan[..|plan| - 1], plan[|plan| - 1];
      assert plan == init + [last];
      ReportCounts(rows, init, embed);
      assert Coherent(init) && last in plan && forall t <- init :: t in plan;
      OthersAreUntouched(rows, init, embed, last.route);
      OneMoreCounts(DoAll(State(rows, 0, 0, 0), init, embed), rows, init, last, embed);
    }
  }

  /** A pass over the whole site asks for no route, so it withdraws none: a page that is gone keeps its rows. */
  lemma WholeSiteWithdrawsNothing(rows: Rows, pages: seq<Page>, embed: string -> Vector, route: string)
    requires Sane(PlanOf([], pages)) && route !in Returned(pages)
    ensures SameOn(After(rows, PlanOf([], pages), embed), rows, route)
  {
    forall t | t in PlanOf([], pages)
      ensures t.route != route
    {
      PlanHas([], pages, t);
    }
    OthersAreUntouched(rows, PlanOf([], pages), embed, route);
  }
}
