/** One index pass over a deployment's pages: each page's delta, applied, and the routes that went away. */
module IndexPass {
  import opened Common
  import opened Rows
  import opened Embedding

  // ---- The delta of one page ----

  datatype Delta = Delta(embed: seq<Record>, delete: seq<Id>, untouched: nat)

  /** The held hashes by id, a later entry replacing an earlier one. */
  function ByIdOf(existing: seq<Held>): map<Id, string> {
    if existing == [] then map[]
    else
      var last := existing[|existing| - 1];
      ByIdOf(existing[..|existing| - 1])[last.id := last.hash]
  }

  function Differing(held: map<Id, string>, produced: seq<Record>): seq<Record> {
    if produced == [] then []
    else
      var last := produced[|produced| - 1];
      Differing(held, produced[..|produced| - 1])
      + if last.id in held && held[last.id] == last.hash then [] else [last]
  }

  lemma DifferingPush(held: map<Id, string>, produced: seq<Record>, r: Record)
    ensures Differing(held, produced + [r])
            == Differing(held, produced) + if r.id in held && held[r.id] == r.hash then [] else [r]
  {
    assert (produced + [r])[..|produced|] == produced;
  }

  lemma IdsPush(produced: seq<Record>, r: Record)
    ensures IdsOf(produced + [r]) == IdsOf(produced) + {r.id}
  {
  }

  function Missing(existing: seq<Held>, kept: set<Id>): seq<Id> {
    if existing == [] then []
    else
      var last := existing[|existing| - 1].id;
      Missing(existing[..|existing| - 1], kept) + if last in kept then [] else [last]
  }

  method HashesById(existing: seq<Held>) returns (held: map<Id, string>)
    ensures held == ByIdOf(existing)
  {
    held := map[];
    for i := 0 to |existing|
      invariant held == ByIdOf(existing[..i])
    {
      assert existing[..i + 1][..i] == existing[..i];
      held := held[existing[i].id := existing[i].hash];
    }
    assert existing[..|existing|] == existing;
  }

  method Deletions(existing: seq<Held>, kept: set<Id>) returns (delete: seq<Id>)
    ensures delete == Missing(existing, kept)
  {
    delete := [];
    for i := 0 to |existing|
      invariant delete == Missing(existing[..i], kept)
    {
      assert existing[..i + 1][..i] == existing[..i];
      if existing[i].id !in kept {
        delete := delete + [existing[i].id];
      }
    }
    assert existing[..|existing|] == existing;
  }

  /** The difference between a route's held rows and its page's chunks. */
  method DeltaOf(existing: seq<Held>, produced: seq<Record>) returns (d: Delta)
    ensures d.embed == Differing(ByIdOf(existing), produced)
    ensures d.delete == Missing(existing, IdsOf(produced))
    ensures d.untouched + |d.embed| == |produced|
  {
    var held := HashesById(existing);
    var embed: seq<Record>, untouched: nat, kept: set<Id> := [], 0, {};
    for i := 0 to |produced|
      invariant embed == Differing(held, produced[..i]) && untouched + |embed| == i && kept == IdsOf(produced[..i])
    {
      var record := produced[i];
      assert produced[..i + 1] == produced[..i] + [record];
      DifferingPush(held, produced[..i], record);
      IdsPush(produced[..i], record);
      if record.id in held && held[record.id] == record.hash {
        untouched := untouched + 1;
      } else {
        embed := embed + [record];
      }
      kept := kept + {record.id};
    }
    assert produced[..|produced|] == produced;
    var delete := Deletions(existing, kept);
    d := Delta(embed, delete, untouched);
  }

  lemma {:induction false} ByIdHas(existing: seq<Held>, h: Held)
    requires forall i, j | 0 <= i < j < |existing| :: existing[i].id != existing[j].id
    ensures h in existing <==> h.id in ByIdOf(existing) && ByIdOf(existing)[h.id] == h.hash
    ensures h.id in ByIdOf(existing) <==> exists e <- existing :: e.id == h.id
  {
    if existing != [] {
      var init, last := existing[..|existing| - 1], existing[|existing| - 1];
      assert existing == init + [last];
      ByIdHas(init, h);
    }
  }

  /** Against a listing of the store, what differs is what has changed. */
  lemma {:induction false} DifferingIsChanged(existing: seq<Held>, rows: Rows, route: string, produced: seq<Record>)
    requires Lists(existing, rows, route) && forall r <- produced :: r.id.route == route
    ensures Differing(ByIdOf(existing), produced) == Changed(rows, produced)
  {
    if produced != [] {
      var init, last := produced[..|produced| - 1], produced[|produced| - 1];
      assert produced == init + [last];
      DifferingIsChanged(existing, rows, route, init);
      assert last in produced;
      ByIdHas(existing, Held(last.id, last.hash));
    }
  }

  lemma {:induction false} MissingHas(existing: seq<Held>, kept: set<Id>, id: Id)
    ensures id in Missing(existing, kept) <==> id !in kept && exists h <- existing :: h.id == id
  {
    if existing != [] {
      var init, last := existing[..|existing| - 1], existing[|existing| - 1];
      assert existing == init + [last];
      MissingHas(init, kept, id);
    }
  }

  lemma {:induction false} MissingSize(existing: seq<Held>, kept: set<Id>)
    requires forall i, j | 0 <= i < j < |existing| :: existing[i].id != existing[j].id
    ensures |Missing(existing, kept)| == |ElementsOf(Missing(existing, kept))|
  {
    if existing != [] {
      var init, last := existing[..|existing| - 1], existing[|existing| - 1].id;
      MissingSize(init, kept);
      MissingHas(init, kept, last);
      var before, after := Missing(init, kept), Missing(existing, kept);
      assert forall h <- init :: h.id != last;
      if last in kept {
        assert after == before;
      } else {
        assert ElementsOf(after) == ElementsOf(before) + {last};
      }
    }
  }

  /** And what is missing is what has gone stale, each once. */
  lemma MissingIsStale(existing: seq<Held>, rows: Rows, route: string, produced: seq<Record>)
    requires Lists(existing, rows, route)
    ensures var missing := Missing(existing, IdsOf(produced));
            ElementsOf(missing) == Stale(rows, route, produced) && |missing| == |Stale(rows, route, produced)|
  {
    var missing := Missing(existing, IdsOf(produced));
    forall id
      ensures id in missing <==> id in Stale(rows, route, produced)
    {
      MissingHas(existing, IdsOf(produced), id);
      if id in rows && id.route == route {
        assert Held(id, rows[id].record.hash) in existing;
      }
    }
    MissingSize(existing, IdsOf(produced));
  }

  // ---- The plan of a pass ----

  /** A page of the deployment: the records it produces, or why it is excluded. */
  datatype Page = Page(route: string, outcome: Result<seq<Record>, string>) {
    function Records(): seq<Record> {
      if outcome.Ok? then outcome.value else []
    }
  }

  /** What one route's rows should become. */
  datatype Task = Task(route: string, records: seq<Record>)

  function TasksOf(pages: seq<Page>): seq<Task> {
    if pages == [] then []
    else
      var last := pages[|pages| - 1];
      TasksOf(pages[..|pages| - 1]) + [Task(last.route, last.Records())]
  }

  function Returned(pages: seq<Page>): set<string> {
    set p <- pages :: p.route
  }

  /** Of the routes asked for, those no page came back for, kept in order. */
  function Withdrawn(asked: seq<string>, returned: set<string>): seq<string> {
    if asked == [] then []
    else
      var last := asked[|asked| - 1];
      Withdrawn(asked[..|asked| - 1], returned) + if last in returned then [] else [last]
  }

  function Withdrawals(routes: seq<string>): (tasks: seq<Task>)
    ensures |tasks| == |routes|
  {
    seq(|routes|, i requires 0 <= i < |routes| => Task(routes[i], []))
  }

  function PlanOf(asked: seq<string>, pages: seq<Page>): seq<Task> {
    TasksOf(pages) + Withdrawals(Withdrawn(asked, Returned(pages)))
  }

  function Excluded(pages: seq<Page>): seq<(string, string)> {
    if pages == [] then []
    else
      var last := pages[|pages| - 1];
      Excluded(pages[..|pages| - 1]) + if last.outcome.Err? then [(last.route, last.outcome.error)] else []
  }

  /** A report names as excluded exactly the pages that came with an error, each under its route with that error. */
  lemma {:induction false} ExcludedHas(pages: seq<Page>, route: string, error: string)
    ensures (route, error) in Excluded(pages) <==> exists p <- pages :: p.route == route && p.outcome == Err(error)
  {
    if pages != [] {
      var init, last := pages[..|pages| - 1], pages[|pages| - 1];
      assert pages == init + [last];
      ExcludedHas(init, route, error);
    }
  }

  datatype Report = Report(embedded: nat, untouched: nat, deleted: nat, excluded: seq<(string, string)>, withdrawn: seq<string>)

  /** The rows and the counts after part of a plan. */
  datatype State = State(rows: Rows, embedded: nat, untouched: nat, deleted: nat) {
    function Do(t: Task, embed: string -> Vector): State {
      var changed := Changed(rows, t.records);
      State(Refreshed(rows, t.route, t.records, embed),
            embedded + |changed|,
            untouched + Max(|t.records| - |changed|, 0),
            deleted + |Stale(rows, t.route, t.records)|)
    }
  }

  function DoAll(s: State, plan: seq<Task>, embed: string -> Vector): State {
    if plan == [] then s else DoAll(s, plan[..|plan| - 1], embed).Do(plan[|plan| - 1], embed)
  }

  function After(rows: Rows, plan: seq<Task>, embed: string -> Vector): Rows {
    DoAll(State(rows, 0, 0, 0), plan, embed).rows
  }

  ghost predicate WellFormed(plan: seq<Task>) {
    forall t <- plan :: OfRoute(t.records, t.route)
  }

  /** Where a pass may stop: after some whole tasks, part way through the next. */
  ghost predicate StoppedAt(rows: Rows, plan: seq<Task>, embed: string -> Vector, i: nat, midway: Rows) {
    i < |plan| && Between(After(rows, plan[..i], embed), plan[i].route, plan[i].records, embed, midway)
  }

  lemma DoAllStep(s: State, plan: seq<Task>, t: Task, embed: string -> Vector)
    ensures DoAll(s, plan + [t], embed) == DoAll(s, plan, embed).Do(t, embed)
  {
    assert (plan + [t])[..|plan|] == plan;
  }

  datatype JobError = IndexFailed | Reindex(error: RunError) | SourceFailed

  class IndexJob {
    const embedder: Embedder

    constructor (embedder: Embedder)
      ensures this.embedder == embedder
    {
      this.embedder := embedder;
    }

    /** Takes out the stale rows, if there are any. */
    method Prune(t: Task, delete: seq<Id>, ghost rows: Rows) returns (ok: bool)
      requires embedder.store.rows == rows && ElementsOf(delete) == Stale(rows, t.route, t.records)
      modifies embedder.store
      ensures ok ==> embedder.store.rows == rows - Stale(rows, t.route, t.records)
      ensures !ok ==> Between(rows, t.route, t.records, embedder.embed, embedder.store.rows)
    {
      ok := true;
      if delete != [] {
        ghost var gone;
        ok, gone := embedder.store.Delete(delete);
        if !ok {
          Deleting(rows, t, embedder.embed, gone);
        }
      } else {
        assert rows - {} == rows;
      }
    }

    /** Embeds what is new or changed. */
    method Fill(t: Task, embed: seq<Record>, ghost rows: Rows) returns (result: Result<nat, RunError>)
      requires embedder.store.rows == rows - Stale(rows, t.route, t.records) && embed == Changed(rows, t.records)
      modifies embedder, embedder.store
      ensures result.Ok? ==>
                embedder.store.rows == Refreshed(rows, t.route, t.records, embedder.embed) && result.value == |embed|
      ensures result.Err? ==> Between(rows, t.route, t.records, embedder.embed, embedder.store.rows)
    {
      if embed == [] {
        return Ok(0);
      }
      ghost var done;
      result, done := embedder.Run(embed, 0);
      assert embed[0..done] == embed[..done];
      if result.Err? {
        Writing(rows, t, embedder.embed, done);
      } else {
        assert embed[..done] == embed;
      }
    }

    /** Brings one route's rows up to date: prunes, then fills. */
    method Apply(t: Task, s: Report) returns (failure: Option<JobError>, report: Report)
      requires OfRoute(t.records, t.route)
      modifies embedder, embedder.store
      ensures failure.None? ==>
                var before := State(old(embedder.store.rows), s.embedded, s.untouched, s.deleted);
                before.Do(t, embedder.embed) == State(embedder.store.rows, report.embedded, report.untouched, report.deleted)
                && report.excluded == s.excluded && report.withdrawn == s.withdrawn
      ensures failure.Some? ==>
                Between(old(embedder.store.rows), t.route, t.records, embedder.embed, embedder.store.rows)
    {
      ghost var rows := embedder.store.rows;
      report := s;
      var held := embedder.store.Hashes(t.route);
      if held.None? {
        Unmoved(rows, t, embedder.embed);
        return Some(IndexFailed), report;
      }
      var d := DeltaOf(held.value, t.records);
      DifferingIsChanged(held.value, rows, t.route, t.records);
      MissingIsStale(held.value, rows, t.route, t.records);
      report := report.(untouched := report.untouched + d.untouched);
      var pruned := Prune(t, d.delete, rows);
      if !pruned {
        return Some(IndexFailed), report;
      }
      report := report.(deleted := report.deleted + |d.delete|);
      var result := Fill(t, d.embed, rows);
      if result.Err? {
        return Some(Reindex(result.error)), report;
      }
      report := report.(embedded := report.embedded + result.value);
      failure := None;
    }

    /** The rows and counts so far are those of the plan so far. */
    ghost predicate Stands(start: State, plan: seq<Task>, report: Report)
      reads embedder, embedder.store
    {
      DoAll(start, plan, embedder.embed)
      == State(embedder.store.rows, report.embedded, report.untouched, report.deleted)
    }

    /** One more page on top of what the plan has done. */
    method IndexNext(page: Page, s: Report, ghost start: State, ghost plan: seq<Task>)
      returns (failure: Option<JobError>, report: Report)
      requires Stands(start, plan, s) && OfRoute(page.Records(), page.route)
      modifies embedder, embedder.store
      ensures var t := Task(page.route, page.Records());
              && (failure.None? ==> Stands(start, plan + [t], report))
              && (failure.Some? ==>
                    Between(DoAll(start, plan, embedder.embed).rows, t.route, t.records, embedder.embed, embedder.store.rows))
      ensures failure.None? ==> report.withdrawn == s.withdrawn
      ensures failure.None? ==>
                report.excluded == s.excluded + if page.outcome.Err? then [(page.route, page.outcome.error)] else []
    {
      DoAllStep(start, plan, Task(page.route, page.Records()), embedder.embed);
      failure, report := Apply(Task(page.route, page.Records()), s);
      if failure.None? && page.outcome.Err? {
        report := report.(excluded := report.excluded + [(page.route, page.outcome.error)]);
      }
    }

    /** Every page in turn; one that stopped being indexable loses its rows. */
    method IndexPages(pages: seq<Page>, ghost start: State) returns (failure: Option<JobError>, report: Report, ghost stopped: nat)
      requires forall p <- pages :: OfRoute(p.Records(), p.route)
      requires start == State(embedder.store.rows, 0, 0, 0)
      modifies embedder, embedder.store
      ensures failure.None? ==>
                Stands(start, TasksOf(pages), report) && report.excluded == Excluded(pages) && report.withdrawn == []
      ensures failure.Some? ==> StoppedAt(start.rows, TasksOf(pages), embedder.embed, stopped, embedder.store.rows)
    {
      report := Report(0, 0, 0, [], []);
      stopped := 0;
      for i := 0 to |pages|
        invariant Stands(start, TasksOf(pages[..i]), report)
        invariant report.excluded == Excluded(pages[..i]) && report.withdrawn == []
      {
        assert pages[..i + 1][..i] == pages[..i];
        TasksTake(pages, i);
        failure, report := IndexNext(pages[i], report, start, TasksOf(pages[..i]));
        if failure.Some? {
          return failure, report, i;
        }
      }
      assert pages[..|pages|] == pages;
      failure := None;
    }

    /** Empties a route. */
    method Withdraw(route: string, s: Report) returns (ok: bool, report: Report)
      modifies embedder.store
      ensures ok ==>
                var before := State(old(embedder.store.rows), s.embedded, s.untouched, s.deleted);
                before.Do(Task(route, []), embedder.embed)
                == State(embedder.store.rows, report.embedded, report.untouched, report.deleted)
                && report.excluded == s.excluded && report.withdrawn == s.withdrawn + [route]
      ensures !ok ==> Between(old(embedder.store.rows), route, [], embedder.embed, embedder.store.rows)
    {
      ghost var rows, t := embedder.store.rows, Task(route, []);
      report := s;
      var held := embedder.store.Hashes(route);
      if held.None? {
        Unmoved(rows, t, embedder.embed);
        return false, report;
      }
      var ids := Deletions(held.value, {});
      assert IdsOf([]) == {};
      MissingIsStale(held.value, rows, route, []);
      ok := Prune(Task(route, []), ids, rows);
      report := report.(deleted := report.deleted + |ids|, withdrawn := report.withdrawn + [route]);
    }

    /** One more withdrawal on top of what the plan has done. */
    method WithdrawNext(route: string, s: Report, ghost start: State, ghost plan: seq<Task>) returns (ok: bool, report: Report)
      requires Stands(start, plan, s)
      modifies embedder.store
      ensures ok ==> Stands(start, plan + [Task(route, [])], report)
      ensures ok ==> report.excluded == s.excluded && report.withdrawn == s.withdrawn + [route]
      ensures !ok ==> Between(DoAll(start, plan, embedder.embed).rows, route, [], embedder.embed, embedder.store.rows)
    {
      DoAllStep(start, plan, Task(route, []), embedder.embed);
      ok, report := Withdraw(route, s);
    }

    /** Empties every route that was asked for and did not come back. */
    method WithdrawMissing(asked: seq<string>, returned: set<string>, s: Report, ghost start: State, ghost pages: seq<Task>)
      returns (ok: bool, report: Report, ghost stopped: nat)
      requires Stands(start, pages, s) && s.withdrawn == [] && start == State(start.rows, 0, 0, 0)
      modifies embedder.store
      ensures var plan := pages + Withdrawals(Withdrawn(asked, returned));
              && (ok ==> Stands(start, plan, report) && report.excluded == s.excluded && report.withdrawn == Withdrawn(asked, returned))
              && (!ok ==> StoppedAt(start.rows, plan, embedder.embed, stopped, embedder.store.rows))
    {
      report := s;
      stopped := 0;
      assert pages + Withdrawals([]) == pages;
      for j := 0 to |asked|
        invariant Stands(start, PlanTo(pages, asked, returned, j), report) && report.excluded == s.excluded
        invariant report.withdrawn == Withdrawn(asked[..j], returned)
      {
        ghost var plan := PlanTo(pages, asked, returned, j);
        PlanGrows(pages, asked, returned, j);
        if asked[j] !in returned {
          WithdrawalsTake(pages, asked, returned, j);
          ok, report := WithdrawNext(asked[j], report, start, plan);
          if !ok {
            return false, report, |plan|;
          }
        }
      }
      assert asked[..|asked|] == asked;
      ok := true;
    }

    /** The plan up to the `j`th route asked for. */
    ghost function PlanTo(pages: seq<Task>, asked: seq<string>, returned: set<string>, j: nat): seq<Task>
      requires j <= |asked|
    {
      pages + Withdrawals(Withdrawn(asked[..j], returned))
    }

    lemma PlanGrows(pages: seq<Task>, asked: seq<string>, returned: set<string>, j: nat)
      requires j < |asked|
      ensures if asked[j] in returned then
                && Withdrawn(asked[..j + 1], returned) == Withdrawn(asked[..j], returned)
                && PlanTo(pages, asked, returned, j + 1) == PlanTo(pages, asked, returned, j)
              else
                && Withdrawn(asked[..j + 1], returned) == Withdrawn(asked[..j], returned) + [asked[j]]
                && PlanTo(pages, asked, returned, j + 1) == PlanTo(pages, asked, returned, j) + [Task(asked[j], [])]
    {
      assert asked[..j + 1] == asked[..j] + [asked[j]];
      WithdrawnPush(asked[..j], asked[j], returned);
      WithdrawalsPush(pages, Withdrawn(asked[..j], returned), asked[j]);
    }

    lemma WithdrawnPush(asked: seq<string>, route: string, returned: set<string>)
      ensures Withdrawn(asked + [route], returned) == Withdrawn(asked, returned) + if route in returned then [] else [route]
    {
      assert (asked + [route])[..|asked|] == asked;
    }

    lemma {:induction false} WithdrawalsPush(pages: seq<Task>, before: seq<string>, route: string)
      ensures pages + Withdrawals(before + [route]) == pages + Withdrawals(before) + [Task(route, [])]
    {
    }

    /** Runs one index pass over the pages the deployment returned. */
    method Run(asked: seq<string>, source: Option<seq<Page>>) returns (result: Result<Report, JobError>, ghost stopped: nat)
      requires source.Some? ==> forall p <- source.value :: OfRoute(p.Records(), p.route)
      modifies embedder, embedder.store
      ensures source.None? ==> result == Err(SourceFailed) && embedder.store.rows == old(embedder.store.rows)
      ensures source.Some? ==>
                var plan := PlanOf(asked, source.value);
                if result.Ok? then
                  && Stands(State(old(embedder.store.rows), 0, 0, 0), plan, result.value)
                  && result.value.excluded == Excluded(source.value)
                  && result.value.withdrawn == Withdrawn(asked, Returned(source.value))
                else StoppedAt(old(embedder.store.rows), plan, embedder.embed, stopped, embedder.store.rows)
    {
      stopped := 0;
      if source.None? {
        return Err(SourceFailed), 0;
      }
      ghost var start := State(embedder.store.rows, 0, 0, 0);
      var failure, report;
      failure, report, stopped := IndexPages(source.value, start);
      if failure.Some? {
        StoppedInPrefix(start.rows, TasksOf(source.value), Withdrawals(Withdrawn(asked, Returned(source.value))),
                        embedder.embed, stopped, embedder.store.rows);
        return Err(failure.value), stopped;
      }
      var returned := set p <- source.value :: p.route;
      var ok;
      ok, report, stopped := WithdrawMissing(asked, returned, report, start, TasksOf(source.value));
      result := if ok then Ok(report) else Err(IndexFailed);
    }

    lemma {:induction false} StoppedInPrefix(rows: Rows, a: seq<Task>, b: seq<Task>, embed: string -> Vector, i: nat, midway: Rows)
      requires StoppedAt(rows, a, embed, i, midway)
      ensures StoppedAt(rows, a + b, embed, i, midway)
    {
      assert (a + b)[..i] == a[..i];
    }

    lemma {:induction false} TasksTake(pages: seq<Page>, i: nat)
      requires i < |pages|
      ensures |TasksOf(pages)| == |pages| && TasksOf(pages)[..i] == TasksOf(pages[..i])
      ensures TasksOf(pages)[i] == Task(pages[i].route, pages[i].Records())
      ensures TasksOf(pages[..i + 1]) == TasksOf(pages[..i]) + [Task(pages[i].route, pages[i].Records())]
      decreases |pages|
    {
      var init := pages[..|pages| - 1];
      assert pages[..i + 1][..i] == pages[..i];
      if i < |init| {
        TasksTake(init, i);
        assert init[..i] == pages[..i];
      } else if i > 0 {
        TasksTake(init, i - 1);
      }
    }

    lemma {:induction false} WithdrawnTake(asked: seq<string>, returned: set<string>, j: nat)
      requires j <= |asked|
      ensures Withdrawn(asked[..j], returned) <= Withdrawn(asked, returned)
      decreases |asked|
    {
      if j < |asked| {
        var init := asked[..|asked| - 1];
        WithdrawnTake(init, returned, j);
        assert init[..j] == asked[..j];
      } else {
        assert asked[..j] == asked;
      }
    }

    /** Where the plan stands before the `j`th asked route is withdrawn. */
    lemma {:induction false} WithdrawalsTake(pages: seq<Task>, asked: seq<string>, returned: set<string>, j: nat)
      requires j < |asked| && asked[j] !in returned
      ensures var before, plan := PlanTo(pages, asked, returned, j), pages + Withdrawals(Withdrawn(asked, returned));
              |before| < |plan| && plan[|before|] == Task(asked[j], []) && plan[..|before|] == before
    {
      WithdrawnTake(asked, returned, j);
      WithdrawnTake(asked, returned, j + 1);
      assert asked[..j + 1][..j] == asked[..j];
      var before, here, all := Withdrawn(asked[..j], returned), Withdrawn(asked[..j + 1], returned), Withdrawn(asked, returned);
      assert here == before + [asked[j]];
      assert all[|before|] == here[|before|] == asked[j];
      assert Withdrawals(all)[..|before|] == Withdrawals(before);
    }

    lemma Unmoved(rows: Rows, t: Task, embed: string -> Vector)
      ensures Between(rows, t.route, t.records, embed, rows)
    {
      assert rows - {} == rows;
      assert Partway(rows, t.route, t.records, embed, {}, 0, rows);
    }

    lemma Deleting(rows: Rows, t: Task, embed: string -> Vector, gone: set<Id>)
      requires gone <= Stale(rows, t.route, t.records)
      ensures Between(rows, t.route, t.records, embed, rows - gone)
    {
      assert Partway(rows, t.route, t.records, embed, gone, 0, rows - gone);
    }

    lemma {:induction false} Writing(rows: Rows, t: Task, embed: string -> Vector, done: nat)
      requires done <= |Changed(rows, t.records)|
      ensures var stale, changed := Stale(rows, t.route, t.records), Changed(rows, t.records);
              Between(rows, t.route, t.records, embed, Put(rows - stale, Embedded(changed[..done], embed)))
    {
      var stale, changed := Stale(rows, t.route, t.records), Changed(rows, t.records);
      EmbeddedTake(changed, embed, done);
      assert Partway(rows, t.route, t.records, embed, stale, done, Put(rows - stale, Embedded(changed[..done], embed)));
    }
  }
}
