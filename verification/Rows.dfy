/** An index's rows as a map, and how a page's pass rewrites those of its route. */
module Rows {
  import opened Common

  /** `route#anchor#ordinal`, stable across builds. */
  datatype Id = Id(route: string, anchor: string, ordinal: nat)

  /** What a row says of its chunk; `context` stands for all that the page contributes. */
  datatype Record = Record(id: Id, hash: string, text: string, context: string)

  datatype Vector = Vector(components: seq<real>)

  datatype Row = Row(record: Record, vector: Vector)

  type Rows = map<Id, Row>

  /** What the index says it holds of one chunk. */
  datatype Held = Held(id: Id, hash: string)

  // ---- Writing and deleting ----

  /** The rows after writing `batch` in order; a later row replaces an earlier one with its id. */
  function Put(rows: Rows, batch: seq<Row>): Rows {
    if batch == [] then rows
    else
      var last := batch[|batch| - 1];
      Put(rows, batch[..|batch| - 1])[last.record.id := last]
  }

  /** The last row of a batch with this id. */
  function LastOf(batch: seq<Row>, id: Id): Option<Row> {
    if batch == [] then None
    else if batch[|batch| - 1].record.id == id then Some(batch[|batch| - 1])
    else LastOf(batch[..|batch| - 1], id)
  }

  /** Writing decides each id by itself: the last row written under it, or what was there. */
  lemma {:induction false} PutAt(rows: Rows, batch: seq<Row>, id: Id)
    ensures id in Put(rows, batch) <==> id in rows || LastOf(batch, id).Some?
    ensures id in Put(rows, batch) ==>
              Put(rows, batch)[id] == if LastOf(batch, id).Some? then LastOf(batch, id).value else rows[id]
  {
    if batch != [] {
      PutAt(rows, batch[..|batch| - 1], id);
    }
  }

  lemma {:induction false} PutAppend(rows: Rows, a: seq<Row>, b: seq<Row>)
    ensures Put(rows, a + b) == Put(Put(rows, a), b)
  {
    if b == [] {
      assert a + b == a;
    } else {
      var init := b[..|b| - 1];
      assert (a + b)[..|a + b| - 1] == a + init;
      PutAppend(rows, a, init);
    }
  }

  lemma {:induction false} LastOfAppend(a: seq<Row>, b: seq<Row>, id: Id)
    ensures LastOf(a + b, id) == if LastOf(b, id).Some? then LastOf(b, id) else LastOf(a, id)
  {
    if b == [] {
      assert a + b == a;
    } else {
      assert (a + b)[..|a + b| - 1] == a + b[..|b| - 1];
      LastOfAppend(a, b[..|b| - 1], id);
    }
  }

  lemma SameRows(a: Rows, b: Rows)
    requires forall id :: id in a <==> id in b
    requires forall id | id in a :: a[id] == b[id]
    ensures a == b
  {
  }

  /** Writing again what was already written, and going on from there, changes nothing about the outcome. */
  lemma PutOverlapping(rows: Rows, a: seq<Row>, b: seq<Row>, c: seq<Row>)
    ensures Put(Put(rows, a + b), b + c) == Put(rows, a + b + c)
  {
    forall id
      ensures id in Put(Put(rows, a + b), b + c) <==> id in Put(rows, a + b + c)
      ensures id in Put(rows, a + b + c) ==> Put(Put(rows, a + b), b + c)[id] == Put(rows, a + b + c)[id]
    {
      PutAt(Put(rows, a + b), b + c, id);
      PutAt(rows, a + b, id);
      PutAt(rows, a + b + c, id);
      LastOfAppend(a, b, id);
      LastOfAppend(b, c, id);
      LastOfAppend(a + b, c, id);
    }
    SameRows(Put(Put(rows, a + b), b + c), Put(rows, a + b + c));
  }

  // ---- What a page's pass changes ----

  predicate IsUnchanged(rows: Rows, r: Record) {
    r.id in rows && rows[r.id].record.hash == r.hash
  }

  /** The produced chunks whose row is absent or has another hash. */
  function Changed(rows: Rows, produced: seq<Record>): seq<Record> {
    if produced == [] then []
    else
      var last := produced[|produced| - 1];
      Changed(rows, produced[..|produced| - 1]) + if IsUnchanged(rows, last) then [] else [last]
  }

  function IdsOf(records: seq<Record>): set<Id> {
    set r <- records :: r.id
  }

  /** The held ids of a route that its page does not produce. */
  function Stale(rows: Rows, route: string, produced: seq<Record>): set<Id> {
    set id | id in rows && id.route == route && id !in IdsOf(produced)
  }

  function Embedded(records: seq<Record>, embed: string -> Vector): (out: seq<Row>)
    ensures |out| == |records|
  {
    seq(|records|, i requires 0 <= i < |records| => Row(records[i], embed(records[i].text)))
  }

  /** The rows once a page's pass has been applied. */
  function Refreshed(rows: Rows, route: string, produced: seq<Record>, embed: string -> Vector): Rows {
    Put(rows - Stale(rows, route, produced), Embedded(Changed(rows, produced), embed))
  }

  /** Records of one route only, each with an id of its own. */
  ghost predicate OfRoute(records: seq<Record>, route: string) {
    && (forall r <- records :: r.id.route == route)
    && (forall i, j | 0 <= i < j < |records| :: records[i].id != records[j].id)
  }

  lemma {:induction false} ChangedHas(rows: Rows, produced: seq<Record>, r: Record)
    ensures r in Changed(rows, produced) <==> r in produced && !IsUnchanged(rows, r)
  {
    if produced != [] {
      var init, last := produced[..|produced| - 1], produced[|produced| - 1];
      assert produced == init + [last];
      ChangedHas(rows, init, r);
    }
  }

  lemma {:induction false} LastOfEmbedded(records: seq<Record>, embed: string -> Vector, id: Id)
    ensures LastOf(Embedded(records, embed), id).Some? <==> id in IdsOf(records)
    ensures LastOf(Embedded(records, embed), id).Some? ==>
              exists r <- records :: r.id == id && LastOf(Embedded(records, embed), id).value == Row(r, embed(r.text))
  {
    if records != [] {
      var init, last := records[..|records| - 1], records[|records| - 1];
      assert records == init + [last];
      LastOfEmbedded(init, embed, id);
      assert Embedded(records, embed)[..|records| - 1] == Embedded(init, embed);
      assert IdsOf(records) == IdsOf(init) + {last.id};
      if last.id != id && LastOf(Embedded(init, embed), id).Some? {
        var r :| r in init && r.id == id && LastOf(Embedded(init, embed), id).value == Row(r, embed(r.text));
        assert r in records;
      }
    }
  }

  /** What a page's pass leaves under one id: nothing of other routes, and of this one what the page produces. */
  lemma RefreshedAt(rows: Rows, route: string, produced: seq<Record>, embed: string -> Vector, id: Id)
    requires forall r <- produced :: r.id.route == route
    ensures var after := Refreshed(rows, route, produced, embed);
            if id.route != route then id in after <==> id in rows
            else id in after <==> id in IdsOf(produced)
    ensures var after := Refreshed(rows, route, produced, embed);
            id in after ==>
              if id in IdsOf(Changed(rows, produced))
              then exists r <- Changed(rows, produced) :: r.id == id && after[id] == Row(r, embed(r.text))
              else id in rows && after[id] == rows[id]
  {
    var changed := Changed(rows, produced);
    PutAt(rows - Stale(rows, route, produced), Embedded(changed, embed), id);
    LastOfEmbedded(changed, embed, id);
    forall r | r in produced && r.id == id
      ensures id in IdsOf(changed) || id in rows
    {
      ChangedHas(rows, produced, r);
    }
    forall r | r in changed
      ensures r in produced
    {
      ChangedHas(rows, produced, r);
    }
  }

  // ---- What a page's pass promises ----

  predicate SameAt(a: Rows, b: Rows, id: Id) {
    (id in a <==> id in b) && (id in a ==> a[id] == b[id])
  }

  ghost predicate SameOn(a: Rows, b: Rows, route: string) {
    forall id: Id | id.route == route :: SameAt(a, b, id)
  }

  lemma OnlyOne(records: seq<Record>, route: string, a: Record, b: Record)
    requires OfRoute(records, route) && a in records && b in records && a.id == b.id
    ensures a == b
  {
    var i :| 0 <= i < |records| && records[i] == a;
    var j :| 0 <= j < |records| && records[j] == b;
  }

  /** The row of a produced record: embedded now if it was new or changed, otherwise the one that was held. */
  lemma RefreshedHolds(rows: Rows, route: string, produced: seq<Record>, embed: string -> Vector, r: Record)
    requires OfRoute(produced, route) && r in produced
    ensures var after := Refreshed(rows, route, produced, embed);
            && r.id in after && after[r.id].record.hash == r.hash
            && after[r.id] == if IsUnchanged(rows, r) then rows[r.id] else Row(r, embed(r.text))
  {
    RefreshedAt(rows, route, produced, embed, r.id);
    ChangedHas(rows, produced, r);
    forall c | c in Changed(rows, produced) && c.id == r.id
      ensures c == r
    {
      ChangedHas(rows, produced, c);
      OnlyOne(produced, route, c, r);
    }
  }

  /** Other routes are untouched. */
  lemma RefreshedElsewhere(rows: Rows, route: string, produced: seq<Record>, embed: string -> Vector, id: Id)
    requires (forall r <- produced :: r.id.route == route) && id.route != route
    ensures SameAt(Refreshed(rows, route, produced, embed), rows, id)
  {
    RefreshedAt(rows, route, produced, embed, id);
    forall c | c in Changed(rows, produced)
      ensures c.id != id
    {
      ChangedHas(rows, produced, c);
    }
  }

  /** What is held of one route decides what becomes of it. */
  lemma RefreshedIsLocal(a: Rows, b: Rows, route: string, produced: seq<Record>, embed: string -> Vector)
    requires OfRoute(produced, route) && SameOn(a, b, route)
    ensures SameOn(Refreshed(a, route, produced, embed), Refreshed(b, route, produced, embed), route)
  {
    forall id: Id | id.route == route
      ensures SameAt(Refreshed(a, route, produced, embed), Refreshed(b, route, produced, embed), id)
    {
      RefreshedAt(a, route, produced, embed, id);
      RefreshedAt(b, route, produced, embed, id);
      if id in IdsOf(produced) {
        var r :| r in produced && r.id == id;
        assert SameAt(a, b, id);
        RefreshedHolds(a, route, produced, embed, r);
        RefreshedHolds(b, route, produced, embed, r);
      }
    }
  }

  lemma {:induction false} NothingChanged(rows: Rows, produced: seq<Record>)
    requires forall r <- produced :: IsUnchanged(rows, r)
    ensures Changed(rows, produced) == []
  {
    if produced != [] {
      var init, last := produced[..|produced| - 1], produced[|produced| - 1];
      assert produced == init + [last];
      assert last in produced && forall r <- init :: r in produced;
      NothingChanged(rows, init);
    }
  }

  /** Applied again, a pass has nothing to delete and nothing to embed. */
  lemma SecondPassIsIdle(rows: Rows, route: string, produced: seq<Record>, embed: string -> Vector)
    requires OfRoute(produced, route)
    ensures var after := Refreshed(rows, route, produced, embed);
            && Stale(after, route, produced) == {} && Changed(after, produced) == []
            && Refreshed(after, route, produced, embed) == after
  {
    var after := Refreshed(rows, route, produced, embed);
    forall id | id in after && id.route == route
      ensures id in IdsOf(produced)
    {
      RefreshedAt(rows, route, produced, embed, id);
    }
    assert Stale(after, route, produced) == {};
    forall r | r in produced
      ensures IsUnchanged(after, r)
    {
      RefreshedHolds(rows, route, produced, embed, r);
    }
    NothingChanged(after, produced);
    assert after - {} == after;
  }

  /** Chunks under one id agree about what the text is. */
  ghost predicate Consistent(produced: seq<Record>) {
    forall a <- produced, b <- produced :: a.id == b.id ==> a.hash == b.hash
  }

  /**
   * With ids shared between chunks, a page settles exactly when chunks under one id have the same text:
   * otherwise every later pass embeds one of them again.
   */
  lemma SettlesIff(rows: Rows, route: string, produced: seq<Record>, embed: string -> Vector)
    requires forall r <- produced :: r.id.route == route
    ensures Changed(Refreshed(rows, route, produced, embed), produced) == [] <==> Consistent(produced)
  {
    var after := Refreshed(rows, route, produced, embed);
    if Consistent(produced) {
      forall r | r in produced
        ensures IsUnchanged(after, r)
      {
        RefreshedAt(rows, route, produced, embed, r.id);
        ChangedHas(rows, produced, r);
        forall c | c in Changed(rows, produced)
          ensures c in produced
        {
          ChangedHas(rows, produced, c);
        }
      }
      NothingChanged(after, produced);
    } else {
      var a, b :| a in produced && b in produced && a.id == b.id && a.hash != b.hash;
      ChangedHas(after, produced, a);
      ChangedHas(after, produced, b);
    }
  }

  // ---- What is out of date ----

  /** Every row was written by a pass: its hash is its text's, and its vector was made from that text. */
  ghost predicate Faithful(rows: Rows, hash: string -> string, embed: string -> Vector) {
    forall id | id in rows ::
      && rows[id].record.id == id && rows[id].record.hash == hash(rows[id].record.text)
      && rows[id].vector == embed(rows[id].record.text)
  }

  ghost predicate Hashed(records: seq<Record>, hash: string -> string) {
    forall r <- records :: r.hash == hash(r.text)
  }

  ghost predicate Injective(hash: string -> string) {
    forall a, b :: hash(a) == hash(b) ==> a == b
  }

  lemma RefreshedStaysFaithful(rows: Rows, route: string, produced: seq<Record>, hash: string -> string, embed: string -> Vector)
    requires Faithful(rows, hash, embed) && Hashed(produced, hash) && OfRoute(produced, route)
    ensures Faithful(Refreshed(rows, route, produced, embed), hash, embed)
  {
    var after := Refreshed(rows, route, produced, embed);
    forall id | id in after
      ensures after[id].record.id == id && after[id].record.hash == hash(after[id].record.text)
      ensures after[id].vector == embed(after[id].record.text)
    {
      RefreshedAt(rows, route, produced, embed, id);
      forall r | r in Changed(rows, produced)
        ensures r in produced
      {
        ChangedHas(rows, produced, r);
      }
    }
  }

  /** The text and the vector of every produced chunk are current, whatever was held before. */
  lemma TextAndVectorAreCurrent(rows: Rows, route: string, produced: seq<Record>, hash: string -> string,
                                embed: string -> Vector, r: Record)
    requires Faithful(rows, hash, embed) && Hashed(produced, hash) && OfRoute(produced, route) && r in produced
    requires Injective(hash)
    ensures r.id in Refreshed(rows, route, produced, embed)
    ensures var row := Refreshed(rows, route, produced, embed)[r.id];
            row.record.id == r.id && row.record.text == r.text && row.vector == embed(r.text)
  {
    RefreshedHolds(rows, route, produced, embed, r);
  }

  /**
   * The rest of the row is current exactly when a chunk with unchanged text also kept its page's metadata:
   * the comparison looks at the text alone, so a page that changes its groups or its version keeps the old
   * ones on every chunk whose text stayed as it was.
   */
  lemma MetadataIsCurrentIff(rows: Rows, route: string, produced: seq<Record>, hash: string -> string,
                             embed: string -> Vector, r: Record)
    requires Faithful(rows, hash, embed) && Hashed(produced, hash) && OfRoute(produced, route) && r in produced
    requires Injective(hash)
    ensures r.id in Refreshed(rows, route, produced, embed)
    ensures Refreshed(rows, route, produced, embed)[r.id].record == r
            <==> !(r.id in rows && rows[r.id].record.hash == r.hash && rows[r.id].record.context != r.context)
  {
    RefreshedHolds(rows, route, produced, embed, r);
  }

  /** Two passes over a page whose text stayed and whose metadata did not: the row keeps the metadata of the first. */
  lemma MetadataGoesStale(id: Id, hash: string, text: string, was: string, now: string, embed: string -> Vector)
    requires was != now
    ensures var first, second := Record(id, hash, text, was), Record(id, hash, text, now);
            var rows := Refreshed(Refreshed(map[], id.route, [first], embed), id.route, [second], embed);
            id in rows && rows[id].record == first != second
  {
    var first, second := Record(id, hash, text, was), Record(id, hash, text, now);
    assert first in [first] && second in [second];
    RefreshedHolds(map[], id.route, [first], embed, first);
    RefreshedHolds(Refreshed(map[], id.route, [first], embed), id.route, [second], embed, second);
  }

  // ---- A pass interrupted ----

  /** Where a page's pass may stop: some stale rows gone and nothing written, or all gone and some written. */
  ghost predicate Between(rows: Rows, route: string, produced: seq<Record>, embed: string -> Vector, midway: Rows) {
    exists gone: set<Id>, n: nat :: Partway(rows, route, produced, embed, gone, n, midway)
  }

  ghost predicate Partway(rows: Rows, route: string, produced: seq<Record>, embed: string -> Vector,
                          gone: set<Id>, n: nat, midway: Rows)
  {
    var stale, batch := Stale(rows, route, produced), Embedded(Changed(rows, produced), embed);
    && gone <= stale && n <= |batch| && (n > 0 ==> gone == stale)
    && midway == Put(rows - gone, batch[..n])
  }

  lemma EmbeddedTake(records: seq<Record>, embed: string -> Vector, n: nat)
    requires n <= |records|
    ensures Embedded(records, embed)[..n] == Embedded(records[..n], embed)
  {
  }

  /** What an interrupted pass leaves under one id: what was held, or what the page produces, or a row gone early. */
  lemma MidwayAt(rows: Rows, route: string, produced: seq<Record>, embed: string -> Vector,
                 gone: set<Id>, n: nat, midway: Rows, id: Id)
    requires OfRoute(produced, route) && Partway(rows, route, produced, embed, gone, n, midway)
    ensures id.route != route ==> SameAt(midway, rows, id)
    ensures id !in IdsOf(produced) ==> (id in midway ==> id in rows)
    ensures id in IdsOf(produced) ==>
              SameAt(midway, rows, id) || SameAt(midway, Refreshed(rows, route, produced, embed), id)
  {
    var changed := Changed(rows, produced);
    EmbeddedTake(changed, embed, n);
    PutAt(rows - gone, Embedded(changed[..n], embed), id);
    LastOfEmbedded(changed[..n], embed, id);
    forall c | c in changed[..n]
      ensures c in produced && !IsUnchanged(rows, c)
    {
      assert c in changed;
      ChangedHas(rows, produced, c);
    }
    if LastOf(Embedded(changed[..n], embed), id).Some? {
      var c :| c in changed[..n] && c.id == id && LastOf(Embedded(changed[..n], embed), id).value == Row(c, embed(c.text));
      RefreshedHolds(rows, route, produced, embed, c);
    }
  }

  /** Run again from wherever it stopped, the pass ends where it would have ended. */
  lemma RerunFinishes(rows: Rows, route: string, produced: seq<Record>, embed: string -> Vector, midway: Rows)
    requires OfRoute(produced, route) && Between(rows, route, produced, embed, midway)
    ensures SameOn(Refreshed(midway, route, produced, embed), Refreshed(rows, route, produced, embed), route)
    ensures forall id: Id | id.route != route :: SameAt(midway, rows, id)
  {
    var gone, n: nat :| Partway(rows, route, produced, embed, gone, n, midway);
    forall id: Id
      ensures id.route != route ==> SameAt(midway, rows, id)
      ensures id.route == route ==>
                SameAt(Refreshed(midway, route, produced, embed), Refreshed(rows, route, produced, embed), id)
    {
      MidwayAt(rows, route, produced, embed, gone, n, midway, id);
      if id.route == route {
        RerunAt(rows, route, produced, embed, midway, id);
      }
    }
  }

  lemma RerunAt(rows: Rows, route: string, produced: seq<Record>, embed: string -> Vector, midway: Rows, id: Id)
    requires OfRoute(produced, route) && id.route == route
    requires id in IdsOf(produced) ==>
               SameAt(midway, rows, id) || SameAt(midway, Refreshed(rows, route, produced, embed), id)
    ensures SameAt(Refreshed(midway, route, produced, embed), Refreshed(rows, route, produced, embed), id)
  {
    RefreshedAt(rows, route, produced, embed, id);
    RefreshedAt(midway, route, produced, embed, id);
    if id in IdsOf(produced) {
      var r :| r in produced && r.id == id;
      RefreshedHolds(rows, route, produced, embed, r);
      RefreshedHolds(midway, route, produced, embed, r);
    }
  }
}
