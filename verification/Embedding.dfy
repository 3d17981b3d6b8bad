/** The store that can fail anywhere, and the batched, retrying, checkpointed embedder that fills it. */
module Embedding {
  import opened Common
  import opened Rows

  const BATCH: nat := 64
  const CHECKPOINT_EVERY: nat := 1000

  // ---- The store ----

  /** Whether `held` lists exactly the rows of a route, each once, in any order. */
  ghost predicate Lists(held: seq<Held>, rows: Rows, route: string) {
    && (forall i, j | 0 <= i < j < |held| :: held[i].id != held[j].id)
    && (forall h <- held :: h.id.route == route && h.id in rows && rows[h.id].record.hash == h.hash)
    && (forall id | id in rows && id.route == route :: Held(id, rows[id].record.hash) in held)
  }

  /** A vector store. Any call may fail, and a write that fails may have done part of its work. */
  class Store {
    var rows: Rows

    constructor ()
      ensures rows == map[]
    {
      rows := map[];
    }

    method Upsert(batch: seq<Row>) returns (ok: bool, ghost wrote: nat)
      modifies this
      ensures wrote <= |batch| && rows == Put(old(rows), batch[..wrote])
      ensures ok ==> wrote == |batch|
    {
      wrote := 0;
      for i := 0 to |batch|
        invariant wrote == i && rows == Put(old(rows), batch[..i])
      {
        if * {
          return false, wrote;
        }
        assert batch[..i + 1][..i] == batch[..i];
        rows := rows[batch[i].record.id := batch[i]];
        wrote := i + 1;
      }
      ok := true;
    }

    method Delete(ids: seq<Id>) returns (ok: bool, ghost gone: set<Id>)
      modifies this
      ensures gone <= ElementsOf(ids) && rows == old(rows) - gone
      ensures ok ==> gone == ElementsOf(ids)
    {
      gone := {};
      for i := 0 to |ids|
        invariant gone == ElementsOf(ids[..i]) && rows == old(rows) - gone
      {
        if * {
          return false, gone;
        }
        assert ids[..i + 1] == ids[..i] + [ids[i]];
        rows := rows - {ids[i]};
        gone := gone + {ids[i]};
      }
      assert ids[..|ids|] == ids;
      ok := true;
    }

    method Hashes(route: string) returns (held: Option<seq<Held>>)
      ensures held.Some? ==> Lists(held.value, rows, route)
    {
      if * {
        return None;
      }
      var out: seq<Held> := [];
      var left := rows.Keys;
      while left != {}
        invariant left <= rows.Keys
        invariant forall i, j | 0 <= i < j < |out| :: out[i].id != out[j].id
        invariant forall h <- out :: h.id !in left && h.id.route == route && h.id in rows && rows[h.id].record.hash == h.hash
        invariant forall id | id in rows && id !in left && id.route == route :: Held(id, rows[id].record.hash) in out
        decreases |left|
      {
        var id :| id in left;
        left := left - {id};
        if id.route == route {
          out := out + [Held(id, rows[id].record.hash)];
        }
      }
      held := Some(out);
    }
  }

  // ---- Backing off ----

  function PowerOfTwo(n: nat): (p: nat)
    ensures p >= 1
  {
    if n == 0 then 1 else 2 * PowerOfTwo(n - 1)
  }

  datatype Backoff = Backoff(base: nat, max: nat, attempts: nat) {
    /** Doubling from the base, capped; a provider that names a time is obeyed, up to the cap. */
    function Delay(attempt: nat, hint: Option<nat>): nat {
      if hint.Some? then Min(hint.value, max)
      else Min(base * Factor(attempt), max)
    }

    lemma {:induction false} PowersGrow(a: nat, b: nat)
      requires a <= b
      ensures PowerOfTwo(a) <= PowerOfTwo(b)
    {
      if a < b {
        PowersGrow(a, b - 1);
      }
    }

    function Factor(attempt: nat): nat {
      if attempt < 32 then PowerOfTwo(attempt) else U32_RANGE - 1
    }

    lemma {:induction false} PowersFit(a: nat)
      requires a < 32
      ensures PowerOfTwo(a) < U32_RANGE - 1
    {
      PowersGrow(a, 31);
      assert PowerOfTwo(8) == 256;
      assert PowerOfTwo(16) == 65536;
      assert PowerOfTwo(24) == 16777216;
    }

    lemma {:induction false} FactorGrows(a: nat, b: nat)
      requires a <= b
      ensures Factor(a) <= Factor(b)
    {
      if b < 32 {
        PowersGrow(a, b);
      } else if a < 32 {
        PowersFit(a);
      }
    }

    lemma {:induction false} ScaledGrows(a: nat, b: nat)
      requires a <= b
      ensures base * a <= base * b
    {
    }

    /** Without a hint no wait is shorter than the one before it, even where the factor stops doubling. */
    lemma {:induction false} DelaysGrow(a: nat, b: nat)
      requires a <= b
      ensures Delay(a, None) <= Delay(b, None) <= max
    {
      FactorGrows(a, b);
      ScaledGrows(Factor(a), Factor(b));
    }

    /**
     * Without a hint the first wait is the base and each of the next 31 twice the one before, all within the cap; the
     * ones after that are a little less than twice the last; and a hint is taken as it is, within the cap.
     */
    lemma {:induction false} DelaysDouble(attempt: nat, hint: nat)
      ensures Delay(0, None) == Min(base, max)
      ensures attempt < 31 ==> Delay(attempt + 1, None) == Min(2 * Delay(attempt, None), max)
      ensures attempt >= 32 ==> Delay(attempt, None) == Min(base * 0xFFFF_FFFF, max)
      ensures Delay(attempt, Some(hint)) == Min(hint, max)
    {
      if attempt < 31 {
        assert PowerOfTwo(attempt + 1) == 2 * PowerOfTwo(attempt);
        Doubled(PowerOfTwo(attempt));
      }
      assert base * 1 == base && PowerOfTwo(0) == 1;
    }

    lemma Doubled(n: nat)
      ensures base * (2 * n) == 2 * (base * n)
    {
    }
  }

  // ---- The embedding model ----

  datatype Reply = Vectors(vectors: seq<Vector>) | RateLimited(hint: Option<nat>) | Refused

  datatype RunError = ModelFailed | StoreFailed | GaveUp(attempts: nat)

  ghost predicate AreVectors(vectors: seq<Vector>, records: seq<Record>, embed: string -> Vector) {
    |vectors| == |records| && forall i | 0 <= i < |records| :: vectors[i] == embed(records[i].text)
  }

  /** Checkpoints after `from`, each later than the one before, none past `done`. */
  ghost predicate Ascend(checkpoints: seq<nat>, from: nat, done: nat) {
    if checkpoints == [] then from <= done
    else
      var last := checkpoints[|checkpoints| - 1];
      last <= done && LastOr(checkpoints[..|checkpoints| - 1], from) < last
      && Ascend(checkpoints[..|checkpoints| - 1], from, last)
  }

  ghost function LastOr(checkpoints: seq<nat>, from: nat): nat {
    if checkpoints == [] then from else checkpoints[|checkpoints| - 1]
  }

  lemma {:induction false} EveryCheckpointIsSaved(checkpoints: seq<nat>, from: nat, done: nat, i: nat)
    requires Ascend(checkpoints, from, done) && i < |checkpoints|
    ensures from < checkpoints[i] <= done
    ensures i > 0 ==> checkpoints[i - 1] < checkpoints[i]
    decreases |checkpoints|
  {
    var init := checkpoints[..|checkpoints| - 1];
    if i < |init| {
      EveryCheckpointIsSaved(init, from, checkpoints[|init|], i);
    } else if init != [] {
      EveryCheckpointIsSaved(init, from, checkpoints[|init|], i - 1);
    }
  }

  lemma EmbeddedAppend(records: seq<Record>, start: nat, at: nat, done: nat, embed: string -> Vector)
    requires start <= at <= done <= |records|
    ensures Embedded(records[start..at], embed) + Embedded(records[at..done], embed) == Embedded(records[start..done], embed)
  {
  }

  lemma PairedIsEmbedded(batch: seq<Record>, vectors: seq<Vector>, embed: string -> Vector, rows: seq<Row>, n: nat)
    requires AreVectors(vectors, batch, embed) && n <= |batch| == |rows|
    requires forall i | 0 <= i < |batch| :: rows[i] == Row(batch[i], vectors[i])
    ensures rows[..n] == Embedded(batch[..n], embed)
  {
  }

  /** One re-embedding run: what it fills, what it asks, and what its sleeper and its progress sink were told. */
  class Embedder {
    const store: Store
    const embed: string -> Vector
    const backoff: Backoff
    var slept: seq<nat>
    var checkpoints: seq<nat>

    constructor (store: Store, embed: string -> Vector, backoff: Backoff)
      ensures this.store == store && this.embed == embed && this.backoff == backoff
      ensures slept == [] && checkpoints == []
    {
      this.store, this.embed, this.backoff := store, embed, backoff;
      slept, checkpoints := [], [];
    }

    /** The model's reply: one vector for each text, or a refusal of either kind. */
    method Reply(records: seq<Record>) returns (reply: Reply)
      ensures reply.Vectors? ==> AreVectors(reply.vectors, records, embed)
    {
      if {
        case true => reply := Vectors(seq(|records|, i requires 0 <= i < |records| => embed(records[i].text)));
        case true => var hint: nat := *; reply := RateLimited(Some(hint));
        case true => reply := RateLimited(None);
        case true => reply := Refused;
      }
    }

    /** What was slept since: the waits for the attempts from one number up to another, each within the cap. */
    ghost predicate Slept(before: seq<nat>, from: nat, to: nat)
      reads this
    {
      && before <= slept && from <= to && |slept| == |before| + to - from
      && AreWaits(slept[|before|..], from)
    }

    ghost predicate AreWaits(waits: seq<nat>, from: nat) {
      forall i | 0 <= i < |waits| :: IsWait(from + i, waits[i])
    }

    /** The waits for some attempts, and then those for the next ones. */
    lemma WaitsGoOn(before: seq<nat>, mid: seq<nat>, now: seq<nat>, from: nat)
      requires before <= mid <= now && AreWaits(mid[|before|..], from) && AreWaits(now[|mid|..], from + |mid| - |before|)
      ensures AreWaits(now[|before|..], from)
    {
      var waits := now[|before|..];
      forall i | 0 <= i < |waits|
        ensures IsWait(from + i, waits[i])
      {
        if i < |mid| - |before| {
          assert waits[i] == mid[|before|..][i];
        } else {
          assert waits[i] == now[|mid|..][i - (|mid| - |before|)];
        }
      }
    }

    ghost predicate IsWait(attempt: nat, wait: nat) {
      wait <= backoff.max && exists hint :: wait == backoff.Delay(attempt, hint)
    }

    /** Asks until the model answers, sleeping between rate limits as long as attempts are left. */
    method Ask(records: seq<Record>, retries: nat) returns (answer: Result<seq<Vector>, RunError>, spent: nat)
      requires retries <= backoff.attempts
      modifies this`slept
      ensures retries <= spent <= backoff.attempts && Slept(old(slept), retries, spent)
      ensures answer.Ok? ==> AreVectors(answer.value, records, embed)
      ensures answer.Err? ==> answer.error == ModelFailed || (answer.error == GaveUp(spent) && spent == backoff.attempts)
    {
      spent := retries;
      while true
        invariant retries <= spent <= backoff.attempts && Slept(old(slept), retries, spent)
        decreases backoff.attempts - spent
      {
        var reply := Reply(records);
        match reply {
          case Vectors(vectors) =>
            return Ok(vectors), spent;
          case RateLimited(hint) =>
            if spent >= backoff.attempts {
              return Err(GaveUp(spent)), spent;
            }
            assert IsWait(spent, backoff.Delay(spent, hint));
            ghost var mid := slept;
            slept := slept + [backoff.Delay(spent, hint)];
            WaitsGoOn(old(slept), mid, slept, retries);
            spent := spent + 1;
          case Refused =>
            return Err(ModelFailed), spent;
        }
      }
    }

    /** What the run has written: every record from where it started up to `done`. */
    ghost predicate Wrote(before: Rows, records: seq<Record>, start: nat, done: nat)
      reads store
    {
      start <= done <= |records| && store.rows == Put(before, Embedded(records[start..done], embed))
    }

    /** Writes one batch; a failure part way leaves a prefix of it. */
    method WriteBatch(records: seq<Record>, start: nat, at: nat, end: nat, vectors: seq<Vector>, ghost before: Rows)
      returns (ok: bool, ghost done: nat)
      requires start <= at <= end <= |records| && AreVectors(vectors, records[at..end], embed)
      requires Wrote(before, records, start, at)
      modifies store
      ensures at <= done <= end && Wrote(before, records, start, done)
      ensures ok ==> done == end
    {
      var batch := records[at..end];
      var rows := seq(|batch|, i requires 0 <= i < |batch| && |vectors| == |batch| => Row(batch[i], vectors[i]));
      ghost var wrote;
      ok, wrote := store.Upsert(rows);
      done := at + wrote;
      PairedIsEmbedded(batch, vectors, embed, rows, wrote);
      assert batch[..wrote] == records[at..done];
      EmbeddedAppend(records, start, at, done, embed);
      PutAppend(before, Embedded(records[start..at], embed), Embedded(records[at..done], embed));
    }

    /** The checkpoints of this run, against where it started and how far it has got. */
    ghost predicate Marked(before: seq<nat>, from: nat, at: nat, last: nat)
      reads this
    {
      && before <= checkpoints
      && var made := checkpoints[|before|..];
         Ascend(made, from, at) && last == LastOr(made, from)
    }

    /** Tells the sink how far the run has got, each time it passes another multiple of the interval. */
    method Checkpoint(embedded: nat, last: nat, ghost from: nat, ghost before: seq<nat>) returns (now: nat)
      requires Marked(before, from, embedded, last) && last <= embedded
      modifies this`checkpoints
      ensures Marked(before, from, embedded, now) && now <= embedded
      ensures embedded / CHECKPOINT_EVERY == now / CHECKPOINT_EVERY
    {
      now := last;
      if embedded / CHECKPOINT_EVERY > last / CHECKPOINT_EVERY {
        ghost var made := checkpoints[|before|..];
        checkpoints := checkpoints + [embedded];
        assert checkpoints[|before|..] == made + [embedded];
        assert (made + [embedded])[..|made|] == made;
        assert Ascend(made, from, embedded);
        now := embedded;
      } else {
        DivisionIsMonotone(last, embedded);
      }
    }

    lemma DivisionIsMonotone(a: nat, b: nat)
      requires a <= b
      ensures a / CHECKPOINT_EVERY <= b / CHECKPOINT_EVERY
    {
    }

    /**
     * Embeds `records` in batches from `from` on. However it ends, what was written is a run of records from
     * there, every checkpoint it reported lies inside that run, fewer than an interval and a batch were written
     * past the last one, and it slept no more often than it may and never longer than the cap.
     */
    method Run(records: seq<Record>, from: nat) returns (result: Result<nat, RunError>, ghost done: nat)
      modifies this, store
      ensures var start := Min(from, |records|); Wrote(old(store.rows), records, start, done)
      ensures old(checkpoints) <= checkpoints
      ensures from <= |records| ==>
                var made := checkpoints[|old(checkpoints)|..];
                Ascend(made, from, done) && done - LastOr(made, from) < CHECKPOINT_EVERY + BATCH
      ensures from > |records| ==> checkpoints == old(checkpoints)
      ensures |old(slept)| <= |slept| <= |old(slept)| + backoff.attempts && Slept(old(slept), 0, |slept| - |old(slept)|)
      ensures result.Ok? ==> done == |records| && result.value == Max(from, |records|)
      ensures result.Err? && result.error.GaveUp? ==> |slept| == |old(slept)| + backoff.attempts == |old(slept)| + result.error.attempts
    {
      var start: nat := Min(from, |records|);
      var at: nat, embedded: nat, retries: nat, last: nat := start, from, 0, from;
      done := start;
      assert checkpoints[|checkpoints|..] == [];
      while at < |records|
        invariant start <= at <= |records| && done == at && embedded == from + at - start
        invariant Wrote(old(store.rows), records, start, at)
        invariant Marked(old(checkpoints), from, embedded, last)
        invariant last <= embedded && embedded / CHECKPOINT_EVERY == last / CHECKPOINT_EVERY
        invariant from > |records| ==> checkpoints == old(checkpoints)
        invariant retries <= backoff.attempts && Slept(old(slept), 0, retries)
      {
        var end: nat := Min(at + BATCH, |records|);
        var answer;
        ghost var mid := slept;
        answer, retries := Ask(records[at..end], retries);
        WaitsGoOn(old(slept), mid, slept, 0);
        if answer.Err? {
          return Err(answer.error), done;
        }
        var ok;
        ok, done := WriteBatch(records, start, at, end, answer.value, old(store.rows));
        if !ok {
          return Err(StoreFailed), done;
        }
        embedded := embedded + (end - at);
        at := end;
        last := Checkpoint(embedded, last, from, old(checkpoints));
      }
      result := Ok(embedded);
    }
  }

  /** Resuming from any point already written ends with the same rows as a run nothing interrupted. */
  lemma ResumingEndsTheSame(rows: Rows, records: seq<Record>, embed: string -> Vector, from: nat, checkpoint: nat, done: nat)
    requires from <= checkpoint <= done <= |records|
    ensures Put(Put(rows, Embedded(records[from..done], embed)), Embedded(records[checkpoint..], embed))
            == Put(rows, Embedded(records[from..], embed))
  {
    var a := Embedded(records[from..checkpoint], embed);
    var b := Embedded(records[checkpoint..done], embed);
    var c := Embedded(records[done..], embed);
    assert a + b == Embedded(records[from..done], embed);
    assert b + c == Embedded(records[checkpoint..], embed);
    assert a + b + c == Embedded(records[from..], embed);
    PutOverlapping(rows, a, b, c);
  }

  /**
   * A run that is taken up again after each failure, from the last checkpoint reported. However often it
   * failed and wherever, when it succeeds the rows are those of one run nothing interrupted.
   */
  method RunUntilDone(e: Embedder, records: seq<Record>, tries: nat) returns (result: Result<nat, RunError>)
    requires tries > 0
    modifies e, e.store
    ensures result.Ok? ==> e.store.rows == Put(old(e.store.rows), Embedded(records, e.embed))
  {
    ghost var rows := e.store.rows;
    var from: nat := 0;
    var left := tries;
    assert records[0..] == records;
    while true
      invariant from <= |records| && left > 0
      invariant Put(e.store.rows, Embedded(records[from..], e.embed)) == Put(rows, Embedded(records, e.embed))
      decreases left
    {
      ghost var before := e.store.rows;
      var told := |e.checkpoints|;
      ghost var done;
      result, done := e.Run(records, from);
      left := left - 1;
      if result.Ok? {
        assert records[from..done] == records[from..];
        return;
      }
      if left == 0 {
        return;
      }
      var made := e.checkpoints[told..];
      LastIsSaved(made, from, done);
      var next := if made == [] then from else made[|made| - 1];
      ResumingEndsTheSame(before, records, e.embed, from, next, done);
      from := next;
    }
  }

  lemma LastIsSaved(made: seq<nat>, from: nat, done: nat)
    requires Ascend(made, from, done) && from <= done
    ensures from <= LastOr(made, from) <= done
  {
    if made != [] {
      EveryCheckpointIsSaved(made, from, done, |made| - 1);
    }
  }
}
