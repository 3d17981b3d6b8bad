/** What a run's steps do, told without the functions that do it. */
module Effects {
  import opened Common
  import opened Secrets
  import opened Trust
  import opened Policies
  import opened Changes
  import opened Record
  import opened Dispatch
  import opened Traces
  import opened Runs
  import opened RunInvariants

  // ---- Fetched pages ----

  /** The result of one tool is a third party's: that of the one that fetches a page. */
  lemma OnlyFetchedIsExternal(tool: string)
    ensures ResultTrust(tool) == if tool == "web_fetch" then External else Member
  {
  }

  predicate IsFetch(step: Step) {
    step.RecordResult? && step.tool == "web_fetch"
  }

  lemma FetchStep(env: Env, s: RunState, step: Step)
    ensures Apply(env, s, step).sawExternal <==> s.sawExternal || IsFetch(step)
  {
    if step.RecordResult? {
      OnlyFetchedIsExternal(step.tool);
    }
  }

  /** Over every run: the flag is set exactly when some step recorded a fetched page. */
  lemma FlagIffFetched(env: Env, steps: seq<Step>)
    ensures Execute(env, Start(), steps).sawExternal <==> exists step <- steps :: IsFetch(step)
  {
    forall t: RunState, step: Step
      ensures StepOf(env)(t, step).sawExternal <==> t.sawExternal || IsFetch(step)
    {
      FetchStep(env, t, step);
    }
    FoldSets(Start(), steps, StepOf(env), (t: RunState) => t.sawExternal, IsFetch);
  }

  /** So a run that recorded one, whoever's it is and whatever else it did, publishes nothing but a review. */
  lemma FetchedIsReviewed(env: Env, steps: seq<Step>, signals: Signals, allowBulkDelete: bool)
    requires exists step <- steps :: IsFetch(step)
    ensures var d := PublishDecision(env, Execute(env, Start(), steps), signals, allowBulkDelete);
            d.Ok? ==> d.value == Decision(Review, env.policy, true)
  {
    FlagIffFetched(env, steps);
  }

  // ---- Phases ----

  lemma NextIs(phases: seq<Phase>, phase: Phase)
    requires phases <= PHASES
    ensures phases + [phase] <= PHASES
            <==> if phases == [] then phase == Research else phases[|phases| - 1].Next() == Some(phase)
  {
    var n := |phases|;
    assert n <= 5 && forall i | 0 <= i < n :: phases[i] == PHASES[i];
    assert phases + [phase] <= PHASES <==> n < 5 && PHASES[n] == phase;
    assert n > 0 ==> phases[n - 1] == PHASES[n - 1];
  }

  /** A phase is entered exactly when it is the next of the five. */
  lemma EntersIff(env: Env, s: RunState, phase: Phase)
    requires InOrder(s.entries)
    ensures var after := Apply(env, s, Enter(phase));
            if PhasesOf(s.entries) + [phase] <= PHASES
            then PhasesOf(after.entries) == PhasesOf(s.entries) + [phase] && CurrentPhase(after.entries) == Some(phase)
            else after == s
  {
    CurrentIsLast(s.entries);
    NextIs(PhasesOf(s.entries), phase);
    assert MayEnter(s, phase) <==> PhasesOf(s.entries) + [phase] <= PHASES;
    EnterStep(env, s, phase);
  }

  lemma EnterStep(env: Env, s: RunState, phase: Phase)
    ensures var after := Apply(env, s, Enter(phase));
            if MayEnter(s, phase)
            then PhasesOf(after.entries) == PhasesOf(s.entries) + [phase] && CurrentPhase(after.entries) == Some(phase)
            else after == s
  {
    PhaseStep(env, s, Enter(phase));
  }

  // ---- What the record keeps ----

  /** Whatever was given to be kept went through the scrubber first. */
  ghost predicate IsScrubbed(env: Env, e: Entry) {
    match e
    case ToolCall(_, _, input, _) => exists given :: input == RedactValue(given, env.redact)
    case ToolResult(_, _, value, _) => exists given :: value == RedactValue(given, env.redact)
    case _ => true
  }

  ghost predicate AllScrubbed(env: Env, entries: seq<Entry>) {
    forall e <- entries :: IsScrubbed(env, e)
  }

  lemma AddedIsScrubbed(env: Env, s: RunState, step: Step)
    ensures AllScrubbed(env, RunInvariants.Added(env, s, step))
  {
  }

  lemma ScrubbedStep(env: Env, s: RunState, step: Step)
    requires AllScrubbed(env, s.entries)
    ensures AllScrubbed(env, Apply(env, s, step).entries)
  {
    StepAppends(env, s, step);
    AddedIsScrubbed(env, s, step);
  }

  /** No run records a call's input or a tool's result as it was given. */
  lemma RecordIsScrubbed(env: Env, steps: seq<Step>)
    ensures AllScrubbed(env, Execute(env, Start(), steps).entries)
  {
    forall t: RunState, step: Step | AllScrubbed(env, t.entries)
      ensures AllScrubbed(env, StepOf(env)(t, step).entries)
    {
      ScrubbedStep(env, t, step);
    }
    FoldKeeps(Start(), steps, StepOf(env), (t: RunState) => AllScrubbed(env, t.entries));
  }

  // ---- The working copy ----

  /** The change to one path, if there is one. */
  ghost predicate Holds(written: seq<FileChange>, c: FileChange) {
    c in written && forall d <- written :: d.path == c.path ==> d == c
  }

  ghost predicate SameElsewhere(a: seq<FileChange>, b: seq<FileChange>, path: string) {
    forall c: FileChange | c.path != path :: c in a <==> c in b
  }

  /**
   * A write that is made leaves one change for its path, with the new text after. Where there was one already it
   * keeps its kind and the text it started from; otherwise it adds the page, or modifies it when it had a text.
   */
  lemma WriteTakesEffect(written: seq<FileChange>, path: string, markdown: string, before: Option<string>)
    requires PathsDistinct(written)
    ensures var after := PutWrite(written, path, markdown, before);
            && SameElsewhere(written, after, path)
            && (forall c <- written | c.path == path :: Holds(after, FileChange(path, c.kind, c.before, Some(markdown))))
            && ((forall c <- written :: c.path != path) ==>
                  Holds(after, FileChange(path, if before.Some? then Modified else Added, before, Some(markdown))))
  {
    var k := IndexOf(written, path);
    var after := PutWrite(written, path, markdown, before);
    if k < |written| {
      Replaced(written, k, written[k].(after := Some(markdown)));
    } else {
      Appends(written, FileChange(path, if before.Some? then Modified else Added, before, Some(markdown)));
    }
  }

  /** A deletion leaves one change for its path, whatever was there: deleted, with the text given as what it was. */
  lemma DeletionTakesEffect(written: seq<FileChange>, path: string, before: string)
    requires PathsDistinct(written)
    ensures var after := PutDeletion(written, path, before);
            SameElsewhere(written, after, path) && Holds(after, FileChange(path, Deleted, Some(before), None))
  {
    var k := IndexOf(written, path);
    var change := FileChange(path, Deleted, Some(before), None);
    if k < |written| {
      Replaced(written, k, change);
    } else {
      Appends(written, change);
    }
  }

  lemma Replaced(written: seq<FileChange>, k: nat, c: FileChange)
    requires k < |written| && PathsDistinct(written) && written[k].path == c.path
    ensures SameElsewhere(written, written[k := c], c.path) && Holds(written[k := c], c)
    ensures forall d <- written | d.path == c.path :: d == written[k]
  {
    var after := written[k := c];
    forall d: FileChange | d.path != c.path
      ensures d in written <==> d in after
    {
      if d in written {
        var i :| 0 <= i < |written| && written[i] == d;
        assert after[i] == d;
      }
      if d in after {
        var i :| 0 <= i < |after| && after[i] == d;
        assert written[i] == d;
      }
    }
    assert after[k] == c;
  }

  lemma Appends(written: seq<FileChange>, c: FileChange)
    requires forall d <- written :: d.path != c.path
    ensures SameElsewhere(written, written + [c], c.path) && Holds(written + [c], c)
  {
    assert (written + [c])[|written|] == c;
  }
}
