/** One run of the writing agent, as the steps its methods take over a state. */
module Runs {
  import opened Common
  import opened Secrets
  import opened Scope
  import opened Trust
  import opened Policies
  import opened Changes
  import opened Gates
  import opened Record
  import opened Dispatch
  import opened Traces

  /** Everything fixed when a run starts. */
  datatype Env = Env(
    gate: Gate,
    limits: Limits,
    layout: Layout,
    knownHosts: set<string>,
    scanners: Scanners,
    /** How many `AGENTS.md` rules a text breaks. */
    violations: string -> nat,
    /** The scrubber every recorded string goes through. */
    redact: string -> string,
    policy: Policy,
    deadline: nat)

  datatype DataBlock = DataBlock(tool: string, trust: TrustLevel, value: Json)

  datatype RunState = RunState(
    entries: seq<Entry>,
    written: seq<FileChange>,
    findings: seq<DataBlock>,
    sawExternal: bool)

  datatype NotWritten = WrongPhase | PathDisagrees | RefusedWrite(reason: Rejection)

  datatype Failed = NotInPublish | Gated

  /** What a caller may do to a run, one method each. Times are readings of the run's clock. */
  datatype Step =
    | Enter(phase: Phase)
    | WritePage(route: string, path: string, markdown: string, before: Option<string>, now: nat)
    | DeleteFile(path: string, deletedText: string)
    | RunValidation(diagnostics: nat)
    | RecordResult(tool: string, value: Json)
    | AuthoriseCall(tool: string, input: Json, now: nat)
    | RecordExchange(usage: Option<Usage>)
    | AddNote
    | PublishRun(signals: Signals, allowBulkDelete: bool)

  /** A run starts with a note of the surface it was asked for on. */
  function Start(): RunState {
    RunState([Note(0)], [], [], false)
  }

  function Noted(s: RunState): RunState {
    s.(entries := s.entries + [Note(NextNumber(s.entries))])
  }

  // ---- Entering a phase ----

  predicate MayEnter(s: RunState, phase: Phase) {
    match CurrentPhase(s.entries)
    case None => phase == Research
    case Some(current) => current.Next() == Some(phase)
  }

  function AfterEnter(s: RunState, phase: Phase): RunState {
    if MayEnter(s, phase) then s.(entries := s.entries + [PhaseEntry(NextNumber(s.entries), phase)]) else s
  }

  // ---- Authorising a call ----

  function CallDecision(env: Env, s: RunState, tool: string, input: Json, now: nat): Result<(), Rejection> {
    if now >= env.deadline then Err(Exhausted(WallTime)) else Dispatch.Decide(env.gate, s.entries, tool, input)
  }

  function CallEntry(env: Env, s: RunState, tool: string, input: Json, now: nat): Entry {
    ToolCall(NextNumber(s.entries), tool, RedactValue(input, env.redact),
             match CallDecision(env, s, tool, input, now) { case Ok(_) => Accepted case Err(reason) => Refused(reason) })
  }

  function AfterCall(env: Env, s: RunState, tool: string, input: Json, now: nat): RunState {
    s.(entries := s.entries + [CallEntry(env, s, tool, input, now)])
  }

  // ---- Writing and deleting ----

  function WriteInput(route: string, markdown: string): Json {
    Obj([Field("markdown", Str(markdown)), Field("route", Str(route))])
  }

  function WriteDecision(env: Env, s: RunState, route: string, path: string, markdown: string, now: nat): Result<(), NotWritten> {
    if CurrentPhase(s.entries) != Some(Write) then Err(WrongPhase)
    else if RouteOf(env.layout, path) != CanonicalRoute(route) then Err(PathDisagrees)
    else match CallDecision(env, s, WRITE_PAGE, WriteInput(route, markdown), now)
      case Ok(_) => Ok(())
      case Err(reason) => Err(RefusedWrite(reason))
  }

  /** Where a path's change stands in the working copy, or its length when it has none. */
  function IndexOf(written: seq<FileChange>, path: string): (k: nat)
    ensures k <= |written| && (k < |written| ==> written[k].path == path)
    ensures forall i | 0 <= i < k :: written[i].path != path
  {
    if written == [] || written[0].path == path then 0 else IndexOf(written[1..], path) + 1
  }

  /** A second write to a file replaces its after side and keeps what it started from. */
  function PutWrite(written: seq<FileChange>, path: string, markdown: string, before: Option<string>): seq<FileChange> {
    var k := IndexOf(written, path);
    if k < |written| then written[k := written[k].(after := Some(markdown))]
    else written + [FileChange(path, if before.Some? then Modified else Added, before, Some(markdown))]
  }

  function PutDeletion(written: seq<FileChange>, path: string, before: string): seq<FileChange> {
    var k := IndexOf(written, path);
    var change := FileChange(path, Deleted, Some(before), None);
    if k < |written| then written[k := change] else written + [change]
  }

  function AfterWrite(env: Env, s: RunState, route: string, path: string, markdown: string, before: Option<string>, now: nat): RunState {
    match WriteDecision(env, s, route, path, markdown, now)
    case Err(WrongPhase) => s
    case Err(PathDisagrees) => s
    case Err(RefusedWrite(_)) => AfterCall(env, s, WRITE_PAGE, WriteInput(route, markdown), now)
    case Ok(_) =>
      AfterCall(env, s, WRITE_PAGE, WriteInput(route, markdown), now)
      .(written := PutWrite(s.written, path, markdown, before))
  }

  // ---- Validating ----

  function StyleViolations(env: Env, written: seq<FileChange>): nat {
    if written == [] then 0
    else
      StyleViolations(env, written[..|written| - 1])
      + match written[|written| - 1].after {
          case Some(text) => env.violations(text)
          case None => 0
        }
  }

  predicate ValidationPasses(env: Env, s: RunState, diagnostics: nat) {
    StyleViolations(env, s.written) == 0 && diagnostics == 0
  }

  // ---- Results ----

  function AfterResult(s: RunState, tool: string, value: Json, redact: string -> string): RunState {
    var trust := ResultTrust(tool);
    var s1 := if trust.IsUntrusted() then Noted(s).(sawExternal := true) else s;
    s1.(entries := s1.entries + [ToolResult(NextNumber(s1.entries), tool, RedactValue(value, redact), trust)],
        findings := s1.findings + [DataBlock(tool, trust, value)])
  }

  // ---- Publishing ----

  function GateInputs(env: Env, written: seq<FileChange>, allowBulkDelete: bool): Inputs {
    Inputs(written, env.gate.restrictions, env.limits, env.layout, env.knownHosts, env.scanners, allowBulkDelete)
  }

  /** How publishing ends, with the gate's verdict taken from the report itself. */
  function DecisionOn(env: Env, s: RunState, report: Report, signals: Signals): Result<Decision, Failed> {
    if CurrentPhase(s.entries) != Some(Publish) then Err(NotInPublish)
    else if report.Rejected() then Err(Gated)
    else if s.sawExternal then Ok(ExternalContentDowngrade(env.policy))
    else Ok(Policies.Decide(env.policy, env.gate.restrictions, signals.(gatePassed := !report.Rejected())))
  }

  function PublishDecision(env: Env, s: RunState, signals: Signals, allowBulkDelete: bool): Result<Decision, Failed> {
    DecisionOn(env, s, ReportOn(GateInputs(env, s.written, allowBulkDelete)), signals)
  }

  /** The decision goes into the record; a run that may not publish is left as it was. */
  function Concluded(s: RunState, decided: Result<Decision, Failed>): RunState {
    match decided
    case Err(_) => s
    case Ok(decision) => s.(entries := s.entries + [Decided(NextNumber(s.entries), decision)])
  }

  function AfterPublish(env: Env, s: RunState, signals: Signals, allowBulkDelete: bool): RunState {
    Concluded(s, PublishDecision(env, s, signals, allowBulkDelete))
  }

  // ---- Runs ----

  function Apply(env: Env, s: RunState, step: Step): RunState {
    match step
    case Enter(phase) => AfterEnter(s, phase)
    case WritePage(route, path, markdown, before, now) => AfterWrite(env, s, route, path, markdown, before, now)
    case DeleteFile(path, before) => s.(written := PutDeletion(s.written, path, before))
    case RunValidation(_) => Noted(s)
    case RecordResult(tool, value) => AfterResult(s, tool, value, env.redact)
    case AuthoriseCall(tool, input, now) => AfterCall(env, s, tool, input, now)
    case RecordExchange(usage) => s.(entries := s.entries + [ModelExchange(NextNumber(s.entries), usage)])
    case AddNote => Noted(s)
    case PublishRun(signals, allowBulkDelete) => AfterPublish(env, s, signals, allowBulkDelete)
  }

  function StepOf(env: Env): (RunState, Step) -> RunState {
    (s: RunState, step: Step) => Apply(env, s, step)
  }

  /** Where a whole run of steps leads. */
  function Execute(env: Env, s: RunState, steps: seq<Step>): RunState {
    Fold(s, steps, StepOf(env))
  }

  // ---- Steps, case by case ----

  lemma WriteInWrongPhase(env: Env, s: RunState, route: string, path: string, markdown: string, before: Option<string>, now: nat)
    requires CurrentPhase(s.entries) != Some(Write)
    ensures WriteDecision(env, s, route, path, markdown, now) == Err(WrongPhase)
    ensures Apply(env, s, WritePage(route, path, markdown, before, now)) == s
  {
  }

  lemma WriteElsewhere(env: Env, s: RunState, route: string, path: string, markdown: string, before: Option<string>, now: nat)
    requires CurrentPhase(s.entries) == Some(Write) && RouteOf(env.layout, path) != CanonicalRoute(route)
    ensures WriteDecision(env, s, route, path, markdown, now) == Err(PathDisagrees)
    ensures Apply(env, s, WritePage(route, path, markdown, before, now)) == s
  {
  }

  /** Once it is asked for, a write is recorded as a call, and made if the call was accepted. */
  lemma WriteAsked(env: Env, s: RunState, route: string, path: string, markdown: string, before: Option<string>, now: nat)
    requires CurrentPhase(s.entries) == Some(Write) && RouteOf(env.layout, path) == CanonicalRoute(route)
    ensures var called := Apply(env, s, AuthoriseCall(WRITE_PAGE, WriteInput(route, markdown), now));
            var after := Apply(env, s, WritePage(route, path, markdown, before, now));
            match CallDecision(env, s, WRITE_PAGE, WriteInput(route, markdown), now)
            case Err(reason) =>
              after == called && WriteDecision(env, s, route, path, markdown, now) == Err(RefusedWrite(reason))
            case Ok(_) =>
              && after == called.(written := PutWrite(s.written, path, markdown, before))
              && WriteDecision(env, s, route, path, markdown, now) == Ok(())
  {
  }

  lemma PublishDecisionIs(env: Env, s: RunState, report: Report, signals: Signals, allowBulkDelete: bool)
    requires report == ReportOn(GateInputs(env, s.written, allowBulkDelete))
    ensures PublishDecision(env, s, signals, allowBulkDelete) == DecisionOn(env, s, report, signals)
  {
  }

  lemma PublishStep(env: Env, s: RunState, signals: Signals, allowBulkDelete: bool)
    ensures Apply(env, s, PublishRun(signals, allowBulkDelete)) == AfterPublish(env, s, signals, allowBulkDelete)
  {
    var published := AfterPublish(env, s, signals, allowBulkDelete);
    PublishStepIs(env, s, PublishRun(signals, allowBulkDelete), published);
  }

  lemma PublishStepIs(env: Env, s: RunState, step: Step, published: RunState)
    requires step.PublishRun? && published == AfterPublish(env, s, step.signals, step.allowBulkDelete)
    ensures Apply(env, s, step) == published
  {
  }

  lemma PublishRecords(env: Env, s: RunState, decided: Result<Decision, Failed>, signals: Signals, allowBulkDelete: bool)
    requires decided == PublishDecision(env, s, signals, allowBulkDelete)
    ensures AfterPublish(env, s, signals, allowBulkDelete) == Concluded(s, decided)
  {
  }
}

/** What every run keeps, whatever its caller does and in whatever order. */
module RunInvariants {
  import opened Common
  import opened Secrets
  import opened Scope
  import opened Trust
  import opened Changes
  import opened Record
  import opened Dispatch
  import opened Traces
  import opened Runs

  /** What one step adds to the record: nothing, one entry, or a note and a result. */
  ghost function Added(env: Env, s: RunState, step: Step): seq<Entry> {
    match step
    case Enter(phase) => if MayEnter(s, phase) then [PhaseEntry(NextNumber(s.entries), phase)] else []
    case WritePage(route, path, markdown, before, now) =>
      var d := WriteDecision(env, s, route, path, markdown, now);
      if d == Err(WrongPhase) || d == Err(PathDisagrees) then []
      else [CallEntry(env, s, WRITE_PAGE, WriteInput(route, markdown), now)]
    case DeleteFile(_, _) => []
    case RunValidation(_) => [Note(NextNumber(s.entries))]
    case AddNote => [Note(NextNumber(s.entries))]
    case RecordResult(tool, value) =>
      if ResultTrust(tool).IsUntrusted()
      then [Note(NextNumber(s.entries)), ToolResult(AsU32(|s.entries| + 1), tool, RedactValue(value, env.redact), External)]
      else [ToolResult(NextNumber(s.entries), tool, RedactValue(value, env.redact), Member)]
    case AuthoriseCall(tool, input, now) => [CallEntry(env, s, tool, input, now)]
    case RecordExchange(usage) => [ModelExchange(NextNumber(s.entries), usage)]
    case PublishRun(signals, allow) =>
      Conclusion(s, PublishDecision(env, s, signals, allow))
  }

  ghost function Conclusion(s: RunState, decided: Result<Policies.Decision, Failed>): (added: seq<Entry>)
    ensures |added| <= 1 && forall e <- added :: e.number == NextNumber(s.entries)
  {
    match decided
    case Err(_) => []
    case Ok(decision) => [Decided(NextNumber(s.entries), decision)]
  }

  /** The record is append-only: every step keeps what is there and adds at its end. */
  lemma StepAppends(env: Env, s: RunState, step: Step)
    ensures Apply(env, s, step).entries == s.entries + Added(env, s, step)
  {
  }

  lemma RecordIsAppendOnly(env: Env, s: RunState, steps: seq<Step>)
    ensures s.entries <= Execute(env, s, steps).entries
  {
    forall t: RunState, step: Step | s.entries <= t.entries
      ensures s.entries <= StepOf(env)(t, step).entries
    {
      StepAppends(env, t, step);
    }
    FoldKeeps(s, steps, StepOf(env), (t: RunState) => s.entries <= t.entries);
  }

  // ---- Numbers ----

  ghost predicate Numbered(entries: seq<Entry>) {
    forall i | 0 <= i < |entries| :: entries[i].number == AsU32(i)
  }

  lemma AddedNumbers(env: Env, s: RunState, step: Step)
    ensures |Added(env, s, step)| <= 2
    ensures forall i | 0 <= i < |Added(env, s, step)| :: Added(env, s, step)[i].number == AsU32(|s.entries| + i)
  {
    match step {
      case RecordResult(tool, value) =>
        assert NextNumber(s.entries) == AsU32(|s.entries|);
      case _ =>
        assert |Added(env, s, step)| <= 1;
    }
  }

  lemma NumberedAppend(entries: seq<Entry>, added: seq<Entry>)
    requires Numbered(entries) && forall i | 0 <= i < |added| :: added[i].number == AsU32(|entries| + i)
    ensures Numbered(entries + added)
  {
  }

  lemma NumbersStep(env: Env, s: RunState, step: Step)
    requires Numbered(s.entries)
    ensures Numbered(Apply(env, s, step).entries)
  {
    StepAppends(env, s, step);
    AddedNumbers(env, s, step);
    NumberedAppend(s.entries, Added(env, s, step));
  }

  /** Entries are numbered by position, for as long as positions fit a u32. */
  lemma NumbersArePositions(env: Env, steps: seq<Step>)
    ensures Numbered(Execute(env, Start(), steps).entries)
  {
    forall t: RunState, step: Step | Numbered(t.entries)
      ensures Numbered(StepOf(env)(t, step).entries)
    {
      NumbersStep(env, t, step);
    }
    FoldKeeps(Start(), steps, StepOf(env), (t: RunState) => Numbered(t.entries));
  }

  // ---- Phases ----

  ghost predicate InOrder(entries: seq<Entry>) {
    PhasesOf(entries) <= PHASES
  }

  lemma AppendedAll(entries: seq<Entry>, added: seq<Entry>)
    requires |added| <= 2
    ensures (forall e <- added :: !e.PhaseEntry?) ==>
              CurrentPhase(entries + added) == CurrentPhase(entries) && PhasesOf(entries + added) == PhasesOf(entries)
  {
    if |added| == 1 {
      Appended(entries, added[0]);
      assert entries + added == entries + [added[0]];
    } else if |added| == 2 {
      Appended(entries, added[0]);
      Appended(entries + [added[0]], added[1]);
      assert entries + added == entries + [added[0]] + [added[1]];
    } else {
      assert entries + added == entries;
    }
  }

  /** Only entering a phase moves it, and only to the next. */
  lemma PhaseStep(env: Env, s: RunState, step: Step)
    ensures var after := Apply(env, s, step).entries;
            if step.Enter? && MayEnter(s, step.phase)
            then CurrentPhase(after) == Some(step.phase) && PhasesOf(after) == PhasesOf(s.entries) + [step.phase]
            else CurrentPhase(after) == CurrentPhase(s.entries) && PhasesOf(after) == PhasesOf(s.entries)
  {
    StepAppends(env, s, step);
    var added := Added(env, s, step);
    if step.Enter? && MayEnter(s, step.phase) {
      Appended(s.entries, added[0]);
      assert s.entries + added == s.entries + [added[0]];
    } else {
      AppendedAll(s.entries, added);
    }
  }

  lemma OrderStep(env: Env, s: RunState, step: Step)
    requires InOrder(s.entries)
    ensures InOrder(Apply(env, s, step).entries)
  {
    PhaseStep(env, s, step);
    CurrentIsLast(s.entries);
  }

  /** A run never skips a phase, repeats one or goes back. */
  lemma PhasesStayInOrder(env: Env, steps: seq<Step>)
    ensures InOrder(Execute(env, Start(), steps).entries)
  {
    forall t: RunState, step: Step | InOrder(t.entries)
      ensures InOrder(StepOf(env)(t, step).entries)
    {
      OrderStep(env, t, step);
    }
    StartIsSound(env);
    FoldKeeps(Start(), steps, StepOf(env), (t: RunState) => InOrder(t.entries));
  }

  lemma StartIsSound(env: Env)
    ensures InOrder(Start().entries) && FlagTruthful(Start()) && CurrentPhase(Start().entries) == None
  {
    assert Start().entries == [] + [Note(0)];
    Appended([], Note(0));
  }

  // ---- External content ----

  ghost predicate HasUntrustedResult(entries: seq<Entry>) {
    exists e <- entries :: e.ToolResult? && e.trust.IsUntrusted()
  }

  ghost predicate FlagTruthful(s: RunState) {
    s.sawExternal <==> HasUntrustedResult(s.entries)
  }

  /** The flag says exactly whether a third party's bytes were ever recorded; it is never cleared. */
  lemma FlagStaysTruthful(env: Env, steps: seq<Step>)
    ensures FlagTruthful(Execute(env, Start(), steps))
  {
    forall t: RunState, step: Step | FlagTruthful(t)
      ensures FlagTruthful(StepOf(env)(t, step))
    {
      FlagStep(env, t, step);
    }
    StartIsSound(env);
    FoldKeeps(Start(), steps, StepOf(env), (t: RunState) => FlagTruthful(t));
  }

  lemma FlagStep(env: Env, s: RunState, step: Step)
    requires FlagTruthful(s)
    ensures FlagTruthful(Apply(env, s, step))
  {
    StepAppends(env, s, step);
    var added := Added(env, s, step);
    UntrustedAppend(s.entries, added);
    if step.RecordResult? && ResultTrust(step.tool).IsUntrusted() {
      assert added[1] in added;
    }
  }

  lemma UntrustedAppend(a: seq<Entry>, b: seq<Entry>)
    ensures HasUntrustedResult(a + b) <==> HasUntrustedResult(a) || HasUntrustedResult(b)
  {
    if HasUntrustedResult(a) {
      var e :| e in a && e.ToolResult? && e.trust.IsUntrusted();
      assert e in a + b;
    }
    if HasUntrustedResult(b) {
      var e :| e in b && e.ToolResult? && e.trust.IsUntrusted();
      assert e in a + b;
    }
  }

  // ---- The working copy ----

  ghost predicate PathsDistinct(written: seq<FileChange>) {
    forall i, j | 0 <= i < j < |written| :: written[i].path != written[j].path
  }

  /** No two changes in the working copy are for one path, whatever was written and deleted. */
  lemma PathsStayDistinct(env: Env, steps: seq<Step>)
    ensures PathsDistinct(Execute(env, Start(), steps).written)
  {
    forall t: RunState, step: Step | PathsDistinct(t.written)
      ensures PathsDistinct(StepOf(env)(t, step).written)
    {
      PathsStep(env, t, step);
    }
    FoldKeeps(Start(), steps, StepOf(env), (t: RunState) => PathsDistinct(t.written));
  }

  lemma PathsStep(env: Env, s: RunState, step: Step)
    requires PathsDistinct(s.written)
    ensures PathsDistinct(Apply(env, s, step).written)
  {
  }

  // ---- Budgets and the audit ----

  ghost predicate IsAccepted(e: Entry) {
    e.ToolCall? && e.outcome.Accepted?
  }

  /** Fewer calls than allowed, and fewer tokens spent both ways. */
  ghost predicate HasBudget(env: Env, entries: seq<Entry>) {
    |Calls(entries)| < env.gate.maxToolCalls && SumBy(entries, UsageOf()) < env.gate.maxTokens
  }

  /** Every accepted call had budget left when it was made. */
  ghost predicate WithinBudget(env: Env, entries: seq<Entry>) {
    forall i | 0 <= i < |entries| && IsAccepted(entries[i]) ::
      HasBudget(env, entries[..i])
  }

  /** An accepted call is new, was made before the deadline, and was decided by the gate. */
  lemma AcceptedWasDecided(env: Env, s: RunState, step: Step, e: Entry)
    requires e in Added(env, s, step) && IsAccepted(e)
    ensures Added(env, s, step) == [e]
    ensures step.WritePage? || step.AuthoriseCall?
    ensures step.now < env.deadline
    ensures Dispatch.Decide(env.gate, s.entries, e.name,
              if step.WritePage? then WriteInput(step.route, step.markdown) else step.input).Ok?
  {
  }

  lemma BudgetAppend(env: Env, entries: seq<Entry>, e: Entry)
    requires WithinBudget(env, entries)
    requires IsAccepted(e) ==> HasBudget(env, entries)
    ensures WithinBudget(env, entries + [e])
  {
    var after := entries + [e];
    forall i | 0 <= i < |after| && IsAccepted(after[i])
      ensures HasBudget(env, after[..i])
    {
      if i < |entries| {
        assert after[..i] == entries[..i];
      } else {
        assert after[..i] == entries;
      }
    }
  }

  lemma BudgetStep(env: Env, s: RunState, step: Step)
    requires env.gate.maxToolCalls <= U16_MAX && env.gate.maxTokens < U32_RANGE && WithinBudget(env, s.entries)
    ensures WithinBudget(env, Apply(env, s, step).entries)
  {
    StepAppends(env, s, step);
    AddedNumbers(env, s, step);
    var added := Added(env, s, step);
    if e :| e in added && IsAccepted(e) {
      AcceptedWasDecided(env, s, step, e);
      DecideOkIff(env.gate, s.entries, e.name, if step.WritePage? then WriteInput(step.route, step.markdown) else step.input);
      BudgetAppend(env, s.entries, e);
    } else if |added| == 1 {
      BudgetAppend(env, s.entries, added[0]);
      assert s.entries + added == s.entries + [added[0]];
    } else if |added| == 2 {
      BudgetAppend(env, s.entries, added[0]);
      BudgetAppend(env, s.entries + [added[0]], added[1]);
      assert s.entries + added == s.entries + [added[0]] + [added[1]];
    } else {
      assert s.entries + added == s.entries;
    }
  }

  /** No run ever accepts a call beyond its call or token budget. */
  lemma BudgetsHold(env: Env, steps: seq<Step>)
    requires env.gate.maxToolCalls <= U16_MAX && env.gate.maxTokens < U32_RANGE
    ensures WithinBudget(env, Execute(env, Start(), steps).entries)
  {
    forall t: RunState, step: Step | WithinBudget(env, t.entries)
      ensures WithinBudget(env, StepOf(env)(t, step).entries)
    {
      BudgetStep(env, t, step);
    }
    FoldKeeps(Start(), steps, StepOf(env), (t: RunState) => WithinBudget(env, t.entries));
  }

  /** Asking is audited: one entry for one call, the answer in it, the input scrubbed, nothing else changed. */
  lemma EveryCallIsRecorded(env: Env, s: RunState, tool: string, input: Json, now: nat)
    ensures var after := AfterCall(env, s, tool, input, now);
            && after == s.(entries := after.entries) && |after.entries| == |s.entries| + 1
            && var e := after.entries[|s.entries|];
               && e.ToolCall? && e.name == tool
               && Strings(e.input) <= Image(env.redact, Strings(input))
               && (e.outcome.Accepted? <==> now < env.deadline && Dispatch.Decide(env.gate, s.entries, tool, input).Ok?)
  {
    Appended(s.entries, CallEntry(env, s, tool, input, now));
    RedactValueScrubs(input, env.redact);
  }

  // ---- Every write is accounted for ----

  /** An accepted `write_page` call that wrote this text, for a route the run may write. */
  ghost predicate IsWriteOf(env: Env, e: Entry, path: string, text: string) {
    && IsAccepted(e) && e.name == WRITE_PAGE
    && exists route ::
         && e.input == RedactValue(WriteInput(route, text), env.redact)
         && MayWrite(env, route, path)
  }

  ghost predicate MayWrite(env: Env, route: string, path: string) {
    && CanonicalRoute(route).Some?
    && RouteOf(env.layout, path) == CanonicalRoute(route)
    && env.gate.restrictions.Permits(Page(CanonicalRoute(route).value)).Ok?
  }

  ghost predicate WriteRecorded(env: Env, entries: seq<Entry>, path: string, text: string) {
    exists e <- entries :: IsWriteOf(env, e, path, text)
  }

  ghost predicate Accounted(env: Env, s: RunState) {
    forall c <- s.written | c.after.Some? :: WriteRecorded(env, s.entries, c.path, c.after.value)
  }

  lemma RecordedStays(env: Env, entries: seq<Entry>, more: seq<Entry>, path: string, text: string)
    requires WriteRecorded(env, entries, path, text)
    ensures WriteRecorded(env, entries + more, path, text)
  {
    var e :| e in entries && IsWriteOf(env, e, path, text);
    assert e in entries + more;
  }

  lemma WriteInputRoute(route: string, markdown: string)
    ensures StringAt(WriteInput(route, markdown), "route") == route
  {
    var fields := WriteInput(route, markdown).fields;
    assert |"markdown"| == 8 && |"route"| == 5;
    assert fields[0].key != "route";
    assert fields[1..] == [Field("route", Str(route))];
    assert FieldAt(fields, "route") == FieldAt(fields[1..], "route");
  }

  lemma WriteIsRecorded(env: Env, s: RunState, route: string, path: string, markdown: string, now: nat)
    requires WriteDecision(env, s, route, path, markdown, now).Ok?
    ensures IsWriteOf(env, CallEntry(env, s, WRITE_PAGE, WriteInput(route, markdown), now), path, markdown)
  {
    WriteInputRoute(route, markdown);
    assert Writable(env.gate, route).Ok?;
    assert CanonicalRoute(route).Some?;
    assert MayWrite(env, route, path);
  }

  lemma AccountedStep(env: Env, s: RunState, step: Step)
    requires PathsDistinct(s.written) && Accounted(env, s)
    ensures Accounted(env, Apply(env, s, step))
  {
    var after := Apply(env, s, step);
    StepAppends(env, s, step);
    forall c | c in after.written && c.after.Some?
      ensures WriteRecorded(env, after.entries, c.path, c.after.value)
    {
      if exists was <- s.written :: was.path == c.path && was.after == c.after {
        RecordedStays(env, s.entries, Added(env, s, step), c.path, c.after.value);
      } else {
        ChangedByWrite(env, s, step, c);
        WriteIsRecorded(env, s, step.route, step.path, step.markdown, step.now);
        assert Added(env, s, step)[0] in after.entries;
      }
    }
  }

  /** Only an accepted write puts a new text into the working copy. */
  lemma ChangedByWrite(env: Env, s: RunState, step: Step, c: FileChange)
    requires c in Apply(env, s, step).written && c.after.Some?
    requires !exists was <- s.written :: was.path == c.path && was.after == c.after
    ensures step.WritePage? && c.path == step.path && c.after == Some(step.markdown)
    ensures WriteDecision(env, s, step.route, step.path, step.markdown, step.now).Ok?
  {
    assert c !in s.written;
  }

  /** Every text in the working copy was written by an accepted call for the very route it is served under. */
  lemma EveryTextIsAccountedFor(env: Env, steps: seq<Step>)
    ensures Accounted(env, Execute(env, Start(), steps))
  {
    forall t: RunState, step: Step | PathsDistinct(t.written) && Accounted(env, t)
      ensures PathsDistinct(StepOf(env)(t, step).written) && Accounted(env, StepOf(env)(t, step))
    {
      PathsStep(env, t, step);
      AccountedStep(env, t, step);
    }
    FoldKeeps(Start(), steps, StepOf(env), (t: RunState) => PathsDistinct(t.written) && Accounted(env, t));
  }
}

/** Safety over whole runs: what a run that published, or validated, has to have been. */
module RunSafety {
  import opened Common
  import opened Scope
  import opened Trust
  import opened Policies
  import opened Changes
  import opened Gates
  import opened Record
  import opened Dispatch
  import opened Traces
  import opened Runs
  import opened RunInvariants

  // ---- Nothing merges itself unless everything was in order ----

  lemma {:induction false} FullWalk(phases: seq<Phase>)
    requires phases <= PHASES && phases != [] && phases[|phases| - 1] == Publish
    ensures phases == PHASES
  {
    assert |phases| <= 5;
    assert phases[|phases| - 1] == PHASES[|phases| - 1];
  }

  ghost predicate Earned(env: Env, s: RunState, signals: Signals, allowBulkDelete: bool) {
    var inputs := GateInputs(env, s.written, allowBulkDelete);
    && CurrentPhase(s.entries) == Some(Publish) && PhasesOf(s.entries) == PHASES
    && (env.gate.restrictions.trust.Operator? || env.gate.restrictions.trust.Member?)
    && !HasUntrustedResult(s.entries)
    && !OverCaps(inputs) && !AnyRefused(inputs, s.written)
    && PolicyMet(env, signals)
  }

  /**
   * Over every sequence of steps: a run whose output reaches the deploy branch unread is in `publish`, went
   * through the five phases in order, is the operator's or a member's, never recorded a third party's bytes,
   * met every signal, and the gate over what it finally wrote refused nothing.
   */
  lemma UnreadOutputIsEarned(env: Env, steps: seq<Step>, signals: Signals, allowBulkDelete: bool)
    requires var s := Execute(env, Start(), steps);
             var d := PublishDecision(env, s, signals, allowBulkDelete);
             d.Ok? && d.value.outcome != Review
    ensures Earned(env, Execute(env, Start(), steps), signals, allowBulkDelete)
  {
    var s := Execute(env, Start(), steps);
    PhasesStayInOrder(env, steps);
    FlagStaysTruthful(env, steps);
    UnreadState(env, s, signals, allowBulkDelete);
  }

  /** The signals a policy needs to do more than propose. */
  ghost predicate PolicyMet(env: Env, signals: Signals) {
    && signals.validatePassed && signals.verifyPassed && signals.ciPassed && signals.withinLimits
    && (env.policy == AutomergeIfVerified
        || (env.policy == Direct && signals.adminEnabledDirect && signals.branchProtectionPermits))
  }

  /** When a run publishes at all, and exactly when what it publishes goes out unread. */
  lemma DecisionMeans(env: Env, s: RunState, report: Report, signals: Signals)
    ensures DecisionOn(env, s, report, signals).Ok? <==> CurrentPhase(s.entries) == Some(Publish) && !report.Rejected()
    ensures var d := DecisionOn(env, s, report, signals);
            d.Ok? ==>
              if !s.sawExternal && !env.gate.restrictions.IsUntrustedTrigger() && PolicyMet(env, signals)
              then d.value == Decision(if env.policy == Direct then DirectPush else Automerge, env.policy, false)
              else d.value == Decision(Review, env.policy, s.sawExternal || env.policy != Proposal)
  {
  }

  /** The same of one state, from what every reachable state keeps. */
  lemma UnreadState(env: Env, s: RunState, signals: Signals, allowBulkDelete: bool)
    requires InOrder(s.entries) && FlagTruthful(s)
    requires PublishDecision(env, s, signals, allowBulkDelete).Ok?
    requires PublishDecision(env, s, signals, allowBulkDelete).value.outcome != Review
    ensures Earned(env, s, signals, allowBulkDelete)
  {
    var inputs := GateInputs(env, s.written, allowBulkDelete);
    DecisionMeans(env, s, ReportOn(inputs), signals);
    CurrentIsLast(s.entries);
    FullWalk(PhasesOf(s.entries));
    GateRejectsIff(inputs);
  }

  /** The converse: nothing else stands between a run and the outcome its policy asked for. */
  lemma EarnedOutputIsUnread(env: Env, steps: seq<Step>, signals: Signals, allowBulkDelete: bool)
    requires Earned(env, Execute(env, Start(), steps), signals, allowBulkDelete)
    ensures PublishDecision(env, Execute(env, Start(), steps), signals, allowBulkDelete)
            == Ok(Decision(if env.policy == Direct then DirectPush else Automerge, env.policy, false))
  {
    FlagStaysTruthful(env, steps);
    EarnedState(env, Execute(env, Start(), steps), signals, allowBulkDelete);
  }

  lemma EarnedState(env: Env, s: RunState, signals: Signals, allowBulkDelete: bool)
    requires FlagTruthful(s) && Earned(env, s, signals, allowBulkDelete)
    ensures PublishDecision(env, s, signals, allowBulkDelete)
            == Ok(Decision(if env.policy == Direct then DirectPush else Automerge, env.policy, false))
  {
    var inputs := GateInputs(env, s.written, allowBulkDelete);
    DecisionMeans(env, s, ReportOn(inputs), signals);
    GateRejectsIff(inputs);
  }

  // ---- A stranger's run reaches only the pages its trigger named ----

  ghost predicate NamedPage(layout: Layout, pages: set<string>, path: string) {
    var t := Classify(layout, path);
    t.Page? && CanonicalRoute(t.route).Some? && CanonicalRoute(t.route).value in pages
  }

  /**
   * A path is a named page exactly when it is not reserved and is served under a route the trigger named: naming
   * `/re` names `reindex.md` as it names `re.md`, and `re/index.md` too unless `re` holds facts.
   */
  lemma NamedPagesAreServed(layout: Layout, pages: set<string>, path: string)
    ensures NamedPage(layout, pages, path)
            <==> CanonicalPath(path).Some? && !IsReserved(layout, CanonicalPath(path).value)
                 && exists t :: Serves(layout, CanonicalPath(path).value, t)
                      && CanonicalRoute("/" + t).Some? && CanonicalRoute("/" + t).value in pages
  {
    if NamedPage(layout, pages, path) {
      var route := Classify(layout, path).route;
      PageIsRouted(layout, path, route);
      assert route == "/" + route[1..];
      RouteOfIff(layout, CanonicalPath(path).value, route[1..]);
    }
    if t :| CanonicalPath(path).Some? && !IsReserved(layout, CanonicalPath(path).value)
            && Serves(layout, CanonicalPath(path).value, t)
            && CanonicalRoute("/" + t).Some? && CanonicalRoute("/" + t).value in pages {
      PageIsRouted(layout, path, "/" + t);
      RouteOfIff(layout, CanonicalPath(path).value, t);
    }
  }

  /** Any diff the gate passes for an untrusted run, whatever wrote it. */
  lemma UntrustedGatePassesOnlyNamedPages(g: Inputs, inputs: seq<TrustLevel>, trigger: Trigger)
    requires trigger.trust.IsUntrusted() || exists t <- inputs :: t.IsUntrusted()
    requires g.restrictions == ForInputs(inputs, trigger) && !ReportOn(g).Rejected()
    ensures forall f <- g.files :: NamedPage(g.layout, trigger.pages, f.path)
    ensures forall f <- g.files :: f.kind.Renamed? ==> NamedPage(g.layout, trigger.pages, f.kind.from)
    ensures trigger.pages == {} ==> g.files == []
  {
    GateRejectsIff(g);
    forall f | f in g.files
      ensures NamedPage(g.layout, trigger.pages, f.path)
      ensures f.kind.Renamed? ==> NamedPage(g.layout, trigger.pages, f.kind.from)
    {
      assert !FileRefused(g, f);
      UntrustedFile(g, f, inputs, trigger);
    }
    assert g.files != [] ==> g.files[0] in g.files;
  }

  lemma UntrustedFile(g: Inputs, f: FileChange, inputs: seq<TrustLevel>, trigger: Trigger)
    requires trigger.trust.IsUntrusted() || exists t <- inputs :: t.IsUntrusted()
    requires g.restrictions == ForInputs(inputs, trigger) && !FileRefused(g, f)
    ensures NamedPage(g.layout, trigger.pages, f.path)
    ensures f.kind.Renamed? ==> NamedPage(g.layout, trigger.pages, f.kind.from)
  {
    forall t | IsTarget(g, f, t)
      ensures t.Page? && CanonicalRoute(t.route).Some? && CanonicalRoute(t.route).value in trigger.pages
    {
      UntrustedPermitsIff(inputs, trigger, t);
    }
    var t := Classify(g.layout, f.path);
    if t.Config? {
      var areas := g.scanners.configAreas(f.before, f.after);
      var reached := if areas.None? then Config(Unspecified) else if areas.value == [] then t else Config(areas.value[0]);
      assert areas.Some? && areas.value != [] ==> areas.value[0] in areas.value;
      assert IsTarget(g, f, reached);
    }
    assert IsTarget(g, f, t);
    if f.kind.Renamed? {
      assert IsTarget(g, f, Classify(g.layout, f.kind.from));
    }
  }

  /**
   * Over every sequence of steps of an untrusted run, deletions unchecked as they are: if it publishes, it
   * ends in review, and every file it changed is a page its trigger named.
   */
  lemma UntrustedRunStaysInScope(env: Env, steps: seq<Step>, inputs: seq<TrustLevel>, trigger: Trigger,
                                 signals: Signals, allowBulkDelete: bool)
    requires trigger.trust.IsUntrusted() || exists t <- inputs :: t.IsUntrusted()
    requires env.gate.restrictions == ForInputs(inputs, trigger)
    requires PublishDecision(env, Execute(env, Start(), steps), signals, allowBulkDelete).Ok?
    ensures PublishDecision(env, Execute(env, Start(), steps), signals, allowBulkDelete).value.outcome == Review
    ensures forall f <- Execute(env, Start(), steps).written :: NamedPage(env.layout, trigger.pages, f.path)
    ensures trigger.pages == {} ==> Execute(env, Start(), steps).written == []
  {
    UntrustedState(env, Execute(env, Start(), steps), inputs, trigger, signals, allowBulkDelete);
  }

  lemma UntrustedState(env: Env, s: RunState, inputs: seq<TrustLevel>, trigger: Trigger, signals: Signals, allowBulkDelete: bool)
    requires trigger.trust.IsUntrusted() || exists t <- inputs :: t.IsUntrusted()
    requires env.gate.restrictions == ForInputs(inputs, trigger)
    requires PublishDecision(env, s, signals, allowBulkDelete).Ok?
    ensures PublishDecision(env, s, signals, allowBulkDelete).value.outcome == Review
    ensures forall f <- s.written :: NamedPage(env.layout, trigger.pages, f.path)
    ensures trigger.pages == {} ==> s.written == []
  {
    var g := GateInputs(env, s.written, allowBulkDelete);
    DecisionMeans(env, s, ReportOn(g), signals);
    UntrustedIffSomeInput(inputs, trigger);
    UntrustedGatePassesOnlyNamedPages(g, inputs, trigger);
  }

  // ---- What validation is worth ----

  /** No text in the working copy breaks a rule. */
  ghost predicate Clean(env: Env, written: seq<FileChange>) {
    forall c <- written | c.after.Some? :: env.violations(c.after.value) == 0
  }

  lemma {:induction false} PassingMeansClean(env: Env, written: seq<FileChange>)
    ensures StyleViolations(env, written) == 0 <==> Clean(env, written)
  {
    if written != [] {
      var init, last := written[..|written| - 1], written[|written| - 1];
      assert written == init + [last];
      PassingMeansClean(env, init);
    }
  }

  /** Past writing: the phases in which the working copy can only lose text. */
  predicate PastWriting(phase: Option<Phase>) {
    phase == Some(Validate) || phase == Some(Publish)
  }

  lemma CleanStep(env: Env, s: RunState, step: Step)
    requires PastWriting(CurrentPhase(s.entries)) && Clean(env, s.written)
    ensures PastWriting(CurrentPhase(Apply(env, s, step).entries)) && Clean(env, Apply(env, s, step).written)
  {
    PhaseStep(env, s, step);
  }

  /** A validation that passed in `validate` or later vouches for everything the run will ever hold. */
  lemma ValidatedStaysClean(env: Env, s: RunState, diagnostics: nat, later: seq<Step>)
    requires PastWriting(CurrentPhase(s.entries)) && ValidationPasses(env, s, diagnostics)
    ensures Clean(env, Execute(env, s, later).written)
  {
    PassingMeansClean(env, s.written);
    forall t: RunState, step: Step | PastWriting(CurrentPhase(t.entries)) && Clean(env, t.written)
      ensures PastWriting(CurrentPhase(StepOf(env)(t, step).entries)) && Clean(env, StepOf(env)(t, step).written)
    {
      CleanStep(env, t, step);
    }
    FoldKeeps(s, later, StepOf(env), (t: RunState) => PastWriting(CurrentPhase(t.entries)) && Clean(env, t.written));
  }

  // A validation that passed earlier vouches for nothing: its token still publishes.

  /** A rule that forbids one word, line by line. */
  function LinesSayingX(text: string): nat {
    SumBy(LinesOf(text), SaysX)
  }

  function SaysX(line: string): nat {
    if line == "x" then 1 else 0
  }

  lemma XBreaksTheRule()
    ensures LinesSayingX("x") == 1
  {
    assert "x"[1..] == "" && "" + ['x'] == "x";
    assert LinesFrom("x", "") == LinesFrom("", "x") == ["x"];
    assert ["x"][1..] == [] && SumBy([], SaysX) == 0;
  }

  /** An operator's run under that rule, with no scanner that finds anything and caps as high as they go. */
  ghost function StrictEnv(): Env {
    Env(
      Gate(Restrictions(Operator, Anywhere), 1, 1, [], {}, (tool, input) => true, url => url),
      Limits(U32_RANGE - 1, U32_RANGE - 1, U32_RANGE - 1),
      Layout("liyasa.json", "AGENTS.md", {}, ""),
      {},
      Scanners((before, after) => Some([]), (before, after) => Some(false), text => [], text => [], text => []),
      LinesSayingX,
      text => text,
      Policies.Proposal,
      1)
  }

  const WALK: seq<Step> :=
    [Enter(Research), Enter(Plan), Enter(Write), WritePage("/a", "a.md", "x", None, 0), Enter(Validate), Enter(Publish)]

  lemma RouteA()
    ensures CanonicalRoute("/a") == Some("/a")
  {
    Text.SplitAppend("", '/', "a", {'/'});
    Text.SplitFree("a", {'/'});
    assert "/a" == "" + ['/'] + "a" && "/a" == "/" + "a";
    assert Text.Split("/a", {'/'}) == ["", "a"];
    assert Named(["", "a"]) == ["a"];
    assert Text.Join(["a"], "/") == "a";
    assert RouteShaped("/a");
  }

  lemma CanonicalA()
    ensures CanonicalPath("a.md") == Some("a.md")
  {
    Text.SplitFree("a.md", {'/', '\\'});
    assert Named(["a.md"]) == ["a.md"];
    assert Text.Join(["a.md"], "/") == "a.md";
  }

  lemma RouteOfA(layout: Layout)
    requires layout.contentRoot == ""
    ensures RouteOf(layout, "a.md") == Some("/a")
  {
    MdHasStem(layout, "a");
    assert "" + ("a" + ".md") == "a.md" && "/" + "a" == "/a";
    RouteOfIff(layout, "a.md", "a");
  }

  lemma PathA(layout: Layout)
    requires layout == StrictEnv().layout
    ensures RouteOf(layout, "a.md") == Some("/a") && Classify(layout, "a.md") == Page("/a")
  {
    CanonicalA();
    RouteOfA(layout);
    assert "a.md" != layout.configFile && "a.md" != layout.agentsFile;
    assert |"/" + layout.agentsFile| > |"a.md"|;
  }

  lemma WalkStates(k: nat)
    requires k <= 3
    ensures var s := Execute(StrictEnv(), Start(), WALK[..k]);
            s.written == [] && !s.sawExternal && |s.entries| == k + 1 && CallTotal(s.entries) == 0 && TokensSpent(s.entries) == 0
            && CurrentPhase(s.entries) == [None, Some(Research), Some(Plan), Some(Write)][k]
  {
    var env := StrictEnv();
    if k == 0 {
      assert WALK[..0] == [];
      Appended([], Note(0));
      assert Start().entries == [] + [Note(0)];
    } else {
      WalkStates(k - 1);
      var s := Execute(env, Start(), WALK[..k - 1]);
      assert WALK[..k] == WALK[..k - 1] + [WALK[k - 1]];
      FoldAppend(Start(), WALK[..k - 1], [WALK[k - 1]], StepOf(env));
      PhaseStep(env, s, WALK[k - 1]);
      Appended(s.entries, PhaseEntry(NextNumber(s.entries), WALK[k - 1].phase));
    }
  }

  lemma WalkMayWrite(env: Env, s: RunState)
    requires env == StrictEnv() && CallTotal(s.entries) == 0 && TokensSpent(s.entries) == 0
    requires CurrentPhase(s.entries) == Some(Write)
    ensures WriteDecision(env, s, "/a", "a.md", "x", 0).Ok?
  {
    RouteA();
    PathA(env.layout);
    CanonicalRouteIdempotent("/a");
    WriteInputRoute("/a", "x");
    AskedForA(env, s, WriteInput("/a", "x"));
  }

  lemma AskedForA(env: Env, s: RunState, input: Secrets.Json)
    requires env == StrictEnv() && CallTotal(s.entries) == 0 && TokensSpent(s.entries) == 0
    requires StringAt(input, "route") == "/a" && CanonicalRoute("/a") == Some("/a")
    ensures CallDecision(env, s, WRITE_PAGE, input, 0).Ok?
  {
    assert Writable(env.gate, "/a").Ok?;
    assert PerTool(env.gate, WRITE_PAGE, input).Ok?;
  }

  /** The written state: one page, one broken rule, and a gate with nothing against it. */
  lemma WalkWrites()
    ensures var s := Execute(StrictEnv(), Start(), WALK[..4]);
            && s.written == [FileChange("a.md", Added, None, Some("x"))] && !s.sawExternal
            && CurrentPhase(s.entries) == Some(Write)
  {
    var env := StrictEnv();
    WalkStates(3);
    var s := Execute(env, Start(), WALK[..3]);
    assert WALK[..4] == WALK[..3] + [WALK[3]];
    FoldAppend(Start(), WALK[..3], [WALK[3]], StepOf(env));
    WalkMayWrite(env, s);
    PhaseStep(env, s, WALK[3]);
  }

  /**
   * The token a passing validation returns is bound to no phase and to no state. Validate before anything
   * is written, at any of the four points up to and in the write phase, then write a text that breaks a
   * rule: the token still publishes it.
   */
  lemma StaleValidationPublishes(k: nat)
    requires k <= 3
    ensures var env, s := StrictEnv(), Execute(StrictEnv(), Start(), WALK[..k]);
            var final := Execute(env, s, WALK[k..]);
            && CurrentPhase(s.entries) == [None, Some(Research), Some(Plan), Some(Write)][k]
            && ValidationPasses(env, s, 0)
            && !Clean(env, final.written)
            && forall signals :: PublishDecision(env, final, signals, false).Ok?
  {
    WalkStates(k);
    WalkJoins(StrictEnv(), k);
    WalkEnds();
    NothingWrittenPasses(StrictEnv(), Execute(StrictEnv(), Start(), WALK[..k]));
    BrokenPagePublishes(Execute(StrictEnv(), Start(), WALK));
  }

  lemma WalkJoins(env: Env, k: nat)
    requires k <= |WALK|
    ensures Execute(env, Execute(env, Start(), WALK[..k]), WALK[k..]) == Execute(env, Start(), WALK)
  {
    assert WALK == WALK[..k] + WALK[k..];
    FoldAppend(Start(), WALK[..k], WALK[k..], StepOf(env));
  }

  lemma NothingWrittenPasses(env: Env, s: RunState)
    requires s.written == []
    ensures ValidationPasses(env, s, 0)
  {
  }

  lemma WalkEnds()
    ensures var s := Execute(StrictEnv(), Start(), WALK);
            && s.written == [FileChange("a.md", Added, None, Some("x"))] && !s.sawExternal
            && CurrentPhase(s.entries) == Some(Publish)
  {
    var env := StrictEnv();
    WalkWrites();
    var s4 := Execute(env, Start(), WALK[..4]);
    assert WALK == WALK[..4] + [Enter(Validate), Enter(Publish)];
    FoldAppend(Start(), WALK[..4], [Enter(Validate), Enter(Publish)], StepOf(env));
    LastTwoPhases(env, s4);
  }

  lemma EnteringMoves(env: Env, s: RunState, phase: Phase)
    requires MayEnter(s, phase)
    ensures var after := Apply(env, s, Enter(phase));
            after.written == s.written && after.sawExternal == s.sawExternal && CurrentPhase(after.entries) == Some(phase)
  {
    PhaseStep(env, s, Enter(phase));
  }

  lemma LastTwoPhases(env: Env, s: RunState)
    requires CurrentPhase(s.entries) == Some(Write)
    ensures var after := Execute(env, s, [Enter(Validate), Enter(Publish)]);
            after.written == s.written && after.sawExternal == s.sawExternal && CurrentPhase(after.entries) == Some(Publish)
  {
    var entered := Apply(env, s, Enter(Validate));
    EnteringMoves(env, s, Validate);
    EnteringMoves(env, entered, Publish);
    FoldTwo(s, Enter(Validate), Enter(Publish), StepOf(env));
  }

  lemma BrokenPagePublishes(s: RunState)
    requires s.written == [FileChange("a.md", Added, None, Some("x"))] && !s.sawExternal
    requires CurrentPhase(s.entries) == Some(Publish)
    ensures !Clean(StrictEnv(), s.written)
    ensures forall signals :: PublishDecision(StrictEnv(), s, signals, false).Ok?
  {
    assert s.written[0] in s.written;
    XBreaksTheRule();
    CleanPageGated(s.written);
  }

  lemma CapsOutOfReach(g: Inputs)
    requires g.limits == Limits(U32_RANGE - 1, U32_RANGE - 1, U32_RANGE - 1)
    ensures !OverCaps(g)
  {
    SaturatingSumIsCapped(g.files, LineTotal);
  }

  lemma QuietPageAccepted(g: Inputs, f: FileChange)
    requires Classify(g.layout, f.path) == Page("/a") && !f.kind.Renamed?
    requires g.restrictions == Restrictions(Operator, Anywhere) && g.scanners == StrictEnv().scanners
    ensures !FileRefused(g, f)
  {
    RouteA();
    forall t | IsTarget(g, f, t)
      ensures g.restrictions.Permits(t).Ok?
    {
      assert t == Page("/a");
    }
  }

  /** Nothing refused file by file, and caps out of reach: the gate passes the diff. */
  lemma QuietDiffPasses(g: Inputs)
    requires g.limits == Limits(U32_RANGE - 1, U32_RANGE - 1, U32_RANGE - 1)
    requires g.restrictions == Restrictions(Operator, Anywhere) && g.scanners == StrictEnv().scanners
    requires forall f <- g.files :: Classify(g.layout, f.path) == Page("/a") && !f.kind.Renamed?
    ensures !ReportOn(g).Rejected()
  {
    GateRejectsIff(g);
    CapsOutOfReach(g);
    forall f | f in g.files
      ensures !FileRefused(g, f)
    {
      QuietPageAccepted(g, f);
    }
  }

  lemma CleanPageGated(written: seq<FileChange>)
    requires written == [FileChange("a.md", Added, None, Some("x"))]
    ensures !ReportOn(GateInputs(StrictEnv(), written, false)).Rejected()
  {
    var inputs := GateInputs(StrictEnv(), written, false);
    PathA(inputs.layout);
    QuietDiffPasses(inputs);
  }

  /** So a passing validation vouches for a run's later states exactly from the validate phase on. */
  lemma ValidationVouchesIff(phase: Option<Phase>)
    ensures PastWriting(phase) <==>
            forall env, s, diagnostics, later ::
              Reached(env, s) && CurrentPhase(s.entries) == phase && ValidationPasses(env, s, diagnostics)
              ==> Clean(env, Execute(env, s, later).written)
  {
    if PastWriting(phase) {
      forall env, s, diagnostics, later |
        Reached(env, s) && CurrentPhase(s.entries) == phase && ValidationPasses(env, s, diagnostics)
        ensures Clean(env, Execute(env, s, later).written)
      {
        ValidatedStaysClean(env, s, diagnostics, later);
      }
    } else {
      var s, later := StaleState(phase);
      assert Reached(StrictEnv(), s) && CurrentPhase(s.entries) == phase && ValidationPasses(StrictEnv(), s, 0);
      assert !Clean(StrictEnv(), Execute(StrictEnv(), s, later).written);
    }
  }

  lemma StaleState(phase: Option<Phase>) returns (s: RunState, later: seq<Step>)
    requires !PastWriting(phase)
    ensures Reached(StrictEnv(), s) && CurrentPhase(s.entries) == phase && ValidationPasses(StrictEnv(), s, 0)
    ensures !Clean(StrictEnv(), Execute(StrictEnv(), s, later).written)
  {
    var k: nat := if phase.None? then 0 else if phase.value == Research then 1 else if phase.value == Plan then 2 else 3;
    StaleValidationPublishes(k);
    s, later := Execute(StrictEnv(), Start(), WALK[..k]), WALK[k..];
  }

  ghost predicate Reached(env: Env, s: RunState) {
    exists steps :: s == Execute(env, Start(), steps)
  }
}
