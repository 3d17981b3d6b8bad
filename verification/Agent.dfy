/** A turn of the model: the calls it asks for, and the steps they come to. */
module Turns {
  import opened Common
  import opened Secrets
  import opened Record
  import opened Dispatch
  import opened Traces
  import opened Runs
  import opened RunInvariants

  datatype ModelCall = ModelCall(tool: string, input: Json)

  datatype Turn = Turn(calls: seq<ModelCall>, usage: Option<Usage>)

  /** The content tree: a page's path and text, and where a page lives or would. */
  datatype Tree = Tree(read: string -> Option<(string, string)>, pathFor: string -> string)

  /** The write a `write_page` call asks for: its own route and text, at the path and over the text the tree has. */
  function WriteFor(tree: Tree, call: ModelCall, now: nat): (step: Step)
    ensures step.WritePage?
  {
    var route, markdown := StringAt(call.input, "route"), StringAt(call.input, "markdown");
    match tree.read(route)
    case Some((path, text)) => WritePage(route, path, markdown, Some(text), now)
    case None => WritePage(route, tree.pathFor(route), markdown, None, now)
  }

  /** The route and the text it asks for are the ones a recorded write names. */
  lemma WriteIsAsRecorded(tree: Tree, route: string, markdown: string, now: nat)
    ensures var step := WriteFor(tree, ModelCall(WRITE_PAGE, WriteInput(route, markdown)), now);
            && step.route == route && step.markdown == markdown && step.now == now
            && match tree.read(route)
               case Some((path, text)) => step.path == path && step.before == Some(text)
               case None => step.path == tree.pathFor(route) && step.before == None
  {
    var fields := WriteInput(route, markdown).fields;
    StringAtMeans(WriteInput(route, markdown), "route");
    StringAtMeans(WriteInput(route, markdown), "markdown");
    assert |"markdown"| == 8 && |"route"| == 5;
    assert ValueAt(fields[1..], "route") == Some(Str(route));
  }

  function Answer(env: Env, s: RunState, step: Step): Result<(), NotWritten>
    requires step.WritePage?
  {
    WriteDecision(env, s, step.route, step.path, step.markdown, step.now)
  }

  /** What one call comes to: a write, and a note when it is not made; or a request to use another tool. */
  function CallSteps(env: Env, s: RunState, tree: Tree, call: ModelCall, now: nat): seq<Step> {
    if call.tool != WRITE_PAGE then [AuthoriseCall(call.tool, call.input, now)]
    else
      var step := WriteFor(tree, call, now);
      if Answer(env, s, step).Ok? then [step] else [step, AddNote]
  }

  /** The state and the steps after several calls, the `i`th at the clock's reading `i + 1`. */
  function AfterCalls(env: Env, s: RunState, tree: Tree, calls: seq<ModelCall>, clock: nat -> nat): RunState {
    if calls == [] then s
    else
      var before := AfterCalls(env, s, tree, calls[..|calls| - 1], clock);
      Execute(env, before, CallSteps(env, before, tree, calls[|calls| - 1], clock(|calls|)))
  }

  function CallsSteps(env: Env, s: RunState, tree: Tree, calls: seq<ModelCall>, clock: nat -> nat): seq<Step> {
    if calls == [] then []
    else
      var init := calls[..|calls| - 1];
      CallsSteps(env, s, tree, init, clock)
      + CallSteps(env, AfterCalls(env, s, tree, init, clock), tree, calls[|calls| - 1], clock(|calls|))
  }

  lemma {:induction false} CallsLead(env: Env, s: RunState, tree: Tree, calls: seq<ModelCall>, clock: nat -> nat)
    ensures Execute(env, s, CallsSteps(env, s, tree, calls, clock)) == AfterCalls(env, s, tree, calls, clock)
  {
    if calls != [] {
      var init := calls[..|calls| - 1];
      CallsLead(env, s, tree, init, clock);
      FoldAppend(s, CallsSteps(env, s, tree, init, clock),
                 CallSteps(env, AfterCalls(env, s, tree, init, clock), tree, calls[|calls| - 1], clock(|calls|)), StepOf(env));
    }
  }

  /** A turn: nothing but a note past the deadline, otherwise the exchange and then every call in turn. */
  function TurnSteps(env: Env, s: RunState, tree: Tree, turn: Turn, clock: nat -> nat): seq<Step> {
    if clock(0) >= env.deadline then [AddNote]
    else
      [RecordExchange(turn.usage)]
      + CallsSteps(env, Apply(env, s, RecordExchange(turn.usage)), tree, turn.calls, clock)
  }

  lemma TurnLeads(env: Env, s: RunState, tree: Tree, turn: Turn, clock: nat -> nat)
    requires clock(0) < env.deadline
    ensures Execute(env, s, TurnSteps(env, s, tree, turn, clock))
            == AfterCalls(env, Apply(env, s, RecordExchange(turn.usage)), tree, turn.calls, clock)
  {
    var first := RecordExchange(turn.usage);
    FoldOne(s, first, StepOf(env));
    FoldAppend(s, [first], CallsSteps(env, Apply(env, s, first), tree, turn.calls, clock), StepOf(env));
    CallsLead(env, Apply(env, s, first), tree, turn.calls, clock);
  }

  // ---- Every call that reaches the gate is recorded ----

  datatype Request = Request(tool: string, input: Json)

  /** What a call asks of the gate, unless a write is turned away before it gets there. */
  function Asked(env: Env, s: RunState, tree: Tree, call: ModelCall, now: nat): seq<Request> {
    if call.tool != WRITE_PAGE then [Request(call.tool, call.input)]
    else
      var step := WriteFor(tree, call, now);
      var answer := Answer(env, s, step);
      if answer == Err(WrongPhase) || answer == Err(PathDisagrees) then []
      else [Request(WRITE_PAGE, WriteInput(step.route, step.markdown))]
  }

  function AllAsked(env: Env, s: RunState, tree: Tree, calls: seq<ModelCall>, clock: nat -> nat): seq<Request> {
    if calls == [] then []
    else
      var init := calls[..|calls| - 1];
      AllAsked(env, s, tree, init, clock)
      + Asked(env, AfterCalls(env, s, tree, init, clock), tree, calls[|calls| - 1], clock(|calls|))
  }

  function Scrubbed(requests: seq<Request>, f: string -> string): seq<Request> {
    seq(|requests|, i requires 0 <= i < |requests| => Request(requests[i].tool, RedactValue(requests[i].input, f)))
  }

  /** The calls a record holds, in order. */
  function Recorded(entries: seq<Entry>): seq<Request> {
    if entries == [] then []
    else
      var last := entries[|entries| - 1];
      Recorded(entries[..|entries| - 1]) + if last.ToolCall? then [Request(last.name, last.input)] else []
  }

  lemma RecordedPush(entries: seq<Entry>, e: Entry)
    ensures Recorded(entries + [e]) == Recorded(entries) + if e.ToolCall? then [Request(e.name, e.input)] else []
  {
    assert (entries + [e])[..|entries|] == entries;
  }

  lemma CallIsRecorded(env: Env, s: RunState, tree: Tree, call: ModelCall, now: nat)
    ensures Recorded(Execute(env, s, CallSteps(env, s, tree, call, now)).entries)
            == Recorded(s.entries) + Scrubbed(Asked(env, s, tree, call, now), env.redact)
  {
    if call.tool != WRITE_PAGE {
      FoldOne(s, AuthoriseCall(call.tool, call.input, now), StepOf(env));
      RecordedPush(s.entries, CallEntry(env, s, call.tool, call.input, now));
    } else {
      var step := WriteFor(tree, call, now);
      WriteIsRecordedOnce(env, s, step);
      NoteIsNoCall(env, s, step);
    }
  }

  lemma NoteIsNoCall(env: Env, s: RunState, step: Step)
    ensures Execute(env, s, [step]) == Apply(env, s, step)
    ensures Recorded(Execute(env, s, [step, AddNote]).entries) == Recorded(Apply(env, s, step).entries)
  {
    FoldOne(s, step, StepOf(env));
    FoldTwo(s, step, AddNote, StepOf(env));
    NoteKeepsCalls(env, Apply(env, s, step));
  }

  lemma NoteKeepsCalls(env: Env, s: RunState)
    ensures Recorded(Apply(env, s, AddNote).entries) == Recorded(s.entries)
  {
    RecordedPush(s.entries, Note(NextNumber(s.entries)));
  }

  lemma WriteIsRecordedOnce(env: Env, s: RunState, step: Step)
    requires step.WritePage?
    ensures var answer := Answer(env, s, step);
            Recorded(Apply(env, s, step).entries)
            == Recorded(s.entries) +
               if answer == Err(WrongPhase) || answer == Err(PathDisagrees) then []
               else [Request(WRITE_PAGE, RedactValue(WriteInput(step.route, step.markdown), env.redact))]
  {
    RecordedPush(s.entries, CallEntry(env, s, WRITE_PAGE, WriteInput(step.route, step.markdown), step.now));
  }

  lemma ScrubbedAppend(a: seq<Request>, b: seq<Request>, f: string -> string)
    ensures Scrubbed(a + b, f) == Scrubbed(a, f) + Scrubbed(b, f)
  {
  }

  lemma {:induction false} CallsAreRecorded(env: Env, s: RunState, tree: Tree, calls: seq<ModelCall>, clock: nat -> nat)
    ensures Recorded(AfterCalls(env, s, tree, calls, clock).entries)
            == Recorded(s.entries) + Scrubbed(AllAsked(env, s, tree, calls, clock), env.redact)
  {
    if calls != [] {
      var init, last := calls[..|calls| - 1], calls[|calls| - 1];
      var before := AfterCalls(env, s, tree, init, clock);
      CallsAreRecorded(env, s, tree, init, clock);
      CallIsRecorded(env, before, tree, last, clock(|calls|));
      ScrubbedAppend(AllAsked(env, s, tree, init, clock), Asked(env, before, tree, last, clock(|calls|)), env.redact);
    }
  }

  lemma ExchangeIsNoCall(env: Env, s: RunState, usage: Option<Usage>)
    ensures Recorded(Apply(env, s, RecordExchange(usage)).entries) == Recorded(s.entries)
  {
    RecordedPush(s.entries, ModelExchange(NextNumber(s.entries), usage));
  }

  /** A turn that comes in time opens with its exchange; one that comes too late is a note and nothing else. */
  lemma TurnOpens(env: Env, s: RunState, tree: Tree, turn: Turn, clock: nat -> nat)
    ensures var after := Execute(env, s, TurnSteps(env, s, tree, turn, clock));
            if clock(0) >= env.deadline then after == s.(entries := s.entries + [Note(AsU32(|s.entries|))])
            else s.entries + [ModelExchange(AsU32(|s.entries|), turn.usage)] <= after.entries
  {
    if clock(0) >= env.deadline {
      FoldOne(s, AddNote, StepOf(env));
    } else {
      var first := RecordExchange(turn.usage);
      var rest := CallsSteps(env, Apply(env, s, first), tree, turn.calls, clock);
      FoldOne(s, first, StepOf(env));
      FoldAppend(s, [first], rest, StepOf(env));
      RecordIsAppendOnly(env, Apply(env, s, first), rest);
    }
  }

  /** After a turn the record holds, past what it held, exactly the calls that reached the gate, in order and scrubbed. */
  lemma TurnIsRecorded(env: Env, s: RunState, tree: Tree, turn: Turn, clock: nat -> nat)
    requires clock(0) < env.deadline
    ensures var started := Apply(env, s, RecordExchange(turn.usage));
            Recorded(Execute(env, s, TurnSteps(env, s, tree, turn, clock)).entries)
            == Recorded(s.entries) + Scrubbed(AllAsked(env, started, tree, turn.calls, clock), env.redact)
  {
    var started := Apply(env, s, RecordExchange(turn.usage));
    TurnLeads(env, s, tree, turn, clock);
    CallsAreRecorded(env, started, tree, turn.calls, clock);
    ExchangeIsNoCall(env, s, turn.usage);
  }
}

/** The run as its callers hold it: an object whose methods take the steps of `Runs`, one each. */
module Agent {
  import opened Common
  import opened Secrets
  import opened Trust
  import opened Policies
  import opened Scope
  import opened Changes
  import opened Gates
  import opened Proposals
  import opened Record
  import opened Dispatch
  import opened Traces
  import opened Runs
  import opened Turns

  /** Returned by a passing validation, asked for by `Publish`, and bound to neither. */
  datatype Validated = Validated

  class Run {
    const env: Env
    const branch: string
    var entries: seq<Entry>
    var written: seq<FileChange>
    var findings: seq<DataBlock>
    var sawExternal: bool

    constructor (env: Env, branch: string)
      ensures this.env == env && this.branch == branch && State() == Start()
    {
      this.env := env;
      this.branch := branch;
      entries := [Note(0)];
      written := [];
      findings := [];
      sawExternal := false;
    }

    function State(): RunState
      reads this
    {
      RunState(entries, written, findings, sawExternal)
    }

    method AppendNote()
      modifies this`entries
      ensures State() == Apply(env, old(State()), AddNote)
    {
      entries := entries + [Note(NextNumber(entries))];
    }

    /** Moves a run on by one phase, and by no more and no less than one. */
    method EnterPhase(phase: Phase) returns (entered: bool)
      modifies this`entries
      ensures State() == Apply(env, old(State()), Enter(phase))
      ensures entered == MayEnter(old(State()), phase)
    {
      match CurrentPhase(entries) {
        case None => entered := phase == Research;
        case Some(current) => entered := current.Next() == Some(phase);
      }
      if entered {
        entries := entries + [PhaseEntry(NextNumber(entries), phase)];
      }
    }

    /** Answers a request to use a tool; whatever the answer, the record has it. */
    method Authorise(tool: string, input: Json, now: nat) returns (r: Result<(), Rejection>)
      modifies this`entries
      ensures State() == Apply(env, old(State()), AuthoriseCall(tool, input, now))
      ensures r == CallDecision(env, old(State()), tool, input, now)
    {
      if now >= env.deadline {
        r := Err(Exhausted(WallTime));
      } else {
        r := Dispatch.Decide(env.gate, entries, tool, input);
      }
      var outcome := match r case Ok(_) => CallOutcome.Accepted case Err(reason) => Refused(reason);
      entries := entries + [ToolCall(NextNumber(entries), tool, RedactValue(input, env.redact), outcome)];
    }

    method Find(path: string) returns (k: nat)
      ensures k == IndexOf(written, path)
    {
      k := 0;
      while k < |written| && written[k].path != path
        invariant k <= |written|
        invariant IndexOf(written, path) == k + IndexOf(written[k..], path)
      {
        assert written[k..][1..] == written[k + 1..];
        k := k + 1;
      }
    }

    /** A write: asked for, answered, and made only if the answer was yes. */
    method Write(route: string, path: string, markdown: string, before: Option<string>, now: nat)
      returns (r: Result<(), NotWritten>)
      modifies this`entries, this`written
      ensures State() == Apply(env, old(State()), WritePage(route, path, markdown, before, now))
      ensures r == WriteDecision(env, old(State()), route, path, markdown, now)
    {
      ghost var start := State();
      if CurrentPhase(entries) != Some(Phase.Write) {
        WriteInWrongPhase(env, start, route, path, markdown, before, now);
        return Err(WrongPhase);
      }
      var normalised := NormaliseRoute(route);
      if RouteOf(env.layout, path) != normalised {
        WriteElsewhere(env, start, route, path, markdown, before, now);
        return Err(PathDisagrees);
      }
      var authorised := Authorise(WRITE_PAGE, WriteInput(route, markdown), now);
      WriteAsked(env, start, route, path, markdown, before, now);
      if authorised.Err? {
        return Err(RefusedWrite(authorised.error));
      }
      Put(path, markdown, before);
      r := Ok(());
    }

    /** Writing to a path again keeps one change for it, with the newer text. */
    method Put(path: string, markdown: string, before: Option<string>)
      modifies this`written
      ensures written == PutWrite(old(written), path, markdown, before)
    {
      var k := Find(path);
      if k < |written| {
        written := written[k := written[k].(after := Some(markdown))];
      } else {
        written := written + [FileChange(path, if before.Some? then Modified else Added, before, Some(markdown))];
      }
    }

    /** Records a deletion; neither phase nor scope is asked here. */
    method Delete(path: string, before: string)
      modifies this`written
      ensures State() == Apply(env, old(State()), DeleteFile(path, before))
    {
      var change := FileChange(path, Deleted, Some(before), None);
      var k := Find(path);
      if k < |written| {
        written := written[k := change];
      } else {
        written := written + [change];
      }
    }

    /** Counts broken rules over the whole working copy, in whatever phase it is called. */
    method RunValidate(diagnostics: nat) returns (token: Option<Validated>)
      modifies this`entries
      ensures State() == Apply(env, old(State()), RunValidation(diagnostics))
      ensures token.Some? <==> ValidationPasses(env, old(State()), diagnostics)
    {
      var style := 0;
      for i := 0 to |written|
        invariant style == StyleViolations(env, written[..i])
      {
        assert written[..i + 1][..i] == written[..i];
        match written[i].after
        case Some(text) => style := style + env.violations(text);
        case None =>
      }
      assert written[..|written|] == written;
      token := if style == 0 && diagnostics == 0 then Some(Validated) else None;
      AppendNote();
    }

    /** Records one tool's result, at that tool's own output trust. */
    method RecordToolResult(tool: string, value: Json) returns (block: DataBlock)
      modifies this`entries, this`findings, this`sawExternal
      ensures State() == Apply(env, old(State()), RecordResult(tool, value))
      ensures block == DataBlock(tool, if tool == "web_fetch" then TrustLevel.External else TrustLevel.Member, value)
      ensures findings == old(findings) + [block] && sawExternal == (old(sawExternal) || tool == "web_fetch")
    {
      var trust := ResultTrust(tool);
      if trust.IsUntrusted() {
        sawExternal := true;
        AppendNote();
      }
      entries := entries + [ToolResult(NextNumber(entries), tool, RedactValue(value, env.redact), trust)];
      block := DataBlock(tool, trust, value);
      findings := findings + [block];
    }

    /** Serves one requested write: the step it asks for, and a note if the run turned it away. */
    method ApplyWrite(tree: Tree, call: ModelCall, now: nat)
      requires call.tool == WRITE_PAGE
      modifies this`entries, this`written
      ensures State() == Execute(env, old(State()), CallSteps(env, old(State()), tree, call, now))
    {
      ghost var start := State();
      var route, markdown := StringAt(call.input, "route"), StringAt(call.input, "markdown");
      var path, before := tree.pathFor(route), None;
      match tree.read(route) {
        case Some((at, text)) => path, before := at, Some(text);
        case None =>
      }
      var r := Write(route, path, markdown, before, now);
      ghost var step := WriteFor(tree, call, now);
      assert step == WritePage(route, path, markdown, before, now);
      if r.Err? {
        AppendNote();
        FoldTwo(start, step, AddNote, StepOf(env));
      } else {
        FoldOne(start, step, StepOf(env));
      }
    }

    /** One call: a write is served here, any other tool is only authorised. */
    method TakeCall(tree: Tree, call: ModelCall, now: nat)
      modifies this`entries, this`written
      ensures State() == Execute(env, old(State()), CallSteps(env, old(State()), tree, call, now))
    {
      if call.tool == WRITE_PAGE {
        ApplyWrite(tree, call, now);
      } else {
        FoldOne(State(), AuthoriseCall(call.tool, call.input, now), StepOf(env));
        var _ := Authorise(call.tool, call.input, now);
      }
    }

    /**
     * One turn of the write phase. The run takes exactly the steps the model's answer comes to, all of them
     * steps its callers could have taken themselves, so everything proved of runs holds of turns.
     */
    method WriteTurn(turn: Turn, tree: Tree, clock: nat -> nat)
      modifies this`entries, this`written
      ensures State() == Execute(env, old(State()), TurnSteps(env, old(State()), tree, turn, clock))
    {
      if clock(0) >= env.deadline {
        FoldOne(State(), AddNote, StepOf(env));
        AppendNote();
        return;
      }
      ghost var s := State();
      entries := entries + [ModelExchange(NextNumber(entries), turn.usage)];
      ghost var started := State();
      assert started == Apply(env, s, RecordExchange(turn.usage));
      for i := 0 to |turn.calls|
        invariant State() == AfterCalls(env, started, tree, turn.calls[..i], clock)
      {
        assert turn.calls[..i + 1][..i] == turn.calls[..i];
        TakeCall(tree, turn.calls[i], clock(i + 1));
      }
      assert turn.calls[..|turn.calls|] == turn.calls;
      TurnLeads(env, s, tree, turn, clock);
    }

    /** The end of a run: its output is gated, proposed, and decided on. */
    method PublishRunOutput(token: Validated, signals: Signals, allowBulkDelete: bool)
      returns (r: Result<(Contents, Decision), Failed>)
      modifies this`entries
      ensures State() == Apply(env, old(State()), PublishRun(signals, allowBulkDelete))
      ensures match PublishDecision(env, old(State()), signals, allowBulkDelete)
              case Err(failed) => r == Err(failed)
              case Ok(decision) =>
                r == Ok((NewProposal(branch, written, ReportOn(GateInputs(env, written, allowBulkDelete))), decision))
    {
      ghost var start := State();
      var report := CheckDiff(GateInputs(env, written, allowBulkDelete));
      var decided := Conclude(report, signals);
      PublishDecisionIs(env, start, report, signals, allowBulkDelete);
      PublishStep(env, start, signals, allowBulkDelete);
      PublishRecords(env, start, decided, signals, allowBulkDelete);
      match decided
      case Err(failed) =>
        r := Err(failed);
      case Ok(decision) =>
        entries := entries + [Decided(NextNumber(entries), decision)];
        r := Ok((NewProposal(branch, written, report), decision));
    }

    /** The phase, the gate, third-party content, then the policy: in that order. */
    method Conclude(report: Report, signals: Signals) returns (r: Result<Decision, Failed>)
      ensures r == DecisionOn(env, State(), report, signals)
    {
      if CurrentPhase(entries) != Some(Publish) {
        return Err(NotInPublish);
      }
      if report.Rejected() {
        return Err(Gated);
      }
      if sawExternal {
        return Ok(ExternalContentDowngrade(env.policy));
      }
      return Ok(Policies.Decide(env.policy, env.gate.restrictions, signals.(gatePassed := !report.Rejected())));
    }
  }

  /** A proposal as it opens: every file undecided, no follow-ups. */
  function NewProposal(branch: string, written: seq<FileChange>, report: Report): Contents {
    Contents(branch, written, report, UndecidedAll(written), [])
  }
}
