/** A run's log, as a list that only grows, and the facts a reader takes from it. */
module Record {
  import opened Common
  import opened Secrets
  import opened Scope
  import opened Trust
  import opened Policies

  const U16_MAX: nat := 0xFFFF

  datatype Phase = Research | Plan | Write | Validate | Publish {
    function Next(): Option<Phase> {
      match this
      case Research => Some(Plan)
      case Plan => Some(Write)
      case Write => Some(Validate)
      case Validate => Some(Publish)
      case Publish => None
    }
  }

  /** The five phases, in the order a run passes through them. */
  const PHASES: seq<Phase> := [Research, Plan, Write, Validate, Publish]

  datatype Budget = ToolCalls | Tokens | WallTime

  datatype Rejection =
    | UnknownTool
    | BelowTrust
    | InvalidInput
    | WriteDenied(denial: Denial)
    | RepoRefused(refusal: RepoDenial)
    | HostNotAllowed
    | Exhausted(budget: Budget)

  datatype CallOutcome = Accepted | Refused(reason: Rejection)

  datatype Usage = Usage(input: nat, output: nat)

  datatype Entry =
    | PhaseEntry(number: nat, phase: Phase)
    | ToolCall(number: nat, name: string, input: Json, outcome: CallOutcome)
    | ModelExchange(number: nat, usage: Option<Usage>)
    | ToolResult(number: nat, tool: string, value: Json, trust: TrustLevel)
    | Note(number: nat)
    | Decided(number: nat, decision: Decision)

  /** The number the next entry takes: a u32 of the length. */
  function NextNumber(entries: seq<Entry>): nat {
    AsU32(|entries|)
  }

  /** The phase a run is in: the last one entered. */
  function CurrentPhase(entries: seq<Entry>): Option<Phase> {
    if entries == [] then None
    else
      match entries[|entries| - 1]
      case PhaseEntry(_, phase) => Some(phase)
      case _ => CurrentPhase(entries[..|entries| - 1])
  }

  function PhasesOf(entries: seq<Entry>): seq<Phase> {
    if entries == [] then []
    else
      PhasesOf(entries[..|entries| - 1])
      + match entries[|entries| - 1] {
          case PhaseEntry(_, phase) => [phase]
          case _ => []
        }
  }

  function CallTotal(entries: seq<Entry>): nat {
    if entries == [] then 0
    else CallTotal(entries[..|entries| - 1]) + if entries[|entries| - 1].ToolCall? then 1 else 0
  }

  /** The number of calls logged, held at the largest 16-bit value. */
  function CallCount(entries: seq<Entry>): nat {
    Min(CallTotal(entries), U16_MAX)
  }

  function SaturatingAdd(a: nat, b: nat): nat {
    Min(a + b, U32_RANGE - 1)
  }

  /** Tokens known to have been spent; an exchange that reported no usage adds nothing. */
  function TokensSpent(entries: seq<Entry>): nat {
    if entries == [] then 0
    else
      var before := TokensSpent(entries[..|entries| - 1]);
      match entries[|entries| - 1]
      case ModelExchange(_, Some(usage)) => SaturatingAdd(SaturatingAdd(before, usage.input), usage.output)
      case _ => before
  }

  // ---- What the two budgets count ----

  /** What an exchange is known to have cost, both ways; nothing for any other entry. */
  function UsageOf(): Entry -> nat {
    (e: Entry) =>
      match e
      case ModelExchange(_, Some(usage)) => usage.input + usage.output
      case _ => 0
  }

  /** The tokens spent are the sum over the exchanges that reported usage, held at the largest 32-bit value. */
  lemma {:induction false} TokensSpentMeans(entries: seq<Entry>)
    ensures TokensSpent(entries) == Min(SumBy(entries, UsageOf()), U32_RANGE - 1)
  {
    if entries != [] {
      var init, last := entries[..|entries| - 1], entries[|entries| - 1];
      assert entries == init + [last];
      TokensSpentMeans(init);
      SumByPush(init, last, UsageOf());
    }
  }

  /** The entries that are tool calls, refused ones too. */
  ghost function Calls(entries: seq<Entry>): set<nat> {
    set i: nat | i < |entries| && entries[i].ToolCall?
  }

  lemma CallsPush(entries: seq<Entry>, e: Entry)
    ensures Calls(entries + [e]) == Calls(entries) + if e.ToolCall? then {|entries|} else {}
  {
    forall i: nat
      ensures i in Calls(entries + [e]) <==> i in Calls(entries) || (i == |entries| && e.ToolCall?)
    {
      assert i < |entries| ==> (entries + [e])[i] == entries[i];
    }
  }

  lemma {:induction false} CallTotalMeans(entries: seq<Entry>)
    ensures CallTotal(entries) == |Calls(entries)|
  {
    if entries == [] {
      assert Calls(entries) == {};
    } else {
      var init, last := entries[..|entries| - 1], entries[|entries| - 1];
      assert entries == init + [last];
      CallTotalMeans(init);
      CallsPush(init, last);
    }
  }

  lemma Appended(entries: seq<Entry>, e: Entry)
    ensures CurrentPhase(entries + [e]) == if e.PhaseEntry? then Some(e.phase) else CurrentPhase(entries)
    ensures PhasesOf(entries + [e]) == PhasesOf(entries) + if e.PhaseEntry? then [e.phase] else []
    ensures CallTotal(entries + [e]) == CallTotal(entries) + if e.ToolCall? then 1 else 0
  {
    assert (entries + [e])[..|entries|] == entries;
  }

  /** The current phase is the last of the phases passed. */
  lemma {:induction false} CurrentIsLast(entries: seq<Entry>)
    ensures CurrentPhase(entries).None? <==> PhasesOf(entries) == []
    ensures PhasesOf(entries) != [] ==> CurrentPhase(entries) == Some(PhasesOf(entries)[|PhasesOf(entries)| - 1])
  {
    if entries != [] {
      CurrentIsLast(entries[..|entries| - 1]);
    }
  }
}

/** The gate in front of every tool: which requests pass, and why one does not. */
module Dispatch {
  import opened Common
  import opened Secrets
  import opened Scope
  import opened Trust
  import opened Record

  const WRITE_PAGE: string := "write_page"
  const MOVE_PAGE: string := "move_page"
  const EDIT_NAVIGATION: string := "edit_navigation"
  const READ_REPO_FILE: string := "read_repo_file"
  const SEARCH_REPO: string := "search_repo"
  const PROPOSE_FACT_UPDATE: string := "propose_fact_update"
  const WEB_FETCH: string := "web_fetch"

  /** The tools a member's run may be offered and a stranger's may not. */
  const MEMBER_TOOLS: set<string> :=
    {MOVE_PAGE, EDIT_NAVIGATION, READ_REPO_FILE, SEARCH_REPO, PROPOSE_FACT_UPDATE, WEB_FETCH}

  /** The tools every run may be offered. */
  const OPEN_TOOLS: set<string> :=
    {"search_docs", "read_page", WRITE_PAGE, "get_openapi", "get_fact", "run_validate", "run_verify",
     "render_preview", "list_drift", "ask_reviewer"}

  function MinTrust(tool: string): Option<TrustLevel> {
    if tool in OPEN_TOOLS then Some(External) else if tool in MEMBER_TOOLS then Some(Member) else None
  }

  /** The trust a tool's result is recorded at: what is fetched from elsewhere is external, all else a member's. */
  function ResultTrust(tool: string): TrustLevel {
    if tool == WEB_FETCH then External else Member
  }

  datatype Gate = Gate(
    restrictions: Restrictions,
    maxToolCalls: nat,
    maxTokens: nat,
    repos: seq<Repo>,
    fetchHosts: set<string>,
    /** Whether a tool's input schema accepts an input. */
    schemaAccepts: (string, Json) -> bool,
    /** The host a URL names, or the text itself when it names none. */
    hostOf: string -> string)

  /** A string field of an input, or nothing's default. */
  function StringAt(input: Json, key: string): string {
    match input
    case Obj(fields) => FieldAt(fields, key)
    case _ => ""
  }

  function FieldAt(fields: seq<Field>, key: string): string {
    if fields == [] then ""
    else if fields[0].key == key then (match fields[0].value { case Str(s) => s case _ => "" })
    else FieldAt(fields[1..], key)
  }

  function PermitsTarget(g: Gate, target: Target): Result<(), Rejection> {
    match g.restrictions.Permits(target)
    case Ok(_) => Ok(())
    case Err(denial) => Err(WriteDenied(denial))
  }

  /** Whether the run's scope covers the page a route names. */
  function Writable(g: Gate, route: string): Result<(), Rejection> {
    match CanonicalRoute(route)
    case Some(r) => PermitsTarget(g, Page(r))
    case None => PermitsTarget(g, Unknown(route))
  }

  function OfRepo(answer: Result<(), RepoDenial>): Result<(), Rejection> {
    match answer
    case Ok(_) => Ok(())
    case Err(denial) => Err(RepoRefused(denial))
  }

  /** What a single tool asks of its own input. */
  function PerTool(g: Gate, tool: string, input: Json): Result<(), Rejection> {
    if tool == WRITE_PAGE then Writable(g, StringAt(input, "route"))
    else if tool == MOVE_PAGE then
      var from := Writable(g, StringAt(input, "from"));
      if from.Err? then from else Writable(g, StringAt(input, "to"))
    else if tool == EDIT_NAVIGATION then PermitsTarget(g, Config(Navigation))
    else if tool == PROPOSE_FACT_UPDATE then PermitsTarget(g, Facts)
    else if tool == READ_REPO_FILE then OfRepo(PermitsRead(g.repos, StringAt(input, "repo"), StringAt(input, "path")))
    else if tool == SEARCH_REPO then OfRepo(PermitsSearch(g.repos, StringAt(input, "repo")))
    else if tool == WEB_FETCH then
      if g.hostOf(StringAt(input, "url")) in g.fetchHosts then Ok(()) else Err(HostNotAllowed)
    else Ok(())
  }

  function Decide(g: Gate, entries: seq<Entry>, tool: string, input: Json): Result<(), Rejection> {
    match MinTrust(tool)
    case None => Err(UnknownTool)
    case Some(min) =>
      if !g.restrictions.trust.AtLeast(min) then Err(BelowTrust)
      else if !g.schemaAccepts(tool, input) then Err(InvalidInput)
      else if CallCount(entries) >= g.maxToolCalls then Err(Exhausted(ToolCalls))
      else if TokensSpent(entries) >= g.maxTokens then Err(Exhausted(Tokens))
      else PerTool(g, tool, input)
  }

  /** A route the run may write: one that normalises, and for a stranger's run one in its scope. */
  ghost predicate MayTouch(g: Gate, route: string) {
    && CanonicalRoute(route).Some?
    && (g.restrictions.IsUntrustedTrigger() && g.restrictions.scope.Pages? ==>
          CanonicalRoute(route).value in g.restrictions.scope.routes)
  }

  /** A field of an input that is a string, or the empty string. */
  ghost function TextAt(input: Json, key: string): string {
    match input
    case Obj(fields) =>
      (match ValueAt(fields, key)
       case Some(Str(s)) => s
       case _ => "")
    case _ => ""
  }

  lemma StringAtMeans(input: Json, key: string)
    ensures StringAt(input, key) == TextAt(input, key)
  {
    if input.Obj? {
      FieldAtMeans(input.fields, key);
    }
  }

  lemma {:induction false} FieldAtMeans(fields: seq<Field>, key: string)
    ensures FieldAt(fields, key) == TextAt(Obj(fields), key)
  {
    if fields != [] {
      FieldAtMeans(fields[1..], key);
    }
  }

  /** What each tool's input must name for the call to pass. */
  ghost predicate MayAsk(g: Gate, tool: string, input: Json) {
    && (tool == "write_page" ==> MayTouch(g, TextAt(input, "route")))
    && (tool == "move_page" ==> MayTouch(g, TextAt(input, "from")) && MayTouch(g, TextAt(input, "to")))
    && (tool in {"edit_navigation", "propose_fact_update"} ==> !g.restrictions.IsUntrustedTrigger())
    && (tool == "read_repo_file" ==> MayRead(g.repos, TextAt(input, "repo"), TextAt(input, "path")))
    && (tool == "search_repo" ==> MaySearch(g.repos, TextAt(input, "repo")))
    && (tool == "web_fetch" ==> g.hostOf(TextAt(input, "url")) in g.fetchHosts)
  }

  lemma WritableMeans(g: Gate, route: string)
    ensures Writable(g, route).Ok? <==> MayTouch(g, route)
  {
    if CanonicalRoute(route).Some? {
      CanonicalRouteIdempotent(route);
    }
  }

  /** The seven tools that look into their input have seven names. */
  lemma NamesDiffer()
    ensures |WRITE_PAGE| == 10 && |MOVE_PAGE| == 9 && |EDIT_NAVIGATION| == 15 && |READ_REPO_FILE| == 14
    ensures |SEARCH_REPO| == 11 && |PROPOSE_FACT_UPDATE| == 19 && |WEB_FETCH| == 9 && MOVE_PAGE[0] != WEB_FETCH[0]
  {
  }

  lemma PerToolMeans(g: Gate, tool: string, input: Json)
    ensures PerTool(g, tool, input).Ok? <==> MayAsk(g, tool, input)
  {
    NamesDiffer();
    if tool == WRITE_PAGE {
      StringAtMeans(input, "route");
      WritableMeans(g, TextAt(input, "route"));
    } else if tool == MOVE_PAGE {
      StringAtMeans(input, "from");
      StringAtMeans(input, "to");
      WritableMeans(g, TextAt(input, "from"));
      WritableMeans(g, TextAt(input, "to"));
    } else if tool == READ_REPO_FILE {
      StringAtMeans(input, "repo");
      StringAtMeans(input, "path");
      ReadIffSegments(g.repos, TextAt(input, "repo"), TextAt(input, "path"));
    } else if tool == SEARCH_REPO {
      StringAtMeans(input, "repo");
      SearchIff(g.repos, TextAt(input, "repo"));
    } else if tool == WEB_FETCH {
      StringAtMeans(input, "url");
    }
  }

  /** Whether a tool is offered to a run of this trust. */
  ghost predicate IsOffered(g: Gate, tool: string) {
    tool in OPEN_TOOLS || (tool in MEMBER_TOOLS && !g.restrictions.IsUntrustedTrigger())
  }

  /**
   * Exactly when a call is authorised. The counts read off the record saturate at the largest u16 and the largest
   * u32, so budgets of those widths still stop a run: the true numbers are below the budgets.
   */
  lemma DecideOkIff(g: Gate, entries: seq<Entry>, tool: string, input: Json)
    requires g.maxToolCalls <= U16_MAX && g.maxTokens < U32_RANGE
    ensures Decide(g, entries, tool, input).Ok? <==>
            && IsOffered(g, tool) && g.schemaAccepts(tool, input)
            && |Calls(entries)| < g.maxToolCalls && SumBy(entries, UsageOf()) < g.maxTokens
            && MayAsk(g, tool, input)
  {
    PerToolMeans(g, tool, input);
    CallTotalMeans(entries);
    TokensSpentMeans(entries);
  }

  lemma PerToolRefuses(g: Gate, tool: string, input: Json)
    ensures var r := PerTool(g, tool, input); r.Err? ==> r.error.WriteDenied? || r.error.RepoRefused? || r.error.HostNotAllowed?
  {
  }

  lemma DecideInOrder(g: Gate, entries: seq<Entry>, tool: string, input: Json)
    ensures Decide(g, entries, tool, input) ==
            if tool !in OPEN_TOOLS + MEMBER_TOOLS then Err(UnknownTool)
            else if !IsOffered(g, tool) then Err(BelowTrust)
            else if !g.schemaAccepts(tool, input) then Err(InvalidInput)
            else if CallCount(entries) >= g.maxToolCalls then Err(Exhausted(ToolCalls))
            else if TokensSpent(entries) >= g.maxTokens then Err(Exhausted(Tokens))
            else PerTool(g, tool, input)
  {
  }

  /** And what a refusal says: the first of these in this order that is not met. */
  lemma RefusalIsFirst(g: Gate, entries: seq<Entry>, tool: string, input: Json)
    requires g.maxToolCalls <= U16_MAX && g.maxTokens < U32_RANGE
    ensures var r := Decide(g, entries, tool, input);
            if tool !in OPEN_TOOLS + MEMBER_TOOLS then r == Err(UnknownTool)
            else if !IsOffered(g, tool) then r == Err(BelowTrust)
            else if !g.schemaAccepts(tool, input) then r == Err(InvalidInput)
            else if |Calls(entries)| >= g.maxToolCalls then r == Err(Exhausted(ToolCalls))
            else if SumBy(entries, UsageOf()) >= g.maxTokens then r == Err(Exhausted(Tokens))
            else r.Err? ==> !MayAsk(g, tool, input) && (r.error.WriteDenied? || r.error.RepoRefused? || r.error.HostNotAllowed?)
  {
    DecideInOrder(g, entries, tool, input);
    PerToolMeans(g, tool, input);
    PerToolRefuses(g, tool, input);
    CallTotalMeans(entries);
    TokensSpentMeans(entries);
  }

  /** A stranger's run is authorised only to write a page its trigger named, or to read and ask. */
  lemma UntrustedCallsOnlyWriteNamedPages(g: Gate, entries: seq<Entry>, tool: string, input: Json)
    requires g.restrictions.IsUntrustedTrigger() && Decide(g, entries, tool, input).Ok?
    ensures tool !in MEMBER_TOOLS
    ensures tool == WRITE_PAGE ==>
              var r := CanonicalRoute(StringAt(input, "route"));
              r.Some? && (g.restrictions.scope.Pages? ==> r.value in g.restrictions.scope.routes)
  {
    var route := StringAt(input, "route");
    if tool == WRITE_PAGE && CanonicalRoute(route).Some? {
      CanonicalRouteIdempotent(route);
    }
  }
}
