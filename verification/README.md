# Liyasa, modelled

A model in Dafny of the parts of Liyasa whose correctness spans many functions, with proofs of what they promise.

**The writing agent.** A run is a state machine. Its callers enter phases, write and delete pages, authorise tool
calls, record results, validate and publish. `Runs.dfy` gives its steps as functions; `Agent.dfy` is the object that
takes them, with the model's turns (`Turns`). `RunInvariants`, `RunSafety` and `Effects` prove what every run keeps and
what its steps do, whatever its callers do and in whatever order. Underneath lie the line counts the size caps read
(`Diff`, `Changes`), paths and trust (`Scope`, `Trust`, `Policies`), the output gate and its scanners (`Gates`, `Scans`),
proposals and their splitting (`Proposals`), redaction (`Secrets`), the record and the tool gate (`Record`, `Dispatch`),
and phrase matching (`Injection`).

**The assistant's index.** Pages become chunks under a token ceiling (`Tokens`, `Estimates`, `Chunks`, `Packing`,
`Passages`, `Coverage`), and chunks become rows of a vector store that is kept in step with the site (`Rows`,
`Embedding`, `IndexPass`, `Convergence`) by a pass that may fail anywhere and be run again.

**Text formats.** The corpus case file (`Corpus`), the registry's line reader (`Registry`) and the delimited data
blocks of a prompt (`Prompt`).

`Common`, `Text`, `Sorting` and `Traces` hold the shared vocabulary. `dafny verify dfyconfig.toml` checks everything.

## What does not always hold

The model follows the code. These properties, promised by its comments or expected of it by its callers, do not hold
on every input; a theorem says exactly when each does.

- Line counts are said to be git's. They are cast to 32 bits, so an exact count is right if and only if it fits
  (`Diff.ExactCountsFitIff`, `Diff.CountWraps`).
- A trailing remnant of a section is said to be folded back when it fits. It never fits, so the fold is dead code and
  sections can end with very small chunks (`Packing.NoRemnantEverFits`, `Passages.SectionsEndWithRemnants`).
- A validation token is said to stand for a passing validation. It is bound to no phase and to no state, so it
  vouches for what is published exactly from the validate phase on (`RunSafety.ValidationVouchesIff`).
- The index is said to hold what each page produces. Chunks are compared by text alone, so a chunk with unchanged
  text keeps the metadata its page had before (`Rows.MetadataIsCurrentIff`, `Rows.MetadataGoesStale`).
- `write` is said to be the inverse of `parse`. It is, up to a final newline of each text, exactly when no text holds
  a delimiter line (`Corpus.RoundTripIff`); and a repeated section at the end of an unclosed file is not reported
  (`Corpus.ReadOpen`).
- Normalising a path is idempotent exactly when the result is not drive-like (`Scope.CanonicalPathIdempotentIff`).
- Redacting a value keeps every field, under its redacted key, and every item and leaf exactly when no two keys of
  one object redact alike (`Secrets.RedactionMirrorsIff`, `Secrets.CollidingKeysLoseAValue`). The fields are listed by
  their new keys, so even then they can change places (`Secrets.RedactionReorders`).
- Different pages are not always served under different routes: `Scope.RouteOfIff` lists the files of one route. A
  trigger that names one admits all of them but the reserved ones, and no other (`RunSafety.NamedPagesAreServed`).
- Parts of a split are not always on different branches: they are exactly when no two of their routes differ only in
  slashes and dashes (`Proposals.BranchesAgreeIff`, `Proposals.TwoPagesOneBranch`).
- A file that gains a secret is not always refused: secrets are compared by pattern and by the line with the secret
  cut out (`Scans.SecretRefusedIff`, `Scans.SwappedKeyIsNotRefused`).
- A part of a diff is said to carry no finding the whole did not. That is so exactly when no 32-bit count has slipped
  back under its cap (`Gates.FindingsAreMonotoneIff`, `Gates.GateIsMonotoneIff`).

## Assumptions

What the model takes from outside comes in as a parameter, and a predicate says what is asked of it.

- Regular expressions report non-empty ranges of the text they were run over (`Secrets.SaneFinder`).
- Lowercasing a letter or a digit gives at least one character and no space (`Injection.Sound`).
- A JSON writer's output is read back by its reader and holds no delimiter line (`Corpus.Lawful`).
- The debug form of a string writes each character as itself or as a backslash and text without the letter l
  (`Prompt.IsEscape`).
- The chunk hash is injective where a result says so (`Rows.Injective`), chunk ids are the triple of route, anchor and
  ordinal, and a page's chunks have ids of their own (`Rows.OfRoute`; `Rows.SettlesIff` says what happens without it).
- Pages of one pass have distinct routes (`Convergence.Sane`).
- The embedding model answers with one vector for each text, a rate limit, or a failure; the same text always gets
  the same vector.

## Model

| member | source | states |
|---|---|---|
| `Diff.LcsIsUpperBound` | crates/liyasa-agent/src/diff.rs:174-192 | no common subsequence of two line lists is longer than the recurrence the table fills |
| `Diff.LcsIsAttained` | crates/liyasa-agent/src/diff.rs:174-192 | and one common subsequence is exactly that long, so the recurrence is the maximum over all of them |
| `Diff.LcsLen` | crates/liyasa-agent/src/diff.rs:174-192 | the two-row table, on 32-bit cells, computes that maximum; within the cell budget no cell overflows |
| `Diff.ScriptCost` | crates/liyasa-agent/src/diff.rs:143-192 | every script of line insertions and deletions turning one side into the other inserts and deletes at least what the common subsequence leaves over, and always with the same net growth |
| `Diff.CheapestScript` | crates/liyasa-agent/src/diff.rs:143-192 | a script costing exactly that exists |
| `Diff.TrimmedKeepsLcs` | crates/liyasa-agent/src/diff.rs:143-160 | trimming the common head and tail takes off only common lines: the maximum drops by exactly the number trimmed |
| `Diff.TrimmedEndsDisagree` | crates/liyasa-agent/src/diff.rs:143-160 | trimming is complete: what is left disagrees at both ends |
| `Diff.TrimmedIsBetween` | crates/liyasa-agent/src/diff.rs:143-160 | what is trimmed is one common head and one common tail, and the rest stands between them on both sides |
| `Diff.BoundedIff` | crates/liyasa-agent/src/diff.rs:155-164 | a count is a bound exactly where what is left after trimming takes more than four million cells |
| `Diff.SmallFilesAreExact` | crates/liyasa-agent/src/diff.rs:155-164 | so files whose numbers of lines multiply to no more than that are counted exactly |
| `Diff.Count` | crates/liyasa-agent/src/diff.rs:143-172 | the counting loop returns the specified counts for every pair of files, fallback and casts included |
| `Diff.CountsNeverUnder` | crates/liyasa-agent/src/diff.rs:143-172 | bounded or not, neither count is below what a cheapest edit script does, for files whose line numbers fit the 32-bit cast |
| `Diff.CountsNeverOver` | crates/liyasa-agent/src/diff.rs:143-172 | when the count is not bounded it is not above any edit script at all, so it is the minimum |
| `Diff.CountsKeepNetGrowth` | crates/liyasa-agent/src/diff.rs:143-172 | added minus removed is the growth in lines, bounded or not |
| `Diff.ExactCountsFitIff` | crates/liyasa-agent/src/diff.rs:143-172 | an exact count is right if and only if it fits in 32 bits: the cast drops the rest |
| `Diff.CountWraps` | crates/liyasa-agent/src/diff.rs:143-172 | a counterexample to exactness on every input: an empty file grown by 2^32 lines is reported as adding none |
| `Changes.LinesAreLeast` | crates/liyasa-agent/src/diff.rs:112-172 | what is reported of a file is at least what some edit script between its two texts does, and at most what any does unless it is marked a bound |
| `Changes.LinesRoundTrip` | crates/liyasa-agent/src/diff.rs:138-140 | splitting into lines undoes printing lines, for lines without a line break of their own |
| `Changes.LinesMean` | crates/liyasa-agent/src/diff.rs:138-140 | a text of lines each ended by a line break and a rest splits into those lines, a carriage return dropped with its break, and the rest if there is any |
| `Changes.LinesChangedMeans` | crates/liyasa-agent/src/diff.rs:213-219 | the lines a change set changes are the sum over its files of what is added and removed, held at the largest 32-bit value |
| `Changes.DeletedPagesMean` | crates/liyasa-agent/src/diff.rs:230-238 | the pages deleted are the changes of kind deleted to a path that classifies as a page |
| `Changes.DeletedPagesIsSum` | crates/liyasa-agent/src/diff.rs:230-238 | deleted pages are counted once per deleted file that classifies as a page, and never more than the files |
| `Changes.TotalsAreMonotone` | crates/liyasa-agent/src/diff.rs:208-238 | taking files out of a change set, in any order, never raises its saturated line total, its number of files or its number of deleted pages |
| `Changes.FileCountIsMonotoneIff` | crates/liyasa-agent/src/diff.rs:208-211 | the reported file count is a 32-bit cast: it never rises when files are taken out exactly when there are fewer than 2^32 of them or the cast gives the largest count |
| `Common.SaturatingSumIsCapped` | crates/liyasa-agent/src/diff.rs:213-219 | summing with saturation at every step is capping the true sum once |
| `Scope.PushSegments` | crates/liyasa-agent/src/scope.rs:188-226 | the loop shared by both normalisers keeps exactly the segments that name something and refuses a parent segment |
| `Scope.NormaliseRoute` | crates/liyasa-agent/src/scope.rs:188-203 | the route normaliser computes the canonical spelling or refuses |
| `Scope.CanonicalRouteIdempotent` | crates/liyasa-agent/src/scope.rs:188-203 | normalising a normalised route changes nothing |
| `Scope.SameRouteIffSameSegments` | crates/liyasa-agent/src/scope.rs:188-203 | two routes normalise alike exactly when they agree segment by segment, empty and dot segments dropped |
| `Scope.NormalisePath` | crates/liyasa-agent/src/scope.rs:209-226 | the path normaliser computes the canonical path or refuses |
| `Scope.CanonicalPathIdempotentIff` | crates/liyasa-agent/src/scope.rs:209-226 | normalising a normalised path changes nothing if and only if the result does not look like a drive letter |
| `Scope.CanonicalPathNotIdempotent` | crates/liyasa-agent/src/scope.rs:209-226 | the exception: a dot segment before a drive-like name survives once and is refused the second time |
| `Scope.RouteRefusedIff` | crates/liyasa-agent/src/scope.rs:188-203 | a route is refused exactly when it does not begin with a slash, holds a null or a backslash, or has a parent segment |
| `Scope.PathRefusedIff` | crates/liyasa-agent/src/scope.rs:209-226 | a path is refused exactly when it is empty, absolute, drive-like, holds a null, climbs, or names nothing |
| `Scope.NamedHas` | crates/liyasa-agent/src/scope.rs:192-200 | what normalising drops is exactly the segments that are empty or a dot |
| `Scope.ReservedIs` | crates/liyasa-agent/src/scope.rs:228-256 | which paths are the config file, an agents file or facts |
| `Scope.UnroutedIs` | crates/liyasa-agent/src/scope.rs:228-256 | and which are nothing known: those that leave the project, and those no route serves |
| `Scope.RouteOfIff` | crates/liyasa-agent/src/scope.rs:258-275 | the files served under one route are exactly its page, the index of its directory and a name that only ends in index, each with a page extension under the content root |
| `Scope.SharedRouteIff` | crates/liyasa-agent/src/scope.rs:258-275 | two paths share a route exactly when both are among those files of one route |
| `Scope.EveryRouteIsShared` | crates/liyasa-agent/src/scope.rs:258-275 | so in every layout a page shares its route with two other files |
| `Scope.CoversIffSegments` | crates/liyasa-agent/src/repos.rs:34-46 | a prefix covers a path exactly when it is empty once trimmed of slashes or its segments begin the path's |
| `Scope.ReadsAreMonotone` | crates/liyasa-agent/src/repos.rs:65-90 | denying more or allowing less, in any of the configured repositories, never grants a read |
| `Scope.ReadIffSegments` | crates/liyasa-agent/src/repos.rs:65-90 | a read is granted exactly when the path normalises and the first repository of that name has an allowed prefix, and no denied one, whose segments begin it |
| `Scope.SearchIff` | crates/liyasa-agent/src/repos.rs:48-63 | a search is granted exactly when the first repository of that name allows something |
| `Trust.UntrustedIffSomeInput` | crates/liyasa-agent/src/trust.rs:151-157 | a run is under an untrusted trigger exactly when the trigger or some input is anonymous or external |
| `Trust.TrustIsLeast` | crates/liyasa-agent/src/trust.rs:151-157 | a run is trusted exactly as far as the least trusted of its inputs and its trigger |
| `Trust.UntrustedPermitsIff` | crates/liyasa-agent/src/trust.rs:262-298 | what such a run may write: exactly the pages whose normalised route its trigger named |
| `Trust.TrustedPermitsIff` | crates/liyasa-agent/src/trust.rs:262-298 | any other run may write whatever is in the project, pages only by routes that normalise |
| `Trust.DenialsAre` | crates/liyasa-agent/src/trust.rs:262-298 | what a denial says of the run and the target it denies |
| `Trust.SameSegmentsSameAnswer` | crates/liyasa-agent/src/trust.rs:173-179 | routes that name the same segments get the same answer from every run |
| `Gates.CheckDiff` | crates/liyasa-agent/src/gates.rs:190-210 | the gate's loop over files, pushing into one list and sorting it, produces the specified report |
| `Gates.ReportIsOrdered` | crates/liyasa-agent/src/gates.rs:190-210 | the report is a permutation of every finding, rejections first, then by check, file and line |
| `Sorting.SortIsOrderedPermutation` | crates/liyasa-agent/src/gates.rs:203-209 | the sort the gate and the span merger call loses nothing, invents nothing and leaves the order asked for |
| `Gates.GateRejectsIff` | crates/liyasa-agent/src/gates.rs:190-486 | the gate rejects a diff exactly when a cap is exceeded or some file is refused by a check |
| `Gates.FileFindingsReject` | crates/liyasa-agent/src/gates.rs:278-486 | a file is refused exactly when: a target it writes is denied, its config or front matter cannot be read, a stranger's run changes its access fields, it holds a secret whose pattern and redacted line it did not hold before, or a stranger's run adds a host or a phrase; told of the file, the layout and the scanners alone |
| `Gates.FindingsAreDue` | crates/liyasa-agent/src/gates.rs:278-486 | every finding on a file, flags included: its check, verdict and line are exactly those due |
| `Gates.ReportIsDue` | crates/liyasa-agent/src/gates.rs:190-486 | and a report holds exactly what is due on the diff as a whole and on each of its files |
| `Gates.FindingsAreMonotoneIff` | crates/liyasa-agent/src/gates.rs:190-276 | no part of a diff has a finding, rejection or flag, that the whole has not as often, exactly when neither 32-bit count has slipped back under a cap its true value is over |
| `Gates.GateIsMonotoneIff` | crates/liyasa-agent/src/gates.rs:190-276 | and exactly then does every part of a diff the gate passed pass too |
| `Scans.SecretRefusedIff` | crates/liyasa-agent/src/gates.rs:379-410 | a file is refused for a secret exactly when its new text holds one whose pattern and redacted line are not among those of the old text; the secret itself is not compared |
| `Scans.ReportedAs` | crates/liyasa-agent/src/secrets.rs:163-182 | a secret is reported by its pattern, the number of its line counted from one, and that line with the secret cut out |
| `Scans.SwappedSecretPasses` | crates/liyasa-agent/src/gates.rs:379-410 | so one secret put in place of another, the line around it unchanged, is flagged and not refused |
| `Scans.SwappedKeyIsNotRefused` | crates/liyasa-agent/src/secrets.rs:163-182 | inputs for which that happens: any two access key ids, found by their own pattern, standing in the same text |
| `Scans.LiveKeys` | crates/liyasa-agent/src/secrets.rs:63-88 | and there are such keys, not taken for samples |
| `Scans.PhraseRefusedIff` | crates/liyasa-agent/src/gates.rs:447-486 | a file is refused for a phrase exactly when the run is a stranger's and some line of the new text carries a phrase no line of the old text did |
| `Proposals.Open` | crates/liyasa-agent/src/proposal.rs:175-201 | a proposal opens exactly when the gate did not reject, with every file undecided |
| `Proposals.Proposal.Set` | crates/liyasa-agent/src/proposal.rs:310-328 | deciding a file changes that decision and nothing else; a file the proposal does not have is refused and nothing changes |
| `Proposals.Proposal.Accept` | crates/liyasa-agent/src/proposal.rs:310-313 | accepting a file the proposal has decides that file only; any other is refused |
| `Proposals.Proposal.Decline` | crates/liyasa-agent/src/proposal.rs:315-317 | and so does declining one |
| `Proposals.Proposal.AcceptAll` | crates/liyasa-agent/src/proposal.rs:330-335 | afterwards nothing is left to review and the accepted files are exactly those of the proposal |
| `Proposals.Proposal.DeclineAll` | crates/liyasa-agent/src/proposal.rs:337-341 | afterwards nothing is left to review, nothing is accepted, and no file has come or gone |
| `Proposals.Proposal.Address` | crates/liyasa-agent/src/proposal.rs:370-389 | a refused follow-up changes nothing; an accepted one makes exactly the files it touches undecided |
| `Proposals.AddressingReopens` | crates/liyasa-agent/src/proposal.rs:361-389 | a follow-up that touches any file leaves the proposal not fully reviewed |
| `Proposals.SplitPerPage` | crates/liyasa-agent/src/proposal.rs:400-435 | splitting returns the proposal itself when there is one group, and otherwise one part a page in route order |
| `Proposals.SplitIsPartition` | crates/liyasa-agent/src/proposal.rs:391-435 | the parts hold the original files as a multiset, none lost and none repeated |
| `Proposals.PartIsOnePage` | crates/liyasa-agent/src/proposal.rs:391-435 | a part holds files of its own page only, the first part also those that are no page; it keeps the report, starts no follow-up, and is on a branch of its own |
| `Proposals.DashedIs` | crates/liyasa-agent/src/proposal.rs:419-423 | that branch is the whole's and then the part's route with a dash for every slash |
| `Proposals.PartsKeepDecisions` | crates/liyasa-agent/src/proposal.rs:391-435 | every file keeps the decision it had |
| `Proposals.SplitIsSafe` | crates/liyasa-agent/src/proposal.rs:391-435 | a part of a proposal carries no finding, flags included, that the whole did not, nor more often; so a part of one the gate passed would pass too |
| `Proposals.BranchesAgreeIff` | crates/liyasa-agent/src/proposal.rs:391-435 | two parts of a split ask for the same branch exactly when their routes differ only in which places hold a slash and which a dash |
| `Proposals.TwoPagesOneBranch` | crates/liyasa-agent/src/proposal.rs:391-435 | a run over a/b.md and a-b.md splits into two parts on one branch |
| `Secrets.CollectSpans` | crates/liyasa-agent/src/secrets.rs:141-160 | the sort-and-merge loop computes the merged spans |
| `Secrets.MergeMeans` | crates/liyasa-agent/src/secrets.rs:141-160 | merged spans are in order and pairwise disjoint, cover exactly what the matches cover, and start exactly where a run of overlapping matches starts |
| `Secrets.SpansMean` | crates/liyasa-agent/src/secrets.rs:141-160 | a position is in a merged span exactly when some match any pattern reported, not an example, covers it; and spans start exactly where a run of overlapping ones does |
| `Secrets.SpansAreNamed` | crates/liyasa-agent/src/secrets.rs:153-158 | a merged span bears the name of a pattern that reported a secret starting where it does |
| `Secrets.PlaceholderIff` | crates/liyasa-agent/src/secrets.rs:134-138 | a match is an example exactly when one of the marks stands in it, whatever the case of its letters |
| `Secrets.RedactText` | crates/liyasa-agent/src/secrets.rs:185-195 | the cursor loop computes the redacted text |
| `Secrets.RedactIsScrubbed` | crates/liyasa-agent/src/secrets.rs:185-195 | redaction keeps every character outside the secrets the patterns reported, in order, and puts one mark where a run of overlapping ones begins |
| `Secrets.RedactValueScrubs` | crates/liyasa-agent/src/record.rs:430-442 | at any depth, every string and every key of a redacted value is the redaction of one that went in |
| `Secrets.FieldsAreKeptIff` | crates/liyasa-agent/src/record.rs:434-439 | an object keeps its number of fields exactly when no two of its keys redact alike |
| `Secrets.RedactionMirrorsIff` | crates/liyasa-agent/src/record.rs:430-442 | at any depth, every field is kept under its redacted key, every item in its place and every leaf, strings redacted and all else as it was, exactly when no two keys of one object redact alike |
| `Secrets.RedactedIsInOrder` | crates/liyasa-agent/src/record.rs:434-439 | every object of a redacted value lists its new keys strictly ascending, whatever order they came in |
| `Secrets.RedactionReorders` | crates/liyasa-agent/src/record.rs:434-439 | so fields change places where their redacted keys sort the other way |
| `Secrets.NothingToRedact` | crates/liyasa-agent/src/record.rs:430-442 | a value with nothing to redact comes out exactly as it was, exactly when its objects list their keys in order |
| `Secrets.CollidingKeysLoseAValue` | crates/liyasa-agent/src/record.rs:434-439 | an object for which it does not: two keys that redact alike leave one field, and a value is gone |
| `Record.CurrentIsLast` | crates/liyasa-agent/src/record.rs:278-294 | the current phase is the last of the phases passed |
| `Record.TokensSpentMeans` | crates/liyasa-agent/src/record.rs:404-422 | tokens spent are the sum of input and output over the exchanges that reported usage, held at the largest 32-bit value |
| `Record.CallTotalMeans` | crates/liyasa-agent/src/record.rs:396-400 | the calls counted are the entries that are tool calls, refused ones too |
| `Dispatch.DecideOkIff` | crates/liyasa-agent/src/dispatch.rs:174-308 | a call is authorised exactly when the tool is known and offered at this trust, its input fits, fewer calls were made and fewer tokens spent than allowed, counted over the record itself, and what its input names may be asked for |
| `Dispatch.PerToolMeans` | crates/liyasa-agent/src/dispatch.rs:218-308 | what each tool's input may name: pages in scope, both ends of a move, repositories and prefixes that are allowed, hosts that are listed |
| `Dispatch.RefusalIsFirst` | crates/liyasa-agent/src/dispatch.rs:174-215 | and a refusal names the first of these, in that order, that is not met |
| `Dispatch.UntrustedCallsOnlyWriteNamedPages` | crates/liyasa-agent/src/dispatch.rs:218-308 | a stranger's run is authorised only for the tools every run may use, and to write only pages its trigger named |
| `RunInvariants.RecordIsAppendOnly` | crates/liyasa-agent/src/record.rs:268-375 | over every sequence of steps, earlier entries never change and never go |
| `RunInvariants.NumbersArePositions` | crates/liyasa-agent/src/record.rs:268-313 | entry numbers are positions, as 32-bit values |
| `RunInvariants.PhasesStayInOrder` | crates/liyasa-agent/src/run.rs:322-338 | over every run the phases passed are a prefix of the five, in order |
| `RunInvariants.FlagStaysTruthful` | crates/liyasa-agent/src/run.rs:508-528 | the external-content flag is set exactly when some recorded result was external, and is never cleared |
| `Effects.FlagIffFetched` | crates/liyasa-agent/src/run.rs:508-528 | over every run, it is set exactly when some step recorded the result of web_fetch |
| `Effects.FetchedIsReviewed` | crates/liyasa-agent/src/run.rs:605-639 | and a run with such a step, whatever else it did, publishes nothing but a review |
| `Effects.RecordIsScrubbed` | crates/liyasa-agent/src/record.rs:297-345 | no run records a call's input or a tool's result but through the scrubber |
| `Effects.EntersIff` | crates/liyasa-agent/src/run.rs:322-338 | a phase is entered exactly when it is the next of the five |
| `Effects.WriteTakesEffect` | crates/liyasa-agent/src/run.rs:368-381 | a write that is made leaves one change for its path with the new text; over an earlier change it keeps its kind and the text it started from, so one over a deletion still counts as a deletion |
| `Effects.DeletionTakesEffect` | crates/liyasa-agent/src/run.rs:385-395 | a deletion leaves one change for its path, whatever was there |
| `RunInvariants.PathsStayDistinct` | crates/liyasa-agent/src/run.rs:372-395 | the working copy never holds two changes for one path |
| `RunInvariants.BudgetsHold` | crates/liyasa-agent/src/dispatch.rs:154-215 | every accepted call in every run had fewer calls before it than allowed, and fewer tokens in and out |
| `RunInvariants.AcceptedWasDecided` | crates/liyasa-agent/src/run.rs:554-576 | an accepted call is new in its step, was asked before the deadline and was decided by the gate |
| `RunInvariants.EveryCallIsRecorded` | crates/liyasa-agent/src/run.rs:554-576 | asking appends exactly one entry with the answer and the scrubbed input, and changes nothing else |
| `RunInvariants.EveryTextIsAccountedFor` | crates/liyasa-agent/src/run.rs:346-382 | every text in the working copy of every run was put there by an accepted write call for the route that path is served under |
| `RunSafety.UnreadOutputIsEarned` | crates/liyasa-agent/src/run.rs:605-639 | over every run: if publishing ends in anything but a proposal, the run is in publish, passed exactly the five phases, is the operator's or a member's, recorded nothing external, met every signal, and no cap or check refuses its final working copy |
| `RunSafety.EarnedOutputIsUnread` | crates/liyasa-agent/src/policy.rs:160-209 | and the converse: such a run gets the outcome its policy names |
| `RunSafety.DecisionMeans` | crates/liyasa-agent/src/policy.rs:160-209 | publishing succeeds exactly in publish past the gate; it is unread exactly for a trusted run that read nothing external and met its policy, and otherwise a review, marked as downgraded exactly when something external was read or more than a proposal was asked for |
| `RunSafety.PassingMeansClean` | crates/liyasa-agent/src/run.rs:397-413 | no violation is counted exactly when no text in the working copy breaks a rule |
| `RunSafety.UntrustedGatePassesOnlyNamedPages` | crates/liyasa-agent/src/gates.rs:278-344 | any diff the gate passes for an untrusted run changes only pages its trigger named, a rename's old path included; with no page named, only an empty diff passes |
| `RunSafety.UntrustedRunStaysInScope` | crates/liyasa-agent/src/run.rs:385-427 | over every run of an untrusted trigger, unchecked deletions included: whatever it publishes is a proposal touching only pages its trigger named |
| `RunSafety.NamedPagesAreServed` | crates/liyasa-agent/src/scope.rs:228-275 | a path is a named page exactly when it normalises, is not reserved for config, agents or facts, and is served under a route the trigger named |
| `RunSafety.ValidatedStaysClean` | crates/liyasa-agent/src/run.rs:397-413 | a validation passed in the validate phase or later holds of every later state: no text there breaks a rule |
| `RunSafety.StaleValidationPublishes` | crates/liyasa-agent/src/run.rs:397-413 | a token from a validation before that vouches for nothing: a run that then writes a rule-breaking page publishes with it |
| `RunSafety.ValidationVouchesIff` | crates/liyasa-agent/src/run.rs:397-413 | so a passing validation vouches for later states exactly from the validate phase on |
| `Agent.Run.EnterPhase` | crates/liyasa-agent/src/run.rs:322-338 | the method takes the step of the state machine: only the next phase is entered |
| `Agent.Run.Authorise` | crates/liyasa-agent/src/run.rs:554-576 | clock first, then the gate; the call is recorded either way |
| `Agent.Run.Write` | crates/liyasa-agent/src/run.rs:346-382 | phase, then path against route, then authorisation, then the working copy; the answer says which refused |
| `Agent.Run.Put` | crates/liyasa-agent/src/run.rs:368-381 | a second write replaces the text of the first and keeps what the file started from |
| `Agent.Run.Delete` | crates/liyasa-agent/src/run.rs:385-395 | a deletion is recorded whatever the phase and the scope |
| `Agent.Run.RunValidate` | crates/liyasa-agent/src/run.rs:397-413 | a token is returned exactly when no text breaks a rule and no diagnostic was given; a note is recorded |
| `Agent.Run.RecordToolResult` | crates/liyasa-agent/src/run.rs:508-528 | the result is recorded redacted and kept as given, as external exactly for web_fetch, which also sets the flag |
| `Agent.Run.ApplyWrite` | crates/liyasa-agent/src/run.rs:579-600 | a requested write is the write step for the route and text of that call, at the path and over the text the tree has, followed by a note exactly when it was not made |
| `Agent.Run.TakeCall` | crates/liyasa-agent/src/run.rs:473-482 | one call is that write, or one authorisation of that tool with that input |
| `Agent.Run.WriteTurn` | crates/liyasa-agent/src/run.rs:442-486 | a turn is the exchange and then, call by call and in order, what each call comes to; past the deadline it is one note |
| `Turns.TurnIsRecorded` | crates/liyasa-agent/src/run.rs:442-486 | after a turn the record holds, past what it held, exactly the calls that reached the gate, in order, with their inputs scrubbed |
| `Turns.TurnOpens` | crates/liyasa-agent/src/run.rs:442-506 | a turn in time records its exchange before anything else, and one past the deadline is a note and nothing else |
| `Turns.WriteIsAsRecorded` | crates/liyasa-agent/src/run.rs:579-604 | the write a call asks for has the route and the text its input names, the path and the text the content tree has for that route |
| `Agent.Run.PublishRunOutput` | crates/liyasa-agent/src/run.rs:605-639 | gate, proposal, decision: the state step and the returned proposal and decision |
| `Tokens.EstimateTokens` | crates/liyasa-ai/src/chunk.rs:98-124 | the nested loops compute the estimate |
| `Estimates.EstimateMeans` | crates/liyasa-ai/src/chunk.rs:98-124 | the estimate is a token for each CJK character of the text and, for each maximal run without whitespace, a quarter of the bytes of its other characters rounded up and one for each place in it where ASCII punctuation begins |
| `Estimates.FindRuns` | crates/liyasa-ai/src/chunk.rs:98-124 | every text has such runs; together with their order that makes one list of them |
| `Estimates.CjkTextCosts` | crates/liyasa-ai/src/chunk.rs:98-124 | so a text of nothing but CJK characters costs one token a character, however it is spaced |
| `Tokens.EstimateAdds` | crates/liyasa-ai/src/chunk.rs:98-124 | the estimate of two texts joined where one ends or begins with whitespace is the sum of theirs |
| `Tokens.JoinedCost` | crates/liyasa-ai/src/chunk.rs:98-124 | joining texts with blank lines costs nothing |
| `Tokens.SplitSentences` | crates/liyasa-ai/src/chunk.rs:407-431 | the scanning loop computes the sentences |
| `Tokens.SentencesAreExact` | crates/liyasa-ai/src/chunk.rs:405-431 | sentences are non-empty, concatenate back to the text, end exactly where a sentence ends, and meet at whitespace |
| `Chunks.SplitProse` | crates/liyasa-ai/src/chunk.rs:378-403 | the filling loop computes the units of a paragraph |
| `Chunks.ProseUnitsAreSound` | crates/liyasa-ai/src/chunk.rs:378-403 | its units are the text in order with at most blanks dropped at the end, each one's tokens are the estimate of its text, and only a single sentence is over the ceiling |
| `Chunks.CollectUnits` | crates/liyasa-ai/src/chunk.rs:258-281 | the block loop computes a section's units: block by block and in order nothing for a blank one, the block itself if it is atomic or fits, otherwise its sentences put together greedily |
| `Chunks.ProseIsFilled` | crates/liyasa-ai/src/chunk.rs:379-410 | prose is cut between sentences only, into parts of one sentence or within the ceiling, each closed only where the next sentence would have put it over |
| `Coverage.EveryBlockIsChunked` | crates/liyasa-ai/src/chunk.rs:206-281 | nothing of a section is lost: every block that is not blank is in the chunks, whole if it is atomic or fits under the heading, otherwise in pieces that make it up again but for blanks at its end |
| `Coverage.ChunkIsHeaded` | crates/liyasa-ai/src/chunk.rs:206-238 | each chunk is numbered by its place, opens with the heading, and reports the estimate of its own text |
| `Coverage.UnitsStandInOrder` | crates/liyasa-ai/src/chunk.rs:206-238 | a chunk's units stand in it in their order |
| `Coverage.ChunkIsFull` | crates/liyasa-ai/src/chunk.rs:293-344 | no chunk is closed early: the unit after it, which the next chunk holds, would have put it over the ceiling, heading counted |
| `Chunks.SectionUnitsAreSound` | crates/liyasa-ai/src/chunk.rs:258-281 | every unit's tokens are the estimate of its text, and one over the ceiling is an atomic block or a single sentence |
| `Packing.Tail` | crates/liyasa-ai/src/chunk.rs:355-374 | the overlap is the longest run of trailing prose within its budget, or else one prose unit of at most half the ceiling |
| `Packing.MakeRoom` | crates/liyasa-ai/src/chunk.rs:306-308 | the overlap gives from the front, no more than the incoming unit needs |
| `Packing.FillGreedily` | crates/liyasa-ai/src/chunk.rs:293-315 | the greedy loop yields windows packed from the first unit to the last |
| `Packing.FoldRemnant` | crates/liyasa-ai/src/chunk.rs:317-332 | folding the remnant back merges the last two windows into their union, or changes nothing |
| `Packing.FoldedIsPacked` | crates/liyasa-ai/src/chunk.rs:317-332 | folding keeps the windows packed and under the ceiling |
| `Packing.Pack` | crates/liyasa-ai/src/chunk.rs:293-344 | packing yields packed windows of unit positions |
| `Packing.WindowsFit` | crates/liyasa-ai/src/chunk.rs:293-344 | every window is a non-empty run of units under the ceiling, unless it is a single unit |
| `Packing.WindowsAdvance` | crates/liyasa-ai/src/chunk.rs:293-374 | starts and ends strictly increase, no unit is left between windows, and what two windows share is prose within the overlap budget or one prose unit of at most half the ceiling |
| `Packing.WindowsCover` | crates/liyasa-ai/src/chunk.rs:293-344 | every unit is in some window |
| `Packing.PackedIsUnique` | crates/liyasa-ai/src/chunk.rs:293-344 | those conditions leave no choice: the windows are determined by the units and the options |
| `Packing.PackingIsUnique` | crates/liyasa-ai/src/chunk.rs:293-344 | so there is exactly one packing, and the loop yields it |
| `Packing.NoRemnantEverFits` | crates/liyasa-ai/src/chunk.rs:317-332 | the fold never happens: the last chunk holds the unit that did not fit into the one before it, so the two never fit together |
| `Packing.TwoChunks` | crates/liyasa-ai/src/chunk.rs:293-344 | two units that do not go together, the first too large to repeat, are packed one to a chunk however small the second |
| `Passages.ChunkSection` | crates/liyasa-ai/src/chunk.rs:206-238 | a section's chunks are the packed windows of its units, in order, each under the section's heading |
| `Passages.ChunkCost` | crates/liyasa-ai/src/chunk.rs:206-238 | a chunk costs its heading and its units, no more |
| `Passages.CeilingHolds` | crates/liyasa-ai/src/chunk.rs:206-238 | the tokens a chunk reports, heading included, are within the ceiling, unless the heading alone reaches it or the chunk is one indivisible unit that does not fit under the heading |
| `Passages.EveryChunkIsUnderOrExcused` | crates/liyasa-ai/src/chunk.rs:206-238 | and so for every chunk of every section |
| `Passages.ExcusedIsOver` | crates/liyasa-ai/src/chunk.rs:206-238 | and such a unit really is over the ceiling, as long as its cost fits in 32 bits |
| `Passages.SectionsEndWithRemnants` | crates/liyasa-ai/src/chunk.rs:206-344 | so a section can end with a chunk far under the minimum, contrary to the comment on the fold: 800 words and then 30, at the defaults |
| `Rows.PutOverlapping` | crates/liyasa-ai/src/index/memory.rs:114-139 | writing again rows already written, and going on from there, ends with the same rows |
| `IndexPass.DeltaOf` | crates/liyasa-ai/src/reindex.rs:163-186 | the loops over produced and held chunks compute what to embed, what to delete and how many stay |
| `IndexPass.DifferingIsChanged` | crates/liyasa-ai/src/indexing.rs:79-87 | against any listing of the store, what is embedded is what is new or has another hash |
| `IndexPass.MissingIsStale` | crates/liyasa-ai/src/indexing.rs:79-106 | and what is deleted is every held row of the route the page no longer produces, each once |
| `Rows.RefreshedAt` | crates/liyasa-ai/src/jobs.rs:143-161 | after a page's pass its route holds exactly the ids it produces, and other routes what they held |
| `Rows.RefreshedHolds` | crates/liyasa-ai/src/jobs.rs:143-161 | each produced chunk's row was embedded now if new or changed, and is otherwise the one held |
| `Rows.SecondPassIsIdle` | crates/liyasa-ai/src/jobs.rs:143-161 | applied again, a page's pass deletes and embeds nothing |
| `Rows.SettlesIff` | crates/liyasa-ai/src/reindex.rs:163-186 | with ids shared between chunks, later passes embed nothing exactly when chunks under one id have the same text |
| `Rows.TextAndVectorAreCurrent` | crates/liyasa-ai/src/jobs.rs:143-161 | after a pass the text and the vector of every produced chunk are current, whatever was held |
| `Rows.MetadataIsCurrentIff` | crates/liyasa-ai/src/reindex.rs:163-186 | the whole row is current exactly when no held row with the same text carried other page metadata |
| `Rows.MetadataGoesStale` | crates/liyasa-ai/src/reindex.rs:163-186 | two passes over a page whose metadata changed and whose text did not leave the metadata of the first |
| `Rows.RerunFinishes` | crates/liyasa-ai/src/jobs.rs:143-161 | a page's pass interrupted at any delete or write and run again ends with the rows it would have ended with |
| `Embedding.Store.Upsert` | crates/liyasa-ai/src/index/memory.rs:114-139 | a write that succeeds wrote the whole batch; one that fails wrote a prefix of it |
| `Embedding.Store.Delete` | crates/liyasa-ai/src/index/memory.rs:159-173 | a deletion that fails removed only rows it was asked to |
| `Embedding.Store.Hashes` | crates/liyasa-ai/src/index/memory.rs:141-157 | a listing names every row of the route once, with its hash, in no promised order |
| `Embedding.Backoff.DelaysGrow` | crates/liyasa-ai/src/reindex.rs:227-238 | without a hint, waits never shrink and never exceed the cap, also where the factor stops doubling |
| `Embedding.Backoff.DelaysDouble` | crates/liyasa-ai/src/reindex.rs:227-238 | they start at the base and double 31 times, and a hint is obeyed, all within the cap |
| `Embedding.Embedder.Ask` | crates/liyasa-ai/src/reindex.rs:276-290 | retries stop at the allowed attempts; each sleep is the wait for its attempt, within the cap |
| `Embedding.Embedder.Checkpoint` | crates/liyasa-ai/src/reindex.rs:302-311 | a checkpoint is reported exactly on crossing a multiple of the interval |
| `Embedding.Embedder.Run` | crates/liyasa-ai/src/reindex.rs:269-314 | for every mix of answers, rate limits and failures: what was written is a run of records from where it started, every checkpoint lies inside it, fewer than an interval and a batch lie past the last one, and it slept at most the allowed attempts in all |
| `Embedding.EveryCheckpointIsSaved` | crates/liyasa-ai/src/reindex.rs:302-311 | checkpoints strictly increase and each is a count of records already stored |
| `Embedding.ResumingEndsTheSame` | crates/liyasa-ai/src/reindex.rs:268-314 | resuming from any stored point gives the rows of a run nothing interrupted |
| `Embedding.RunUntilDone` | crates/liyasa-ai/src/reindex.rs:193-203 | runs taken up again from the last checkpoint after each failure end, when one succeeds, with the rows of a single run |
| `IndexPass.IndexJob.Apply` | crates/liyasa-ai/src/jobs.rs:143-161 | one page: the rows and the report counters afterwards, or where a failure left the rows |
| `IndexPass.IndexJob.Withdraw` | crates/liyasa-ai/src/jobs.rs:129-138 | a withdrawn route loses every row, and the report counts and names it |
| `IndexPass.IndexJob.Run` | crates/liyasa-ai/src/jobs.rs:91-141 | a whole pass: every returned page, then every route asked for and not returned, with the report; a failure leaves the rows at a point of that plan |
| `Convergence.PlanHas` | crates/liyasa-ai/src/jobs.rs:91-141 | the plan of a pass: each returned page with its records, none if excluded, and an empty task for each route asked for and gone |
| `Convergence.PlansAreSane` | crates/liyasa-ai/src/jobs.rs:91-141 | pages with distinct routes and chunk ids of their own make a plan that never disagrees about a route |
| `Convergence.PassLeavesEveryRouteCurrent` | crates/liyasa-ai/src/jobs.rs:91-141 | after a pass every route it was about holds exactly the chunks its page produces now, none if excluded or withdrawn |
| `Convergence.PassLeavesTextsCurrent` | crates/liyasa-ai/src/jobs.rs:91-141 | with current text and vector under each, and current metadata exactly when the unchanged text kept it |
| `Convergence.OthersAreUntouched` | crates/liyasa-ai/src/jobs.rs:91-141 | routes the pass was not about keep their rows |
| `Convergence.PassStaysFaithful` | crates/liyasa-ai/src/jobs.rs:91-141 | a pass keeps every row's hash and vector those of its text |
| `Convergence.RerunReachesTheSameRows` | crates/liyasa-ai/src/jobs.rs:91-161 | a pass that failed at any store or embed step and is run again ends with exactly the rows it would have ended with |
| `Convergence.RerunsReachTheSameRows` | crates/liyasa-ai/src/jobs.rs:91-161 | and so does one that failed any number of times |
| `Convergence.RunUntilDone` | crates/liyasa-ai/src/jobs.rs:87-161 | running the pass itself again after each failure: whatever it has left, a further pass still leads where the first would have |
| `Convergence.FurtherPassIsIdle` | crates/liyasa-ai/src/jobs.rs:91-161 | a further pass over the same pages embeds nothing, deletes nothing and leaves the rows alone |
| `Convergence.ReportCounts` | crates/liyasa-ai/src/jobs.rs:91-161 | a report counts as embedded the records that differ from the store as it was, as untouched the others, and as deleted the rows no longer produced |
| `IndexPass.ExcludedHas` | crates/liyasa-ai/src/jobs.rs:91-127 | and it names exactly the pages that came with an error, each with that error |
| `Convergence.WholeSiteWithdrawsNothing` | crates/liyasa-ai/src/jobs.rs:125-138 | a whole-site pass keeps the rows of a page that is gone |
| `Corpus.ReadSections` | xtask/src/corpus.rs:122-157 | the line loop computes the sections, or the error it stops at |
| `Corpus.Parse` | xtask/src/corpus.rs:122-196 | reading a case answers as its sections do, with this error for this text: content before the first delimiter, then a section closed twice under one name, then no case section, then no source section |
| `Corpus.Write` | xtask/src/corpus.rs:199-243 | writing a case: every section under its delimiter, each body ending its last line |
| `Corpus.TerminatedIsFree` | xtask/src/corpus.rs:286-295 | ending a body's last line neither makes nor unmakes a delimiter line |
| `Corpus.ReadClosed` | xtask/src/corpus.rs:122-157 | a file closed by its end marker is read exactly when no section is repeated |
| `Corpus.ReadOpen` | xtask/src/corpus.rs:153-157 | a file left open is read even when its last section repeats an earlier one, whose body it silently replaces |
| `Corpus.ParsedIsClean` | xtask/src/corpus.rs:122-196 | no text section of a case that was read holds a delimiter line |
| `Corpus.RoundTripIff` | xtask/src/corpus.rs:198-243 | reading what was written gives the case back, each non-empty text ending its last line, if and only if no text section holds a delimiter line |
| `Corpus.RewritingIsStable` | xtask/src/corpus.rs:122-243 | a case with no delimiter line in its texts, written, read and written again, is the same text |
| `Corpus.ReadCasesSurvive` | xtask/src/corpus.rs:122-243 | every case that was read survives being written and read again |
| `Injection.Fold` | crates/liyasa-agent/src/injection.rs:56-74 | the two-buffer loop computes the padded and the squeezed form of the folded words |
| `Injection.SpacedIff` | crates/liyasa-agent/src/injection.rs:102-104 | the padded substring test holds exactly when the phrase has words and they stand, whole and together, among the line's words |
| `Injection.FoundInIsFoundSqueezed` | crates/liyasa-agent/src/injection.rs:91-109 | a spaced match is always a squeezed one, so looking under both folds finds what the squeezed one finds |
| `Injection.IgnorablesChangeNothing` | crates/liyasa-agent/src/injection.rs:34-74 | ignorable characters, wherever they stand, change neither fold |
| `Injection.ScanText` | crates/liyasa-agent/src/injection.rs:201-215 | the nested scan loop computes the hits, line by line |
| `Injection.SqueezedIsLetters` | crates/liyasa-agent/src/injection.rs:56-74 | the words of a text run together are the lower case of its letters and digits, one after the other, ignorable characters and all else dropped |
| `Injection.WordsAreCut` | crates/liyasa-agent/src/injection.rs:56-74 | and they are cut at its separators |
| `Injection.UncutIsOneWord` | crates/liyasa-agent/src/injection.rs:56-74 | and nowhere else |
| `Injection.ScanReportsIff` | crates/liyasa-agent/src/injection.rs:193-215 | a phrase is reported exactly when it is in the corpus, has letters or digits, and some line carries them run together |
| `Injection.HitsAre` | crates/liyasa-agent/src/injection.rs:193-215 | under the number of that line, counted from one |
| `Prompt.ReplaceLeavesNone` | crates/liyasa-ai/src/prompt.rs:46-52 | leftmost replacement leaves no match behind when the pattern's first character comes back in neither it nor its replacement |
| `Prompt.SanitizedHasNoClosing` | crates/liyasa-ai/src/prompt.rs:46-52 | sanitized content never holds the closing delimiter |
| `Prompt.SanitizedOpeningIsMarked` | crates/liyasa-ai/src/prompt.rs:46-52 | and wherever it still holds the opening one, a zero-width space follows |
| `Prompt.SanitizeKeepsVisible` | crates/liyasa-ai/src/prompt.rs:46-52 | and sanitizing changes nothing but zero-width spaces |
| `Prompt.BlockClosesOnce` | crates/liyasa-ai/src/prompt.rs:33-44 | for every content, label and trust, the closing delimiter stands in a rendered block once, at its end |
| `Prompt.BlockHoldsContent` | crates/liyasa-ai/src/prompt.rs:33-44 | a block opens with the opening delimiter, its escaped label and its trust, and ends with its sanitized content and the closing delimiter |
| `Prompt.MessageClosesEachBlock` | crates/liyasa-ai/src/prompt.rs:54-77 | a message of n blocks holds it exactly n times |
| `Prompt.MessageHoldsBlocks` | crates/liyasa-ai/src/prompt.rs:54-77 | each block as it is rendered, in their order |
| `Prompt.MessageTrustsItsLeast` | crates/liyasa-ai/src/prompt.rs:62-76 | a message is trusted exactly as far as its least trusted block |
| `Registry.ReadField` | crates/liyasa-core/build.rs:118-139 | the field loop computes the value, its absence, or the overrun that stops the build |
| `Registry.TwoReplacesAreOnePass` | crates/liyasa-core/build.rs:134-136 | on what a value can hold, two replacements one after the other read each escape once |
| `Registry.ReadValuesAreOnePass` | crates/liyasa-core/build.rs:118-139 | so every value taken from any line has each of its escapes read once |
| `Registry.PrintedFieldsRead` | crates/liyasa-core/build.rs:115-139 | fields printed with quotes and backslashes escaped read back: the first value of each name, nothing for an absent one |
| `Registry.RowsSplit` | crates/liyasa-core/build.rs:105-113 | a printed row splits into its key and exactly the body it was printed with |
| `Registry.PrintedRowsRead` | crates/liyasa-core/build.rs:104-139 | a printed row, split and read, gives each name's first value |
| `Registry.PanicsIff` | crates/liyasa-core/build.rs:118-139 | slicing past the end happens exactly when the first field of the name asked for has no closing quote and a last backslash that escapes nothing |
| `Registry.LoneBackslashPanics` | crates/liyasa-core/build.rs:118-139 | a line for which it does |
| `Registry.PanicsOnlyOnLoneBackslash` | crates/liyasa-core/build.rs:118-139 | and then the line itself ends in a backslash |

## Left out

- The model call, its stream and its errors: a turn is any list of tool calls, and a turn that fails before it answers changes nothing.
- Regular expressions, the JSON, YAML and URL parsers, JSON schemas, hashing, Markdown rendering and the clock are parameters.
- `RunRecord::enter` and `Run::record_mut` (run.rs:287, record.rs:272) go around the phase order; runs here are made of `Run`'s other methods.
- Run ids, summaries, attributions, trigger kinds, note texts and the wording of findings and diagnostics.
- The scan for links and their hosts is a scanner given to the gate.
- The config-area comparison of `ConfigArea::changed` and the front-matter comparison of the access check are scanners given to the gate.
- Texts are sequences of characters; the byte offsets the source uses agree with them at every place it slices.
- Cutting a page into sections at its second and third level headings, and rendering a block to Markdown; a section's blocks are given.
- `split_markdown`, prices, approval, progress reports, retention and the other small formulas of the index.
- A vector reply shorter than its batch: the source zips the two and would store fewer rows than it reads on.
- A store call on an index that does not exist, and a vector of the wrong dimension, are failures like any other.
- The swap of a finished index for the active one, retrieval, and the queries of the SQL backends.
- Embedding.Embedder.Run: the model reports no progress events, only checkpoints and sleeps.
- Gates.CheckDiff: the reason text of a finding is not modelled, only its check, verdict, file and line.
- Corpus.Parse: the path in an error message and the reason a JSON reader gives are not modelled, and writing never fails.
- Registry.ReadField: the sections of the registry file and the generated table are not modelled.
