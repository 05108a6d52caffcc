# Verification of the policy gates and the asset archive

This project models the parts of the repository whose correctness is not settled by reading
one function: the graph algorithms, the static analysis, the ratchets, the glob reasoning and
the diff reader behind its policy gates, and the archive and restore of assets. It proves, for
all inputs, what each of them is relied on for.

| modules | what they model |
|---|---|
| `Wrappers`, `Ordering`, `Digraph` | optional values and results; Python's order of strings; walks, reachability, cycles and components of a graph |
| `StrongComponents`, `ImportCycles`, `ShortestPath` | the import-cycle engine: the iterative search for components, the two blocking graphs, the verdict on claims, `--explain` |
| `HandlerPaths`, `HandlerAnalysis`, `HandlerRuns`, `HandlerVerdicts` | the path analysis of exception handlers, a semantics of the statements it reads, and what its classes mean |
| `HandlerRatchet`, `ArchitectureRatchet` | the two baselines: comparison, pairing of moved handlers, acceptance of a rewrite, whole histories |
| `ScopeGlob`, `GlobPatterns`, `GlobClasses`, `ScopeSelection`, `ScopeBuild`, `ScopeTheorems`, `ScopeExample`, `NameStatus` | the E2E scope selector: its patterns, its classification, its artifact and both validators, git's list of changes |
| `ScopeAcceptance`, `ScopeArtifact` | which inputs the selector accepts, which rules win a path, and what the artifact says, in terms of the inputs alone |
| `DiffPaths`, `DiffReader`, `DecimalDigits`, `LineRanges` | the reader of git diffs: quoting, section headers, the line-by-line state machine, the report of lines |
| `DiffEscapes`, `DiffAcceptance` | which quoted paths and which lines the reader accepts, of any text, and what it reads in them |
| `AcyclicCheck`, `MigrationAudit`, `MigrationFields` | the migration audit: its cycle test, the shard chain, the graph of replacements, and the same on the fields of the migrations |
| `AssetArchive`, `ArchiveFields` | archive and restore of an asset over tables with soft deletion, and when each is done and what it writes, on the columns of the rows |
| `Projection`, `ProjectionLines` | the module projection shown to the type checker, and what it says of each line |
| `CustomFields` | the composition of custom fields |

Code that changes variables or fields step by step is a method (or a class with those fields)
proved against a function of its inputs or its old state; what the code is relied on for is
then proved about that function. Code that only computes is functions and lemmas. What decides
an operation (its refusals, its arcs, its filters) is stated once more in terms of the inputs'
own fields, as an if-and-only-if that names none of the functions it is about.

The longer premises can be met: the search starts in its invariant (`InitialInv`), a scope map
and a pull request meet every condition at once (`SomethingIsIgnored`), and so does a small
migration history (`AuditIsPossible`).

## What the proofs found

These are consequences of the code as it is; each has its exact condition below.

- The `log-only` verdict on a handler can be wrong: when a `try` has handlers, the path on which
  none of them takes the exception is dropped, and a `return` in its `finally` block can then
  swallow the failure unlogged (`LogOnlyCanBeSilent`). The verdict is right exactly when keeping
  that path does not change it (`LogOnlyIsRightIff`), and always when no `finally` block returns,
  breaks or continues (`LogOnlyLogs`). The gate refuses no handler that reports
  (`ReportingIsAdmitted`); of the handlers that it admits, exactly those report which it would
  still admit with the dropped path kept (`AdmittedReportsIff`).
- A file renamed or copied to a path under a top-level directory `b` is read without that
  directory (`RenameIsReadIff`).
- The header line of a moved file is refused exactly when git quotes the old path, does not quote
  the new one, and the new one has a space inside (`HeaderIsReadIff`); reading a whole diff fails
  for no other reason (`DiffReadsBack`).
- A quoted path with an octal escape above 377, which git never writes, is refused with a plain
  `ValueError`, not as the policy error that the gate reports (`ByteRangeIff`).
- The stub of a function whose body is on its header line keeps that header exactly when it is
  ASCII, because the offset of the body counts bytes (`StubKeepsHeaderIff`).
- A line of the projection is what the last shown statement on it makes of it
  (`LineIsDecided`), and earlier statements on that line have no say (`OvertakenIsLost`): of
  `import a; import b` the first import is lost (`SharedImportIsLost`), of `A = int; import b` the
  assignment (`SharedAssignmentIsLost`), although both names are required.
- A guard that is shown can lose every import of a branch: for want of required names in that
  branch (`GuardLosesElse`), or because a later import on the same line blanks what an earlier one
  has written (`GuardLosesBody`). Both branches keep something exactly when each has an import that
  binds a required name and whose first line no later import takes (`GuardStaysWholeIff`); with
  imports on lines of their own, exactly when each binds a required name (`GuardOnOwnLinesIff`). A
  guard written on one line loses its test (`GuardHeaderStaysIff`).
- A function whose first statement is decorated keeps the decorators above its stub
  (`DecoratorIsLeft`); the stub takes the place of the whole body exactly when there are none
  (`StubHidesBodyIff`).
- A restore checks each row only against live rows, so as to refuse before the database does. What
  it lets through keeps the installed-software slot unique exactly when the rows it brings back do
  not share a slot among themselves (`RestoreKeepsSlotsIff`). That holds over every run in which
  no two events delete rows of one asset at one instant, in whatever order the instants come, when
  it holds of the trash at the start, whose instants are not used again (`SlotsStayUnique`).
  Otherwise it can fail: in the run of `SameInstantCollides` an asset is archived at the instant
  at which one of its rows was deleted, and the restore passes its own checks and is left for the
  database constraint to refuse. The refusals themselves are needed, but for the one below
  (`UncheckedBreaksIff`).
- An asset without a tenant cannot be restored right after it was archived while another live
  asset without a tenant has its serial number, although the database allows both
  (`ArchiveThenRestore`).
- A live row that still carries the marker of an older archive loses it in an archive and restore,
  and a row that was deleted at the very instant of the archive and carries a marker comes back with
  the others (`ArchiveThenRestore`).

## Model

| member | source | states |
|---|---|---|
| StrongComponents.StronglyConnectedComponents | scripts/architecture_policy.py:961-997 | returns exactly the maximal sets of mutually reachable nodes with more than one node, each ascending, disjoint, in tuple order |
| StrongComponents.Explore | scripts/architecture_policy.py:971-996 | the search terminates with every component of the graph once: each node numbered and popped into exactly one of them |
| StrongComponents.Explorer.Open | scripts/architecture_policy.py:974-978 | numbering, stacking and opening a node, with nothing else changed |
| StrongComponents.Explorer.Look | scripts/architecture_policy.py:980-996 | one child of the top frame: the whole new state for an undiscovered, a stacked and a finished child |
| StrongComponents.Explorer.Finish | scripts/architecture_policy.py:982-988 | a dry frame: its parent learns its low, and its stretch of the stack is popped as a component exactly when its low is its own index |
| StrongComponents.Explorer.PopComponent | scripts/architecture_policy.py:1000-1008 | pops exactly down to the root, returns the popped nodes sorted, and takes exactly them off the on-stack set |
| StrongComponents.Explorer.Turn | scripts/architecture_policy.py:979-996 | one turn of the inner loop keeps the invariant and discovers a node, closes a frame or moves on to the next child |
| StrongComponents.Explorer.VisitAll | scripts/architecture_policy.py:971-996 | after the roots are gone through, the stacks are empty and every root has been discovered |
| StrongComponents.InitialInv | scripts/architecture_policy.py:964-969 | the empty maps and stacks are in the invariant |
| StrongComponents.StartKeeps | scripts/architecture_policy.py:971-978 | opening an undiscovered root keeps the invariant |
| StrongComponents.DescendKeeps | scripts/architecture_policy.py:989-994 | descending to an undiscovered child keeps the invariant |
| StrongComponents.LookBackKeeps | scripts/architecture_policy.py:995-996 | looking at a discovered child keeps the invariant: low stays a reached index, and a bound on all arcs looked at |
| StrongComponents.ReturnKeeps | scripts/architecture_policy.py:982-985 | a node that reaches below its own index has a parent, and handing it its low keeps the invariant |
| StrongComponents.PopKeeps | scripts/architecture_policy.py:986-987 | popping the stretch of a component's root keeps the invariant |
| StrongComponents.StretchIsComponent | scripts/architecture_policy.py:986-987 | the stack above a finished root is exactly what is mutually reachable with it |
| StrongComponents.AllDiscovered | scripts/architecture_policy.py:971-978 | when all keys are discovered and nothing is open, the popped components cover the whole graph |
| ImportCycles.AdjacencyFor | scripts/architecture_policy.py:952-958 | builds the map from every endpoint to its sorted targets |
| ImportCycles.AdjacencyKeepsArcs | scripts/architecture_policy.py:952-958 | that map has exactly the edges' arcs and endpoints |
| ImportCycles.CyclesAreExact | scripts/architecture_policy.py:1030-1032 | the cycles of a graph's edges are exactly its components of at least two modules |
| ImportCycles.FindCycles | scripts/architecture_policy.py:1028-1043 | reports exactly the module-top cycles, and the effective cycles that are not one of them |
| ImportCycles.EvidenceIs | scripts/architecture_policy.py:1028-1043 | a reported cycle lists exactly the imports of its graph between its members |
| ImportCycles.TopCycleInsideEffective | scripts/architecture_policy.py:1028-1043 | every module-top cycle lies inside exactly one effective cycle |
| ImportCycles.NothingReportedIffAcyclic | scripts/architecture_policy.py:1028-1043 | nothing is reported iff no two modules reach each other; without self-imports, iff the effective graph is acyclic |
| ImportCycles.ComponentMemberships | scripts/architecture_policy.py:1046-1058 | each graph's membership map holds exactly the modules on its cycles, each mapped to its own cycle |
| ImportCycles.MembershipIsMutuality | scripts/architecture_policy.py:1046-1058 | two modules have the same membership iff they are mutually reachable, or neither is on a cycle |
| ImportCycles.VerdictIsMutuality | scripts/architecture_policy.py:1190-1204 | a claim is supported iff it has targets, its source is on a cycle, and each target is mutually reachable with it in the effective graph; module-top support says the same at module top |
| ImportCycles.OffendersAreExact | scripts/architecture_policy.py:1190-1204 | for a source that is not its own target (imports never are, line 743), support is mutual reachability alone, and, on a cycle, the offenders are exactly the targets off it |
| ImportCycles.OffendersOffCycle | scripts/architecture_policy.py:1190-1204 | a source off every cycle supports no claim; the offenders are the targets on a cycle, or all when none is |
| ImportCycles.SupportedClaimIsReported | scripts/check_architecture.py:1089-1103 | the component a supported claim relies on is always among the reported cycles, so a baseline that records these leaves no claim unrecorded |
| ShortestPath.FindShortest | scripts/check_architecture.py:991-1004 | terminates with a path of the least length, or with none iff the source has no entry or the target cannot be reached |
| ShortestPath.Visit | scripts/check_architecture.py:1000-1003 | queueing the unseen neighbours keeps every queued path shortest, the lengths in order, and the expanded nodes closed |
| ShortestPath.NextLevel | scripts/check_architecture.py:995-1003 | when only longer paths wait, everything within that distance has been seen |
| HandlerAnalysis.AnalyseBlock | scripts/exception_policy.py:478-489 | the loops over statements and paths compute the block's path set, about which the lemmas below are proved |
| HandlerAnalysis.AnalyseStatement | scripts/exception_policy.py:563-582 | each kind of statement gives its path set |
| HandlerAnalysis.AnalyseLoop | scripts/exception_policy.py:503-519 | sorting body paths into normal, broken and terminal ones gives the loop's path set |
| HandlerAnalysis.ApplyFinally | scripts/exception_policy.py:522-533 | every pending path meets every path of the finally block, which overrides it unless it falls through |
| HandlerAnalysis.AnalyseTry | scripts/exception_policy.py:536-548 | the path set of a try statement, with an uncaught raise only when it has no handlers |
| HandlerAnalysis.AnalyseMatch | scripts/exception_policy.py:551-560 | the path set of a match statement, with a fall-through unless some case catches all |
| HandlerAnalysis.Classify | scripts/exception_policy.py:585-599 | reduces a body to the class of its path set, which `ClassIsExact` characterises by the runs of the body |
| HandlerAnalysis.Reduce | scripts/exception_policy.py:591-599 | the set-based tests pick the class that the quantified definition gives, which `ClassIsExact` characterises |
| HandlerRuns.BlockSound | scripts/exception_policy.py:478-489 | every run of a block is accounted for by a path with its end (a re-raise told from another raise, and both from an exception of some other statement) and, with logs counted, no claim of a log that the run did not make |
| HandlerRuns.StmtSound | scripts/exception_policy.py:563-582 | the same for every statement: any exception on the way, loop count, handler choice and finally override |
| HandlerRuns.BlockMonotone | scripts/exception_policy.py:478-489 | a completed log stays completed on every run |
| HandlerVerdicts.FromComplete | scripts/exception_policy.py:478-582 | every path of the analysis is the path of a run |
| HandlerVerdicts.ClassIsExact | scripts/exception_policy.py:585-599 | each of the six classes iff its condition on the runs: pass-only iff nothing but docstrings and passes; else cleanup-reraise iff every run re-raises, log-and-raise iff all raise and have logged and some raises anew, raise iff all raise, some anew and some unlogged, log-only iff some run swallows and those that do have logged, silent iff one swallows unlogged |
| HandlerVerdicts.PropagatingIffNeverSwallows | scripts/exception_policy.py:585-596 | a body is classed as propagating iff none of its runs falls through, returns, breaks or continues |
| HandlerVerdicts.LogOnlyLogs | scripts/exception_policy.py:585-599 | without an escaping finally block, every swallowing run of a log-only body has logged |
| HandlerVerdicts.FullLogOnlyIsExact | scripts/exception_policy.py:546-547 | with the uncaught raise kept beside handlers, log-only is exactly: some run swallows, and every swallowing run has logged |
| HandlerVerdicts.LogOnlyIsRightIff | scripts/exception_policy.py:546-547 | the source's log-only verdict is right iff keeping that path does not change it |
| HandlerVerdicts.LogOnlyCanBeSilent | scripts/exception_policy.py:546-547 | a body that is classed log-only and has an unlogged swallowing run |
| HandlerVerdicts.AdmittedIff | scripts/exception_policy.py:374-386 | a prohibited scope admits propagating handlers, and log-only ones under a category that each of its domains tolerates; only two domains tolerate any |
| HandlerVerdicts.FullVerdictIsExact | scripts/exception_policy.py:374-386 | with the uncaught raise kept beside handlers, a prohibited scope admits a handler iff every run of it raises, or has logged under a category that every domain allows |
| HandlerVerdicts.AdmittedReportsIff | scripts/exception_policy.py:374-386 | a handler that the gate admits reports on every run iff it would still be admitted with that path kept |
| HandlerVerdicts.ReportingIsAdmitted | scripts/exception_policy.py:374-386 | a handler that reports on every run is never refused |
| HandlerVerdicts.AdmittedHandlerReports | scripts/exception_policy.py:374-386 | in a prohibited scope, each run of an admitted handler without an escaping finally block raises, or has logged under a category that every domain allows |
| HandlerRatchet.PairMovedIdentities | scripts/check_exception_policy.py:556-581 | the greedy loops account for every count on both sides and leave no pair that could still be paired |
| HandlerRatchet.PairOne | scripts/check_exception_policy.py:569-580 | one new identity against every stale one: afterwards it pairs with none of them |
| HandlerRatchet.PairingConserves | scripts/check_exception_policy.py:556-581 | pairing takes as many handlers of each shape from either side |
| HandlerRatchet.PairingIsExact | scripts/check_exception_policy.py:556-581 | what is left of each shape is exactly the excess of its total, on one side only |
| HandlerRatchet.NothingLeftIff | scripts/check_exception_policy.py:550-581 | no regression is left iff no shape has more handlers than recorded |
| HandlerRatchet.WriteBaseline | scripts/check_exception_policy.py:751-769 | a rewrite is accepted iff no comment is malformed and, unless there was no baseline, no shape has grown; otherwise the baseline stays |
| HandlerRatchet.CheckBaseline | scripts/check_exception_policy.py:762-771 | the ratchet is clean iff the findings equal the baseline: a move alone fails it |
| HandlerRatchet.DebtNeverGrows | scripts/check_exception_policy.py:751-769 | over any history of rewrites no shape's recorded total ever grows |
| ArchitectureRatchet.CompareCounted | scripts/check_architecture.py:764-775 | exactly the counts that are new or have risen, and those gone or fallen |
| ArchitectureRatchet.CompareMembered | scripts/check_architecture.py:784-811 | exactly the new identities in full and the added members of known ones, and the same the other way round |
| ArchitectureRatchet.Difference | scripts/check_architecture.py:1056-1075 | nothing is new iff the observed debt is within the recorded one, and nothing stale iff the recorded is within the observed |
| ArchitectureRatchet.WithinAntisymmetric | scripts/check_architecture.py:1056-1075 | debt within each other is the same debt |
| ArchitectureRatchet.Check | scripts/check_architecture.py:1099-1135 | clean iff no recorded soft cycle has become a hard one, no absolute rule or documentation link is broken, every relied-on component is recorded, and the observed debt is the recorded one |
| ArchitectureRatchet.DowngradesIff | scripts/check_architecture.py:1078-1086 | a baseline is refused as a downgrade iff some members make a recorded effective cycle and an observed module-top one |
| ArchitectureRatchet.ReliedIsObserved | scripts/check_architecture.py:1089-1103 | whatever component a supported claim relies on is part of the observed debt |
| ArchitectureRatchet.ReliedIff | scripts/check_architecture.py:1089-1096 | relied on are exactly the module-top cycles through sources of claims borne out at module top, and the effective ones through sources of claims borne out only there |
| ArchitectureRatchet.ObservedDowngradesNothing | scripts/check_architecture.py:1078-1086 | the observed cycles record no hard cycle as a soft one |
| ArchitectureRatchet.CheckIsEquality | scripts/check_architecture.py:1099-1135 | for what is observed of a graph and its claims, the checks for downgrades and for unrecorded components add nothing to the equality of the debts |
| ArchitectureRatchet.CheckAfterWrite | scripts/check_architecture.py:1099-1163 | right after an accepted rewrite the check is clean iff no documentation link is broken |
| ArchitectureRatchet.RunWrite | scripts/check_architecture.py:1138-1163 | writes iff no recorded soft cycle has become a hard one, no absolute rule is broken and, unless bootstrapping, the observed debt is within the recorded one |
| ArchitectureRatchet.RecordOnlyShrinks | scripts/check_architecture.py:1138-1163 | over any history of rewrites recorded counts never grow, cycles only disappear, claims only lose targets |
| ScopeGlob.CompileGlob | scripts/select_e2e_scopes.py:246-289 | the index loop compiles the pattern piece by piece, or refuses a malformed class |
| ScopeGlob.CompiledIsWritable | scripts/select_e2e_scopes.py:246-289 | compiling merges runs of stars and leaves only pieces that can be written where they stand |
| ScopeGlob.CompileReadsBackIff | scripts/select_e2e_scopes.py:246-289 | the pattern written from some pieces compiles to those pieces iff each can be written where it stands |
| GlobPatterns.PatternIff | scripts/select_e2e_scopes.py:246-289 | any text is a pattern of some pieces iff it is a way to write them (a run or directories with any number of stars) and each can be written where it stands; otherwise it is refused |
| ScopeGlob.MatchingIsSpelling | scripts/select_e2e_scopes.py:246-293 | matching from left to right is the same as being a concatenation of one word per piece |
| GlobClasses.ClassIs | scripts/select_e2e_scopes.py:255-267 | every class is spelt in single characters and ranges; it is accepted iff it has some, no range runs backwards and no slash or backslash occurs, and matches the characters that an item covers, or after an exclamation mark those that none does |
| ScopeGlob.MatchHasLiteralPrefix | scripts/select_e2e_scopes.py:296-302 | a path that a pattern matches begins with the pattern's literal segments |
| ScopeGlob.NoOverlapIsDisjoint | scripts/select_e2e_scopes.py:305-317 | when the test rules an overlap out, no path matches both patterns |
| ScopeGlob.OverlapIff | scripts/select_e2e_scopes.py:305-317 | an overlap is ruled out iff neither pattern's literal segments continue the other's |
| ScopeSelection.ClassifiedByWinner | scripts/select_e2e_scopes.py:783-812 | a matched path gets the outcome of a rule that no matching rule beats in priority or specificity |
| ScopeAcceptance.WinnerIff | scripts/select_e2e_scopes.py:776-794 | a rule wins iff one of its patterns matches and every matching pattern of any rule is of a rule it outranks, or of its own decision with a shorter literal prefix, or an equal one and no longer text |
| ScopeAcceptance.LiteralPrefixIs | scripts/select_e2e_scopes.py:296-302 | the literal prefix is the longest run of leading segments without a pattern character |
| ScopeAcceptance.SplitIs | scripts/select_e2e_scopes.py:296-302 | the segments are what stands between the slashes |
| ScopeArtifact.ReasonIs | scripts/select_e2e_scopes.py:783-825 | the reason for a path is determined: the winner of the least id and its decision, or for an unmatched path an escalation named by whether a known root matches |
| ScopeTheorems.RefusedIffAmbiguous | scripts/select_e2e_scopes.py:793-798 | a path cannot be classified iff two of its best rules decide differently |
| ScopeAcceptance.RelativeIff | scripts/select_e2e_scopes.py:195-208 | a path is accepted iff it has no control or pattern character, no backslash, no drive, no leading slash and no empty, dot or parent segment |
| ScopeAcceptance.AcceptedIff | scripts/select_e2e_scopes.py:832-950 | build_selection accepts iff the event is known, the three ids are 40 lower-case hex digits, each change has the sides of its status and repository paths, no path occurs twice under one status, the best rules of every changed path agree, and a pull request without changes is of one commit |
| ScopeAcceptance.CopyWithItsSource | scripts/select_e2e_scopes.py:832-841 | a modified file and a copy of it, which name one path under two statuses, are accepted |
| ScopeTheorems.OutcomeIsExact | scripts/select_e2e_scopes.py:783-825 | a path escalates iff no rule or some full rule matches it, and is ignored iff rules match it and all are safe-ignore |
| ScopeTheorems.ModeIsExact | scripts/select_e2e_scopes.py:858-891 | a pull request selects everything iff the rollback switch is set, nothing has changed or some changed path escalates, and nothing iff the switch is not set and there are changed paths, all of which can be ignored |
| ScopeTheorems.OtherEventsRunAll | scripts/select_e2e_scopes.py:885-886 | every event but a pull request selects the complete spec root |
| ScopeTheorems.NoneMeansSafe | scripts/select_e2e_scopes.py:472-487 | with a validated map, when nothing is selected no changed path matches a full or selected rule or a known production root, and a safe-ignore rule matches each |
| ScopeTheorems.SelectionFailsClosed | scripts/select_e2e_scopes.py:783-906 | a path that no rule or a full rule matches selects everything; one that a selected rule matches selects something, and at least the specs of its winning rule's scopes |
| ScopeTheorems.NothingSuperfluous | scripts/select_e2e_scopes.py:894-906 | each scope of a narrow selection always runs or is named by the winning rule of a changed path, and each spec path is a selected scope's |
| ScopeTheorems.KeyOrderIsTupleOrder | scripts/select_e2e_scopes.py:828-829 | the reasons' joined sort key orders them as the tuple does |
| ScopeArtifact.ArtifactIs | scripts/select_e2e_scopes.py:858-943 | the artifact names its inputs, has exactly one reason for each path of each change (the rollback reason under the switch), by path and status, and exactly the scopes and spec paths that these call for |
| ScopeArtifact.AcceptedRunsNoLess | scripts/select_e2e_scopes.py:975-1095 | with the reasons of a selective run the selector's validator accepts no artifact that runs fewer scopes or spec paths |
| ScopeArtifact.GateRunsNoLess | scripts/check_e2e_gate.py:170-256 | nor does the gate's accept one with fewer scopes |
| ScopeTheorems.ArtifactAlwaysPasses | scripts/select_e2e_scopes.py:909-943 | what the builder makes from a validated map always passes the selector's own validator and the gate's, which has no map |
| ScopeTheorems.OrderDoesNotMatter | scripts/select_e2e_scopes.py:832-855 | the artifact, or the refusal, is the same for every order of the changes; which are refused says `AcceptedIff` |
| ScopeTheorems.MoreChangesSelectMore | scripts/select_e2e_scopes.py:858-943 | adding changes to an accepted non-empty pull request never lowers the mode or drops a spec |
| ScopeExample.SomethingIsIgnored | scripts/select_e2e_scopes.py:601-637 | a map that passes every check and a pull request for which it selects nothing |
| NameStatus.ParseNameStatus | scripts/select_e2e_scopes.py:734-756 | the token loop reads git's NUL-delimited list of changes |
| NameStatus.ListingIsExact | scripts/select_e2e_scopes.py:712-756 | it accepts exactly what git may print for valid changes, and reads it as those changes |
| DiffPaths.DecodeIsInverse | scripts/check_diff_coverage.py:209-213 | strict decoding gives a string iff that string's UTF-8 encoding is what was decoded |
| DiffPaths.UnquotePath | scripts/check_diff_coverage.py:179-213 | the index loop unescapes a quoted path, with the refusals of the source |
| DiffEscapes.UnescapedIff | scripts/check_diff_coverage.py:188-208 | the inside of a quoted path is read iff it is written in plain characters, the nine letter escapes and three octal digits up to 377, as their bytes |
| DiffEscapes.ByteRangeIff | scripts/check_diff_coverage.py:203-206 | the one refusal that is not a policy error: an octal escape above 377 after such text |
| DiffEscapes.UnquotedIff | scripts/check_diff_coverage.py:188-213 | a quoted path is read as the text that those bytes encode, any other as it stands |
| DiffEscapes.NormaliseIs | scripts/coverage_policy.py:139-144 | normalising turns backslashes into slashes and drops every leading ./, and nothing else |
| DiffPaths.UnquoteUndoesQuoting | scripts/check_diff_coverage.py:179-213 | for every byte string, unquoting what git prints gives the text it encodes, or a refusal when it is not UTF-8 |
| DiffPaths.HeaderNamesPath | scripts/check_diff_coverage.py:216-226 | a file header gives back its path, normalised, whatever characters it contains |
| DiffPaths.RenameIsReadIff | scripts/check_diff_coverage.py:352-353 | a rename's destination is read back iff it is not under a top-level directory b |
| DiffPaths.SplitHeaderPaths | scripts/check_diff_coverage.py:235-266 | the scan splits a header into its tokens and refuses anything but two |
| DiffPaths.QuotedEnd | scripts/check_diff_coverage.py:245-259 | the scan of a quoted token ends at its first unescaped quote |
| DiffPaths.QuoteClosesAtEnd | scripts/check_diff_coverage.py:245-259 | for every path that git quotes, that quote is its last character |
| DiffPaths.ReadSectionPath | scripts/check_diff_coverage.py:269-292 | the search takes the first cut at a space that leaves one path on both sides |
| DiffPaths.OnlyTheMiddleCut | scripts/check_diff_coverage.py:285-292 | in the header of an unmoved file without quotes, only the middle cut does, because of the lengths |
| DiffPaths.SectionHeaderNamesPath | scripts/check_diff_coverage.py:269-292 | the section header of every path, quoted or not, gives back that path |
| DiffPaths.HeaderIsReadIff | scripts/check_diff_coverage.py:269-292 | the header of a moved file is readable iff not: old path quoted, new path unquoted with a space inside |
| DiffReader.LineReader.Read | scripts/check_diff_coverage.py:317-340 | one line: the whole new state of the reader, or the refusal, which `ReadableIff` characterises over all lines |
| DiffReader.LineReader.Header | scripts/check_diff_coverage.py:342-378 | one line of a section's header |
| DiffReader.LineReader.Open | scripts/check_diff_coverage.py:368-372 | a hunk adds its post-change lines to the current path, and nothing to a deleted one |
| DiffReader.ParseDiff | scripts/check_diff_coverage.py:387-405 | folds the reader over the lines and keeps the paths that got a line |
| DiffAcceptance.ReadableIff | scripts/check_diff_coverage.py:317-378 | over any lines, reading succeeds iff each stands where the format allows it: no `---`, `+++` or `@@` line before the first section; in a header only listed prefixes with readable paths, a hunk after a file header and with readable numbers unless the file is deleted, a binary marker only in a named section; after that only hunks and body lines |
| DiffAcceptance.ReadsExactly | scripts/check_diff_coverage.py:368-385 | a path then has exactly the lines that hunk headers under its name give, and is opaque iff a binary marker stands under its name |
| DiffAcceptance.HunkRangeIff | scripts/check_diff_coverage.py:166-176 | a hunk header is read iff it is written in two ranges of decimal digits, as its second one |
| DiffAcceptance.UnanchoredIsRefused | scripts/check_diff_coverage.py:329-334 | file and hunk headers without a section are refused |
| DiffReader.HunkReadsBack | scripts/check_diff_coverage.py:166-176 | every printed hunk header reads back as its post-change range, an omitted count as one line |
| DiffReader.TextIsIgnored | scripts/check_diff_coverage.py:336-340 | replacing the text of any hunk body line changes nothing in the answer |
| DiffReader.SectionIsRead | scripts/check_diff_coverage.py:342-378 | a printed file section (by line, added, deleted, moved, metadata only or opaque) adds exactly what it says, or is refused for its header line |
| DiffReader.DiffReadsBack | scripts/check_diff_coverage.py:295-405 | reading any printed diff gives exactly each path's post-change lines and the opaque files; it is refused iff some header line cannot be split |
| DiffReader.ParseReadsBack | scripts/check_diff_coverage.py:380-405 | in the result a path appears iff some hunk gave it a line, with exactly those lines |
| LineRanges.RangesOf | scripts/check_diff_coverage.py:475-482 | sorts any numbers and compresses them into ranges that hold exactly them; there is a gap between any two ranges iff no number was repeated |
| LineRanges.RangesAreUnique | scripts/check_diff_coverage.py:475-482 | ranges with gaps between them are determined by the numbers they hold |
| LineRanges.ReportNamesLines | scripts/check_diff_coverage.py:475-483 | two sets of lines have the same text only when they are the same |
| AcyclicCheck.CountDegrees | scripts/migration_audit.py:514-518 | the successors of every node and its number of sources |
| AcyclicCheck.Release | scripts/migration_audit.py:524-528 | taking one edge off each target readies exactly those that then wait for nothing |
| AcyclicCheck.TakeFirst | scripts/migration_audit.py:521-528 | one turn visits a ready node, and no cycle goes through a visited one |
| AcyclicCheck.FindsCycle | scripts/migration_audit.py:513-529 | terminates, and is true iff the graph has a directed cycle |
| AcyclicCheck.EverySourced | scripts/migration_audit.py:529 | nodes that all have a source among themselves contain a cycle |
| MigrationAudit.ValidateLinks | scripts/migration_audit.py:548-560 | the loop with its per-app map accepts iff each shard depends on the one before it and on its app's previous one |
| MigrationAudit.ValidateShardChain | scripts/migration_audit.py:532-561 | accepts iff no replacement is numbered, or all are, contiguously from 1 and linked; and counts the explicit chain edges |
| MigrationFields.ShardChainIff | scripts/migration_audit.py:532-561 | accepted iff no migration is numbered, or all are, from 1 to n, and each depends on the one numbered before it and on the last earlier one of its app |
| MigrationFields.AppIs | scripts/migration_audit.py:543-553 | the app of a migration is the part of its id before the first dot |
| MigrationAudit.BuildEffectiveGraph | scripts/migration_audit.py:722-790 | accepts iff coverage is complete and unambiguous, first-party references are known, and the folded graph is acyclic; then gives that graph |
| MigrationFields.CoveredIff | scripts/migration_audit.py:722-764 | before the cycle test, accepted iff the shards are chained, every replaced migration is in the history (if there is one), none is replaced twice, all of the history is replaced, and every first-party migration that a shard names is known |
| MigrationFields.HistoryArcIff | scripts/migration_audit.py:694-716 | the history has an arc iff the second migration depends on the first, the first runs before the second, or the first is the only bootstrap of the users app and the second is swappable |
| MigrationFields.EffectiveArcIff | scripts/migration_audit.py:765-785 | the folded graph has an arc iff the two are different shards of migrations with a historical arc, or the second depends on the first, or the first runs before the second or something it replaces |
| MigrationFields.ArcsGoUp | scripts/migration_audit.py:765-787 | in an audited layout whatever shard precedes another has the smaller number |
| MigrationFields.ShardsReplayHistory | scripts/migration_audit.py:694-716 | if one historical migration depends on, runs after or is bootstrapped by another, its shard has a number no smaller |
| MigrationAudit.ByTargetIs | scripts/migration_audit.py:739-741 | the map from targets covers exactly the replaced migrations and names a replacement of each |
| MigrationAudit.EdgesJoin | scripts/migration_audit.py:765-785 | every historical edge joins historical migrations, and every folded edge replacements |
| MigrationAudit.LastShardIsOnlyLeaf | scripts/migration_audit.py:532-561 | in an audited graph the last shard of the chain is the only leaf |
| MigrationAudit.AuditIsPossible | scripts/migration_audit.py:722-790 | a history of one migration and one shard that replaces it pass the audit |
| MigrationAudit.ValidatePostTransition | scripts/migration_audit.py:564-588 | accepts iff every later migration knows its first-party dependencies and depends on every leaf |
| MigrationFields.MayFollowIff | scripts/migration_audit.py:564-588 | on the fields: every first-party dependency is an effective or a later migration, and every effective one without an arc out is depended on |
| MigrationAudit.LaterFollowsEveryShard | scripts/migration_audit.py:564-588 | an accepted later migration depends, transitively, on every shard |
| MigrationAudit.ChainRespectsHistory | scripts/migration_audit.py:765-769 | the shard of a historical migration comes no later in the chain than the shard of anything that transitively depended on it |
| AssetArchive.Registry.ArchiveQueryset | itambox/assets/archive_services.py:152-159 | stamps exactly the rows of one queryset |
| AssetArchive.Registry.ArchiveRows | itambox/assets/archive_services.py:137-160 | stamps exactly the archivable rows of all five tables and counts them |
| AssetArchive.Registry.DetachRequests | itambox/assets/archive_services.py:163-176 | cancels exactly the open requests that name the asset and counts them |
| AssetArchive.Registry.EndSubscriptions | itambox/assets/archive_services.py:179-188 | ends exactly the live subscriptions of the asset and counts them |
| AssetArchive.Registry.ArchiveAsset | itambox/assets/archive_services.py:229-265 | the whole service on the tables: refusal, no-op or archive, whose conditions and effects the rows of `ArchiveFields` state on the columns |
| AssetArchive.Registry.RestoreAsset | itambox/assets/archive_services.py:314-336 | the whole service on the tables: refusals, no-op or restore |
| ArchiveFields.RestoreWrites | itambox/assets/archive_services.py:268-336 | an archived asset comes back, with exactly its marked rows of its own instant, unless its serial number, else software of those rows, is in use; which refusal it gets |
| AssetArchive.RefusedIffObliged | itambox/assets/archive_services.py:103-123 | a live asset's archive is refused iff an active assignment from or to it, open maintenance, a live reservation, a held seat or an open checkout exists |
| ArchiveFields.ArchivedIff | itambox/assets/archive_services.py:103-123 | a live asset is archived iff no live active assignment has it as asset or target, no live maintenance of it is scheduled or in progress, no live reservation pending or active, and no undeleted seat or checkout is on it; otherwise refused |
| ArchiveFields.ArchiveWrites | itambox/assets/archive_services.py:137-265 | a done archive stamps the asset and exactly its live rows, cancels exactly the undeleted requests that name it as asset or target and are pending, approved or in procurement, ends exactly its subscriptions, drops exactly its contracts, and leaves it without obligations |
| ArchiveFields.RefusalCounts | itambox/assets/archive_services.py:107-123 | a refusal reports how many of each obligation there are, and changes nothing |
| ArchiveFields.TargetOfAssignmentIsKept | itambox/assets/archive_services.py:103-104 | an asset that is only the target of an active assignment is refused |
| AssetArchive.ArchiveLeavesNoLiveRow | itambox/assets/archive_services.py:137-145 | refusals and archive filters are complements: a done archive leaves no live leaf row of the asset |
| AssetArchive.ArchiveSettles | itambox/assets/archive_services.py:229-265 | a done archive takes the asset out of open requests, subscriptions and contracts, touches nothing of another asset, deletes nothing for good but contract links, and reports exactly what it changed; otherwise nothing changes |
| AssetArchive.ArchiveThenRestore | itambox/assets/archive_services.py:314-336 | archive then restore brings back the asset and every leaf row, but for left-over markers, and besides exactly the marked rows deleted earlier at that very instant; refused iff another live asset has its tenant (or none) and serial number |
| AssetArchive.EarlierIsFresh | itambox/assets/archive_services.py:268-283 | when every deletion lies before the archive, there are no such rows |
| AssetArchive.RestoredWasArchived | itambox/assets/archive_services.py:268-283 | over every run from an empty trash in which no two events delete an asset or rows of it at one instant, a restore brings back exactly the rows that the asset's own archive moved and nothing touched since, as they were before it |
| AssetArchive.RestoreKeepsSlotsIff | itambox/assets/archive_services.py:286-311 | a restore that is not refused keeps the unique slots iff the rows it brings back share none among themselves |
| AssetArchive.UncheckedBreaksIff | itambox/assets/archive_services.py:286-311 | writing a restore without its checks breaks a unique slot iff the software check would refuse, the serial check would refuse for an asset with a tenant, or the rows to bring back share a slot |
| AssetArchive.NextKeeps | itambox/assets/archive_services.py:229-336 | every event keeps the slots unique, and the rows of an asset deleted at one instant apart, provided it deletes none at an instant at which rows of that asset were deleted before |
| AssetArchive.SlotsStayUnique | itambox/assets/archive_services.py:286-336 | over every run of archives, restores, saves, deletions, repeated deletions, undeletions and purges in which no two events delete rows of one asset at one instant, from unique slots and a trash that holds no slot twice at one instant and no instant of the run, the serial and the software slot stay unique, and no restore that passes its own checks is left for the database to refuse |
| AssetArchive.SameInstantCollides | itambox/assets/archive_services.py:268-311 | a run from an empty trash, with distinct operation markers and times that never go back, whose last restore passes its own checks and would break the software slot, because two deletions share an instant; the database constraint refuses it |
| Projection.RequiredNames | scripts/check_typing_policy.py:992-1003 | the bounded loop always ends at a fixpoint, the least set with the signature names that is closed under needed assignments and guarded imports |
| Projection.ClosedIff | scripts/check_typing_policy.py:988-1000 | closed means: an assignment that binds a required name has all it loads required, and so has the test of a guard one of whose imports, in either branch, binds one |
| Projection.Round | scripts/check_typing_policy.py:996-1000 | a round that adds a name serves a statement that no round served before |
| Projection.CopySpan | scripts/check_typing_policy.py:946-949 | copies exactly the lines of a span, in place |
| Projection.CopyImport | scripts/check_typing_policy.py:952-970 | blanks an import's lines and writes the wanted names at its first |
| Projection.StubBodies | scripts/check_typing_policy.py:973-985 | blanks every outermost function body, from the line of the first statement's own keyword on, and writes its stub there, in place |
| Projection.ProjectStatement | scripts/check_typing_policy.py:1006-1020 | what one statement of each kind does to the projected lines |
| ProjectionLines.ProjectSymbols | scripts/check_typing_policy.py:1023-1039 | as many lines as the module has, each of them the line that the least required names call for |
| ProjectionLines.LineIsDecided | scripts/check_typing_policy.py:1006-1039 | each line is what the last shown statement on it makes of the module's line, whatever stood there before, and blank when there is none |
| ProjectionLines.ShownIff | scripts/check_typing_policy.py:1006-1020 | shown are admitted definitions, imports from `__future__` or of a required name, guards one of whose imports binds one, and assignments that bind one |
| ProjectionLines.OvertakenIsLost | scripts/check_typing_policy.py:1036-1038 | a statement with a later shown one on its line has no influence on that line: any other in its place gives the same |
| ProjectionLines.DefinitionIsStubbed | scripts/check_typing_policy.py:973-985 | where an admitted definition decides, a line that no body takes (decorators of a body's first statement are taken by none) stands where it stood, and the last body on a line gives its stub or a blank |
| ProjectionLines.StubHidesBodyIff | scripts/check_typing_policy.py:973-985 | of a body (bodies share no lines) nothing but the stub is shown iff no decorator stands before its first statement |
| ProjectionLines.DecoratorIsLeft | scripts/check_typing_policy.py:976-983 | a function that keeps the decorator of its first statement above the stub |
| ProjectionLines.ImportIsFiltered | scripts/check_typing_policy.py:952-970 | where a shown import decides, its first line holds exactly its required names (all names of a `__future__` import), of which there is at least one, at the old indentation, and its other lines are blank |
| ProjectionLines.WantedInOrder | scripts/check_typing_policy.py:954-959 | the names kept are exactly the required ones, in the import's order |
| ProjectionLines.IndentationIs | scripts/check_typing_policy.py:969 | the indentation is the longest run of spaces, tabs and form feeds in front |
| ProjectionLines.AssignmentStays | scripts/check_typing_policy.py:1006-1020 | where a needed assignment decides, the line stands as it stood |
| ProjectionLines.SharedImportIsLost | scripts/check_typing_policy.py:952-970 | of two required imports on one line only the second is left |
| ProjectionLines.SharedAssignmentIsLost | scripts/check_typing_policy.py:952-970 | a needed assignment on one line with a later required import is lost |
| ProjectionLines.KeptIsShown | scripts/check_typing_policy.py:1014-1018 | an import of a guard that keeps a name, and whose first line no later import of it takes, stands there with those names |
| ProjectionLines.DroppedIsBlank | scripts/check_typing_policy.py:959-963 | a line of imports on which no kept import begins is blank |
| ProjectionLines.UnkeptIsBlank | scripts/check_typing_policy.py:959-963 | with imports on lines of their own, the first line of an import that keeps no name is blank |
| ProjectionLines.EmptiedIsBlank | scripts/check_typing_policy.py:1014-1018 | every line that an import of an emptied branch decides is blank |
| ProjectionLines.BranchIsEmptiedIff | scripts/check_typing_policy.py:1014-1018 | a branch is emptied iff each of its imports that binds a required name has its first line taken by a later import of the guard |
| ProjectionLines.GuardStaysWholeIff | scripts/check_typing_policy.py:1014-1018 | neither branch of a guard is left without imports iff each that has some has one that binds a required name and whose first line no later import takes |
| ProjectionLines.GuardOnOwnLinesIff | scripts/check_typing_policy.py:1014-1018 | with imports on lines of their own: iff each branch that has some binds a required name |
| ProjectionLines.GuardLosesBody | scripts/check_typing_policy.py:959-963 | a shown guard whose body binds a required name and is left empty, because two imports share a line |
| ProjectionLines.GuardLosesElse | scripts/check_typing_policy.py:1014-1018 | a shown guard whose else branch is left empty |
| ProjectionLines.GuardHeaderStaysIff | scripts/check_typing_policy.py:1014-1018 | a guard's first line stays unless an import begins on it, which then takes its place |
| ProjectionLines.StubKeepsHeaderIff | scripts/check_typing_policy.py:979-983 | the stub line keeps the text before the body iff that text is ASCII |
| CustomFields.Resolver.MergeResolvedField | itambox/assets/customfields.py:51-66 | merging one membership through the index map keeps the list equal to the simple resolution of all occurrences so far |
| CustomFields.MergeFieldset | itambox/assets/customfields.py:77-86 | the same for all memberships of one fieldset |
| CustomFields.ResolveFieldsets | itambox/assets/customfields.py:69-87 | the loops compute the simple resolution of all occurrences of active fieldsets |
| CustomFields.OccurrencesAre | itambox/assets/customfields.py:69-87 | what is merged are exactly the composed fields of active fieldsets that target the model, deprecated ones only with a stored value, in fieldset and position order, each with its fieldset's identity |
| CustomFields.EntriesAreFirstOccurrences | itambox/assets/customfields.py:51-66 | entries stand in the order of their names' first occurrences and hold those definitions |
| CustomFields.CompositionIsUnique | itambox/assets/customfields.py:69-87 | one entry per contributed name, with the sources of all its occurrences in order, read-only iff deprecated |
| CustomFields.SourcesAre | itambox/assets/customfields.py:51-66 | the sources of an entry are those of all occurrences of its name, in order |
| CustomFields.ResolveEffective | itambox/assets/customfields.py:90-118 | the loop with its seen set appends the global fields that are still missing |
| CustomFields.GlobalsAreAppended | itambox/assets/customfields.py:99-118 | the composed entries stay where they are, names stay unique, every applicable global name is present, and what is appended has no source |
| CustomFields.AppendedInOrder | itambox/assets/customfields.py:99-118 | appended are exactly the usable globals whose name nothing before them has, in the order of the globals |

## Left out

- Git, the file system, JSON, XML, the `ast` parser and the regular-expression engine are inputs: statements, edges, lines, patterns and rows come already parsed; the glob grammar and the hunk header are modelled character by character.
- Messages, evidence counts, audit entries, exit codes and printed reports, except for the line ranges.
- Sorted output where only membership is used: the reported cycles and the moves of a pairing are given as sets or in any order, and the ready list of the cycle test is a set whose least element is taken.
- The test that a simple statement logs (`_statement_logs_unconditionally`) is a bit of each statement. In the semantics of handlers a `with` statement suppresses nothing.
- ImportCycles.SupportedClaimIsReported: component identities are pairs of a graph and its members, not joined strings, because module names contain no separator.
- HandlerRatchet.CheckBaseline: bare and prohibited handlers, which fail the gate independently of the ratchet, and the one-way migration of an older baseline format are not part of this model.
- ArchitectureRatchet.Check: tracking issues and what the loader asks of hand-written rows are not part of this model; broken absolute rules and documentation links are sets.
- ArchitectureRatchet.RunWrite: the human metadata carried over to the written rows.
- ScopeSelection: a validated map keeps what selection depends on; the catalog's frozen names, owners and path overlaps, and how spec files are found, are left out. The digest of the changes is the set of changes itself.
- ScopeTheorems.ArtifactAlwaysPasses: both validators are modelled at least as strict as they are; for a rename they insist on both paths, where the code compares each with itself.
- NameStatus.ListingIsExact: decimal digits are those of Unicode 15.0 (Python 3.12); the limit of `int` on runs of more than 4300 digits, which a hunk header could exceed, is not modelled.
- DiffReader.ParseDiff: starts from lines; the extra line boundaries of `splitlines()` are not modelled.
- MigrationAudit.BuildEffectiveGraph: parsing of migrations, the reviewed dispositions and the inventory written from the graphs.
- AssetArchive.NextKeeps: a purge takes an asset or a row out of the tables; assignments that name a purged asset as their target keep that name, which no operation reads, and saving a deleted row changes nothing.
- AssetArchive: one tenant scope; a transaction is all or nothing, so row locks and concurrent requests do not appear; the counts of kept evidence are left out.
- AssetArchive.SlotsStayUnique: whatever brings a row or an asset to life is refused by the database when it would take a slot (itambox/assets/models/asset.py:401-405, itambox/software/models.py:200-204); such a refusal leaves the tables as they were.
- Projection.CopyImport: how an import with fewer names is printed is a parameter, and so are the spans of statements and bodies.
- CustomFields: the order of memberships and of global fields is that of the query.
- The other counting ratchets, the coverage tolerance, the certification and signature checks, and the Django views, forms and admin: each is settled by reading its branches.
