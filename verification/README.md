# Workstream: a verified model of its custody, budget and gate logic

Workstream runs contribution projects: it stores durable events and hands them to handlers, pays
for model calls out of project budgets, and guards its own repository with scripts that decide
which changes may land. This project models the parts of that code whose correctness spans many
steps or many functions, and proves what they promise.

| area | files | what is proved |
|---|---|---|
| Outbox delivery | `OutboxDelivery`, `OutboxSafety`, `OutboxGuarantees`, `OutboxReceipts`, `OutboxProgress` | Any number of workers with different registrations and limits, stale or invented claims and receipts, an arbitrary clock and arbitrary authority answers: calls are bounded, unknown effects are never repeated, finished events are frozen, all finalizations of a lease report one receipt, and exactly which events a fleet can still finish. |
| Model usage ledger | `ModelUsage`, `ModelUsageLedger`, `ModelUsageBudgets`, `ModelUsageGuarantees`, `ModelUsageReplay` | Over every run of operations, account counters equal the sums over their calls, no project or run overspends, each call settles once, budget versions have no gap, every operation can be repeated at once and it is known which still can be after any continuation, and no conservation guard ever blocks a settlement. |
| Behaviour catalogue | `Catalogue`, `CatalogueRuns` | The validator accepts exactly the heads in which each protected behaviour has one effective owner; along a run of heads evidence never shrinks, owners merge exactly where the first base already supersedes a neighbour, and records are conserved. |
| Path partition | `Partition`, `PartitionRuns` | The validator accepts exactly the allowed transitions; along a run, moves and replacements are one-way. |
| Context evidence | `ContextEvidence`, `ContextValidation` | The builder's rows are exact, and its artifact passes the validator exactly when callable names are distinct and ASCII and node names valid. |
| Process runner | `ProcessRunner` | The read loop ends against every child, clock and scheduler; every byte read is charged; a started child is killed, reaped and closed exactly as far as the calls that do so succeed. |
| Import boundary | `DynamicImports`, `ImportAliases`, `ImportResolution`, `ImportEdges`, `ImportSpelling`, `BoundaryLedger`, `LedgerRoundTrip`, `LedgerAcceptance`, `TextOps` | The recursive visitor is a left-to-right scan that judges each node by the names bound above it, import resolution is Python's rule, the scan finds exactly the private edges however they are spelled, ledgers round-trip, and exactly which edge sets a ledger can declare. |
| Record checks | `MarkdownViews`, `MarkdownSections`, `SectionBodies`, `RelocationCustody` | The in-place projection equals a per-line predicate, a section searched in one view is a run of whole lines of the other, and accepted archives hold unchanged content. |
| Parsers and printers | `GitDecoders`, `GitTruncation`, `PdfWriter`, `PdfRoundTrip`, `Frames`, `Ordering` | Decoders invert encoders, with the exact entries on which they do not; what is decoded of output cut off at any character; the PDF reader recovers what the writer wrote exactly while offsets fit ten digits. |
| Traversal and sums | `RouterSearch`, `SourceInventory`, `Numstat` | Searches over cyclic graphs and trees return exactly what is reachable; limits checked step by step equal limits on the whole; sums are conserved. |
| Sequences | `Sequences`, `Wrappers` | Facts about repeats and permutations that several areas share. |
| Policy generator | `AwsPolicies`, `AwsGuarantees` | For every request, what the generated policies allow and deny. |

Concurrency is modelled as runs: a list of committed transactions, each of which locks one row, with
everything a worker read earlier passed in as an arbitrary value. Clocks, authority decisions, Git,
the file system, the database and regular expressions are inputs. An operation that raises returns a
refusal and leaves the state alone, as its transaction rolls back.

Some results differ from what a reader of the code might expect. Each is a lemma with a concrete
input, or a family of them, beside the exact condition under which the code does what is expected.

* In a fleet whose workers differ, an event can be stranded: a worker that does not register its kind
  may recover its expired claim as retryable when no worker that registers it allows another attempt.
  `OutboxProgress.MixedFleetStrands` is such a run, `OutboxProgress.FinishableExactly` says which events
  a fleet can finish, and `OutboxProgress.NeverStuck` gives a condition on the fleet alone.
* Git output that is cut off inside the last path decodes to a shorter path without a complaint, since
  no decoder asks for the final NUL (`GitTruncation.CutPathPasses`). `GitTruncation.CutEntriesDecode` and
  `GitTruncation.CutRowsDecode` give the outcome of a cut at every character.
* A rename in the work tree alone is misread, its old path becoming an entry of its own; the status
  decoder inverts Git's format exactly when there is none (`GitDecoders.EntriesRoundTrip`).
* The process runner's cleanup stops at the first call that raises: if the kill is denied, the child is
  neither reaped nor closed. `ProcessRunner.Child.CleanUp` says exactly how far it gets.
* The PDF serializer pads offsets to ten digits but never cuts them. `PdfRoundTrip.RoundTrip` gives
  the exact condition: the file reads back if and only if the last object starts below 10^10.
* A context artifact can be refused by its own validator: it passes exactly when the target's callable
  names are distinct, each is an ASCII name, and each node name is valid
  (`ContextValidation.BuiltAcceptedExactly`). A function called `café` is enough to be refused
  (`ContextValidation.AccentedNameRefused`).
* A base catalogue in which one record supersedes its neighbour can lose the neighbour: the head is
  accepted, one record owns both behaviours and the catalogue shrinks
  (`CatalogueRuns.NeighbourAbsorbed`). `CatalogueRuns.OwnersMergeExactly` and
  `CatalogueRuns.RecordsConserved` say exactly when owners merge and how many records there are.
* The import visitor judges a node by the names bound above it, so a use of `s.modules` that stands above
  `import sys as s`, as in a function body, is accepted (`ImportAliases.EarlyUseAccepted`).
  So is a use through a copy `t = sys` (`ImportAliases.CopyAccepted`). `ImportAliases.AcceptedExactly`
  gives the condition position by position. Among uses spelled `x.modules` or `getattr(x, ..)` whose name
  got `sys` by an import or by assignments from such a name, `ImportAliases.TouchesExactly` says exactly
  which ones an accepted tree can hold.
* The relocation checks do not force every base-tree path into the archive, and neither does the pinned
  manifest digest: the manifest that carries it has 752 rows against the 1366 paths its inventory
  records. `RelocationCustody.LeftBehind` gives accepted evidence that leaves a path behind, and
  `RelocationCustody.NothingLeftBehind` the exact condition under which none is.

## Model

| member | source | states |
|---|---|---|
| OutboxSafety.OutcomeMeaning | backend/app/modules/outbox/delivery.py:93-144 | Every outcome that can be computed says what it means: acknowledged only for an invoked, unexpired lease; unknown only for an invoked one; retryable exactly when it carries a next attempt and no end. |
| OutboxSafety.OutcomeExactly | backend/app/modules/outbox/delivery.py:93-144 | Which cause gives which outcome, both ways: unknown exactly for an invoked lease that expired or whose cause is unknown, acknowledged exactly for an acknowledgement inside an invoked lease, retryable exactly with attempts left and a cause that allows it; none exactly for an early expiry or an uninvoked result. |
| OutboxSafety.BackoffBounded | backend/app/modules/outbox/delivery.py:118-135 | Retry delays stay between base and cap and never shrink with the generation. |
| OutboxSafety.RunKeepsInv | backend/app/modules/outbox/delivery.py:213-470 | Every interleaving of claim, invoke and finalize transactions keeps the custody invariant: attempts are exactly the generations, superseded ones completed and retryable, each retry due one backoff after its completion, the newest one agrees with the row, calls are the invoked generations in order, and every proposed lease is for a reached generation or a row still waiting and due. |
| OutboxSafety.RunIsLater | backend/app/modules/outbox/delivery.py:213-470 | No step undoes custody: completed attempts are frozen, invoked ones stay invoked, call history only grows, a finalized event never changes. |
| OutboxGuarantees.HandlerCallsBounded | backend/app/modules/outbox/delivery.py:278-328 | A lease is invoked at most once and before it expires; one event is called at most as often as the largest attempt limit in the fleet. |
| OutboxGuarantees.NoUnsafeReplay | backend/app/modules/outbox/delivery.py:330-358 | Unless a worker declares the handler replay-safe, a second call happens only after the handler itself asked for a retry inside its lease. |
| OutboxGuarantees.BackoffRespected | backend/app/modules/outbox/delivery.py:223-257 | However stale its snapshot, no worker starts an attempt before the backoff of the completed one before it has passed, a delay of some worker's options and at least its base. |
| OutboxGuarantees.RetryRequestedOnlyByRetry | backend/app/modules/outbox/delivery.py:125-130 | The retry-requested code arises exactly from a retry of an invoked, unexpired lease with attempts left. |
| OutboxGuarantees.FinalizedForEver | backend/app/modules/outbox/delivery.py:398-470 | After acknowledgement or dead-lettering, no continuation changes any column, attempt or call of the event. |
| OutboxGuarantees.AcknowledgedMeansHandled | backend/app/modules/outbox/delivery.py:123-124 | An acknowledged event's last handler call is its current generation and was completed inside that lease. |
| OutboxGuarantees.UnknownEndsDelivery | backend/app/modules/outbox/delivery.py:112-117 | An unknown invocation of a handler that is nowhere replay-safe dead-letters the event for ever. |
| OutboxGuarantees.InvocationFenced | backend/app/modules/outbox/delivery.py:278-309 | An invocation takes effect if and only if it presents the current, unexpired, not yet invoked lease of a registered event and is allowed; the payload check never refuses such a lease. |
| OutboxGuarantees.ClaimFenced | backend/app/modules/outbox/delivery.py:241-276 | A proposed lease is taken if and only if its generation is still next, the row is due and the lease unexpired by the locked clock, and it is allowed; it then is the current lease, and no other check under the lock ever refuses. |
| OutboxGuarantees.FinalizationFenced | backend/app/modules/outbox/delivery.py:398-470 | A finalization writes if and only if it is allowed and presents the current lease with the outcome of its cause at a past time, before the expiry it claims to precede; it then completes that lease with exactly that outcome and ends it. |
| OutboxGuarantees.OneReceiptPerLease | backend/app/modules/outbox/delivery.py:360-396 | With arbitrary other steps between its reads and writes, a successful finalize call reports the outcome the lease durably carries. |
| OutboxReceipts.ReceiptsAgree | backend/app/modules/outbox/delivery.py:360-470 | However the reads and locks of two finalize calls of one lease interleave with each other and with other workers in one run, if both succeed they report the same receipt. |
| OutboxReceipts.SuccessCarried | backend/app/modules/outbox/delivery.py:360-470 | The receipt a successful finalize call reports is the outcome the lease carries at the end of every run the call is part of. |
| OutboxGuarantees.FinalizeReplays | backend/app/modules/outbox/delivery.py:360-425 | Repeating a finalization of a completed lease writes nothing and returns the stored receipt exactly when its cause yields that outcome at the stored time. |
| OutboxGuarantees.ExpiredLeaseRecovers | backend/app/modules/outbox/delivery.py:360-485 | With arbitrary steps of other workers between its snapshot and its locks, recovery of an expired lease by an allowed caller commits exactly when nobody wrote the attempt meanwhile; otherwise it was completed or invoked meanwhile. It records unknown exactly when the generation was invoked. |
| OutboxProgress.FinishableExactly | backend/app/modules/outbox/delivery.py:205-470 | After any run of any fleet and for any later fleet and moment: an event can be finished if and only if it is finished, or claimed and some worker can end the claim, or waiting and some worker registers its kind with attempts left or a proposed lease can still be taken and ended. |
| OutboxProgress.NeverStuck | backend/app/modules/outbox/delivery.py:205-470 | If some worker that registers the kind allows as many attempts as any worker of the fleet, every event of the kind can be finished from every reachable state and every moment, in at most six steps. |
| OutboxProgress.MixedFleetStrands | backend/app/modules/outbox/delivery_repository.py:119-127 | A worker that does not register a kind and allows more attempts than the one that does can recover its claim into a state that no continuation of the two ever finishes. |
| OutboxGuarantees.WorkBounded | backend/app/modules/outbox/delivery.py:213-470 | However long the run, one event is written at most once at creation and three times per allowed attempt. |
| ModelUsageLedger.ReservationInRange | backend/app/modules/model_usage/api.py:197-224 | A valid profile's dispatch reservation is positive and fits its run reservation. |
| ModelUsageLedger.CostWithinReservation | backend/app/modules/model_usage/api.py:1192-1209 | Usage has a cost exactly when its classes are consistent and within the token limits, and then never above the dispatch reservation: the whole-run cost check cannot fire. |
| ModelUsageLedger.RunKeepsInv | backend/app/modules/model_usage/service.py:330-1227 | Every sequence of budget, prepare, retry, reserve, uncertain, complete and release operations keeps rows, slot chains, account balances and run caps. |
| ModelUsageGuarantees.BudgetConserved | backend/app/modules/model_usage/service.py:653-756 | A project's counters are exactly its outstanding reservations and settled costs, each settled cost is the price of the recorded usage, and prior spend plus both never exceeds what was authorized. |
| ModelUsageGuarantees.RunWithinProfile | backend/app/modules/model_usage/repository.py:217-252 | A whole run never makes more calls, spends more, or uses more bytes or tokens than its profile allows, although each check only sees the dispatches so far. |
| ModelUsageGuarantees.PendingCallSettles | backend/app/modules/model_usage/service.py:970-1116 | A pending call can be completed exactly when the response names the profile's model snapshot, it and its usage are within the profile, and its id agrees with one seen before; the conservation guards never refuse it. |
| ModelUsageGuarantees.PendingCallReleases | backend/app/modules/model_usage/service.py:1118-1158 | A pending call can be released exactly when no provider response was seen. |
| ModelUsageGuarantees.OneLiveAttemptPerSlot | backend/app/modules/model_usage/service.py:510-651 | Of two attempts of a slot the earlier is known failed or known without effect, and numbered lower. |
| ModelUsageGuarantees.SettledOnce | backend/app/modules/model_usage/service.py:1195-1227 | Terminal calls and published budget versions are frozen in every continuation, lifetime spend never falls, and a new budget version never resets it. |
| ModelUsageGuarantees.OperationsReplay | backend/app/modules/model_usage/service.py:330-1158 | In every reachable ledger, an operation that succeeded, budget provisioning included, succeeds again at once and changes nothing more. |
| ModelUsageReplay.ReplaysAfter | backend/app/modules/model_usage/service.py:330-1158 | After any continuation: budget, prepare, complete and release always succeed again; a reservation exactly while the call is dispatching, or for a checker uncertain or completed; an uncertainty exactly until the call ends; a recovery attempt exactly until it is dispatched; and a repeat never changes anything. |
| ModelUsageReplay.RunKeepsLineage | backend/app/modules/model_usage/service.py:510-651 | Over every run, the attempts of a slot ask for one request, and the parent of each but the first is the newest attempt of the slot before it. |
| ModelUsageBudgets.VersionsAccountedFor | backend/app/modules/model_usage/service.py:330-404 | In every reachable ledger the published versions of a project are exactly 1 up to the one in force, each published by one operation, the last being the one in force. |
| ModelUsageBudgets.RunKeepsHistory | backend/app/modules/model_usage/service.py:330-404 | Over every run, later versions never lower what was authorized or spent elsewhere, and no version is published twice. |
| ModelUsageBudgets.ProvisionedExactly | backend/app/modules/model_usage/service.py:330-404 | Provisioning succeeds exactly for the operation that published the same facts before, or for the next version that lowers neither total and covers what is reserved and settled; the check for a taken version never fires. |
| ModelUsageGuarantees.FinishedFactsFixed | backend/app/modules/model_usage/service.py:970-1116 | A finished call accepts a second completion only with the response, model snapshot, byte count, usage and usability it was finished with. |
| ModelUsageGuarantees.CompletedSlotClosed | backend/app/modules/model_usage/service.py:570-651 | No continuation adds an attempt to a slot whose call completed. |
| ModelUsageGuarantees.PendingStaysReserved | backend/app/modules/model_usage/service.py:927-968 | While an attempt is pending, its worst-case price is part of what its project has reserved. |
| ModelUsageGuarantees.UncertainBlocksRetry | backend/app/modules/model_usage/service.py:927-968 | While an attempt is pending, no operation adds another to its slot. |
| Catalogue.GroupById | backend/scripts/behavior_ownership.py:1411-1414 | The grouping lists, per behaviour, exactly the base records filed under it, in order. |
| Catalogue.CurrentById | backend/scripts/behavior_ownership.py:1415 | The lookup holds the last head record of each behaviour and nothing else. |
| Catalogue.CheckBaseKept | backend/scripts/behavior_ownership.py:1416-1421 | Passes exactly when every base behaviour has one record and any head record of it is that record. |
| Catalogue.CheckRemaps | backend/scripts/behavior_ownership.py:1422-1436 | Passes exactly when each superseding record moves a reviewed behaviour from a gone to an existing place without narrowing its evidence. |
| Catalogue.CheckEffectiveOwners | backend/scripts/behavior_ownership.py:1437-1446 | Passes exactly when every base behaviour has one effective owner. |
| Catalogue.ValidateRemaps | backend/scripts/behavior_ownership.py:1408-1446 | Accepts exactly the heads that keep one effective owner per base behaviour, and each refusal names a rule some record breaks. |
| Sequences.DistinctIffNoRepeat | backend/scripts/behavior_ownership.py:1477-1486 | Comparing a list's length with its set's size detects exactly the lists with a repeated element. |
| CatalogueRuns.OneEffectiveOwner | backend/scripts/behavior_ownership.py:1437-1446 | In an accepted head each base behaviour has exactly one owner: itself, or one superseding record at a new place with at least its evidence; a record not under review survives unchanged. |
| CatalogueRuns.HeadIsClean | backend/scripts/behavior_ownership.py:1416-1446 | In an accepted head no record supersedes a behaviour filed beside it. |
| CatalogueRuns.OwnersMergeExactly | backend/scripts/behavior_ownership.py:1437-1446 | Two base behaviours get the same owner if and only if one of their base records supersedes the other and is still in the head. |
| CatalogueRuns.NeighbourAbsorbed | backend/scripts/behavior_ownership.py:1408-1446 | A base of two reviewed records of which one supersedes the other, with its evidence and at a new place, is accepted with that one alone as the head. |
| CatalogueRuns.AbsorbingExample | backend/scripts/behavior_ownership.py:1408-1446 | Two such records exist with the identities, targets, callables, tests and outcomes the record schema asks for: accepted, and one owner for both. |
| CatalogueRuns.SelfAcceptance | backend/scripts/behavior_ownership.py:1416-1446 | A catalogue with distinct identities is accepted against itself exactly when no record carries a supersession. |
| CatalogueRuns.SupersessionIsOneStep | backend/scripts/behavior_ownership.py:1422-1446 | A superseding record never survives the next accepted step: it is superseded in turn, from a place that is gone. |
| CatalogueRuns.EvidenceNeverShrinks | backend/scripts/behavior_ownership.py:1433-1436 | Along any run of accepted steps the owner of a behaviour never loses a test, outcome or boundary. |
| CatalogueRuns.OwnersMergeOnlyAtFirst | backend/scripts/behavior_ownership.py:1437-1446 | Along any run, two behaviours have owners with the same identity after any number of steps if and only if one supersedes the other in the first base and survives the first step: no later step merges any. |
| CatalogueRuns.RecordsConserved | backend/scripts/behavior_ownership.py:1408-1446 | An accepted head has exactly the base's number of records, less those a surviving base record supersedes, plus those that own no base behaviour; from a base without such supersessions it never shrinks. |
| CatalogueRuns.BaseDistinct | backend/scripts/behavior_ownership.py:1416-1418 | Acceptance alone makes the identities of the base distinct. |
| Partition.ValidateTransition | backend/scripts/behavior_ownership.py:1064-1234 | Accepts exactly the transitions with a sorted, unrepeated trusted list, approved removals, untouched retained assignments and approved, correctly grouped additions. |
| PartitionRuns.LineageMovesOnce | backend/scripts/behavior_ownership.py:1048-1061 | Over any run the policy-lineage module moves at most once and only forward; a partition holding both places can never change. |
| PartitionRuns.ProtectedForEver | backend/scripts/behavior_ownership.py:1110-1119 | An assignment whose target no step may remove stays, group included, for ever. |
| PartitionRuns.PolicyOrProviders | backend/scripts/behavior_ownership.py:1098-1105 | A run that starts with the router policy always holds it or both replacement providers. |
| PartitionRuns.ReviewModuleReplaced | backend/scripts/behavior_ownership.py:1106-1109 | A retired review module is always replaced by the acceptance API, which then stays. |
| PartitionRuns.NoUnapprovedReturn | backend/scripts/behavior_ownership.py:1225-1230 | A target that is gone and that no step approves as an addition never returns. |
| ContextEvidence.BuildCallables | backend/scripts/behavior_ownership.py:1786-1807 | One row per span in name order, nodes in name order, nodes without a covered line left out. |
| ContextEvidence.LinesInExact | backend/scripts/behavior_ownership.py:1790-1793 | The lines of a span are exactly the covered lines inside it, strictly increasing. |
| ContextEvidence.RowsExact | backend/scripts/behavior_ownership.py:1789-1806 | A row lists a node exactly when it covered a line of the span, with exactly those lines. |
| ContextValidation.ValidateRows | backend/scripts/behavior_ownership.py:1908-1945 | The row loop passes exactly when every row is true of the target, none repeats and none is missing. |
| ContextValidation.ValidateEvidence | backend/scripts/behavior_ownership.py:1863-1945 | Accepts exactly complete, distinct, unskipped nodes within the time limit and one true row per callable. |
| ContextValidation.BuiltAcceptedExactly | backend/scripts/behavior_ownership.py:1786-1945 | The artifact built from a clean bounded run passes the validator at the same head if and only if the target's callable names are distinct, each matches the ASCII name pattern, and every node name is valid. |
| ContextValidation.AccentedNameRefused | backend/scripts/behavior_ownership.py:1911-1916 | Whatever was run, a target whose one callable has an accented name yields an artifact that is refused. |
| ProcessRunner.ExecutionBudget.Charge | backend/scripts/checker_image_process.py:25-29 | Takes the count off what remains whether or not it succeeds, and succeeds exactly when nothing is overdrawn. |
| ProcessRunner.TakeChunk | backend/scripts/checker_image_process.py:77-83 | The read that breaks a limit is already counted and charged; within the limits all is kept. |
| ProcessRunner.DrainRound | backend/scripts/checker_image_process.py:72-83 | One selector round reads exactly the entries whose pipes are open, in order, up to the first broken limit. |
| ProcessRunner.ReadLoop | backend/scripts/checker_image_process.py:62-83 | For every world in which time passes while nothing is ready the loop ends, with exactly one of: all pipes closed, the deadline passed with a pipe open, or the entry whose read broke a limit. |
| ProcessRunner.Drain | backend/scripts/checker_image_process.py:62-83 | What the loop read is exactly what was offered up to where it stopped, never more than the limit plus one chunk, the budget has paid for all of it, and each failure has its cause. |
| ProcessRunner.Child.CleanUp | backend/scripts/checker_image_process.py:90-98 | The group is killed unless killing is denied, the leader reaped, then each pipe closed, exactly as far as the calls before succeeded; it succeeds exactly when the child is released. |
| ProcessRunner.Run | backend/scripts/checker_image_process.py:32-98 | On every path after the start the child is killed, reaped and closed exactly as far as the cleanup calls succeed, and released exactly unless the run fails with one that raised; the budget pays for every byte on every path; success is exactly the stdout chunks in read order of a child that exited with zero. |
| ProcessRunner.BudgetBalances | backend/scripts/checker_image_process.py:18-29 | Over any sequence of runs on one budget the allowance minus what remains is all bytes read, and a run that read anything finishes only while the bytes of all runs up to it, failed ones included, fit the allowance. |
| RouterSearch.Collector.Collect | backend/app/main.py:72-81 | The recursive walk skips routers on its call stack, yet everything that leaves the stack is finished and nothing unregistered is collected. |
| RouterSearch.RegisteredRoutePaths | backend/app/main.py:67-84 | For every finite router graph, cyclic or not, the result is exactly the paths of reachable routes, and each reachable router is expanded once. |
| DynamicImports.Visitor.Visit | backend/scripts/authorization_boundary.py:98-211 | The recursive visit agrees with a left-to-right scan of the flattened tree, verdict and alias sets alike. |
| DynamicImports.RefusalMonotone | backend/scripts/authorization_boundary.py:98-211 | Knowing more aliases never turns a refusal into an acceptance. |
| DynamicImports.SubtreeIsSegment | backend/scripts/authorization_boundary.py:98-211 | A subtree is the stretch of the flattened tree that starts at its root. |
| DynamicImports.SubtreesAccepted | backend/scripts/authorization_boundary.py:98-211 | Every subtree of an accepted tree is accepted on its own. |
| DynamicImports.AcceptedIsStatic | backend/scripts/authorization_boundary.py:141-211 | At no depth does an accepted tree load a dynamic-execution name, import a loading module or use the module registry spelled `sys.modules` or `getattr(sys, ..)`. |
| ImportAliases.AcceptedExactly | backend/scripts/authorization_boundary.py:98-211 | A tree is accepted if and only if no node is refused by the names bound above it. |
| ImportAliases.BoundExactly | backend/scripts/authorization_boundary.py:116-168 | Those names in closed form: `sys` and every name an import above binds to it; the built-in callables and every name assigned a spelled-out loading callable above. |
| ImportAliases.TouchesExactly | backend/scripts/authorization_boundary.py:149-199 | In an accepted tree a node uses `x.modules` or `getattr(x, ..)` through a name that stands for `sys` if and only if that name is imported as `sys` only below the node, or is imported nowhere and assigned from a name that stands for `sys`. |
| ImportAliases.EarlyUseAccepted | backend/scripts/authorization_boundary.py:98-211 | For every ordinary name, a tree that uses it to reach the registry above the import that binds it to `sys` is accepted. |
| ImportAliases.CopyAccepted | backend/scripts/authorization_boundary.py:160-166 | For every ordinary name, a tree that imports `sys`, assigns it to the name and reaches the registry through the name is accepted. |
| DynamicImports.NoAliasOfName | backend/scripts/authorization_boundary.py:141-211 | In an accepted tree no assignment copies a known loading callable by name. |
| ImportResolution.ResolutionIsClimbing | backend/scripts/authorization_boundary.py:65-81 | Relative resolution is the rule of section 5.7 of the Python Language Reference, and fails exactly when the import climbs above the top package. |
| ImportEdges.WalkSeesTree | backend/scripts/authorization_boundary.py:223-231 | The breadth-first walk sees each node of the tree exactly as often as the visitor's depth-first order does. |
| ImportEdges.SourceImports | backend/scripts/authorization_boundary.py:214-232 | A file is read exactly when it parses, the visitor accepts it and every import resolves without a wildcard; then a name is returned exactly when some import statement at any depth imports it, and otherwise the refusal has its cause in the file. |
| ImportEdges.ScanEdges | backend/scripts/authorization_boundary.py:252-276 | The scan succeeds exactly when every file is readable; then an edge is listed exactly when a file outside the authorization module imports its private part, or the reverse for the other list; otherwise the fault is that of the first unreadable file. |
| ImportSpelling.SpellingIrrelevant | backend/scripts/authorization_boundary.py:65-232 | Writing every relative import of a file absolutely changes neither whether it is read, nor its imports, nor why it is refused, the visitor included. |
| ImportSpelling.SpellingKeepsEdges | backend/scripts/authorization_boundary.py:252-276 | A whole tree respelled so has the same edges. |
| BoundaryLedger.ParseEdges | backend/scripts/authorization_boundary.py:294-315 | The line loop with its current source computes the recursive reading of the section, faults included. |
| LedgerRoundTrip.LinesParseBack | backend/scripts/authorization_boundary.py:294-315 | For every quoting that unescaping undoes on one line, printed lines parse to exactly the printed edges; a repeated edge or an empty list is refused. |
| LedgerRoundTrip.LedgerRoundTrips | backend/scripts/authorization_boundary.py:279-327 | Printing two non-empty edge lists with such a quoting and loading the text returns exactly those sets, or refuses a repeat. |
| LedgerAcceptance.AcceptableExactly | backend/scripts/authorization_boundary.py:279-337 | A ledger the validator accepts for a tree exists if and only if the tree has edges in both directions and every source is an application path with a quoted form that fits a line. |
| MarkdownViews.ProjectToken | scripts/check_commitrail_records.py:109-150 | One token restores, blanks and marks exactly its lines in both arrays, or is refused. |
| MarkdownViews.ProjectViews | scripts/check_commitrail_records.py:99-155 | The in-place pass refuses exactly when some token is faulty; otherwise each line of both views is original or blank as one predicate of the whole token list says. |
| MarkdownSections.ViewAligned | scripts/check_commitrail_records.py:95-103 | A view keeps the source's length and line breaks, character by character. |
| MarkdownSections.SectionSelectsLines | scripts/check_commitrail_records.py:227-229 | Offsets found in the structure view cut exactly the matching lines out of the visible view. |
| SectionBodies.RequiredSectionBody | scripts/check_commitrail_records.py:218-236 | Missing exactly when the structure has no such heading; otherwise the first heading is taken up to the next one, and the section is empty exactly when no visible line of it has substance. |
| SectionBodies.SectionIsLines | scripts/check_commitrail_records.py:224-229 | What that search cuts is the rest of the heading's line and then exactly the visible lines up to the next heading of the structure or the end. |
| MarkdownSections.OrderIrrelevant | scripts/check_commitrail_records.py:99-155 | Views and refusal depend on which tokens there are, not on their order. |
| MarkdownSections.HtmlIsNeverStructure | scripts/check_commitrail_records.py:126-154 | A line covered by a token with HTML is blank in the structure, whatever else covers it. |
| RelocationCustody.ReadTable | scripts/check_commitrail_records.py:200-215 | A listing is read into a dictionary exactly when every line is well formed and no key repeats. |
| RelocationCustody.TableExact | scripts/check_commitrail_records.py:200-215 | The dictionary of a well-formed listing gives each key its line's value. |
| RelocationCustody.CountMeansOneToOne | scripts/check_commitrail_records.py:319-321 | There are as many destinations as rows if and only if no two rows share one. |
| RelocationCustody.ValidateRelocation | scripts/check_commitrail_records.py:247-374 | Accepts exactly the evidence in which base tree, manifest, index and working tree agree on every archived file; the index is listed for the destinations, or whole when there are none. |
| RelocationCustody.EmptyManifestRefused | scripts/check_commitrail_records.py:330-343 | An empty manifest passes only with an empty index and an empty archive. |
| RelocationCustody.ArchivedFileHasOneSource | scripts/check_commitrail_records.py:362-374 | Every archived file is the unchanged content of exactly one base-tree path, in index and working tree alike. |
| RelocationCustody.ManifestLineHonoured | scripts/check_commitrail_records.py:302-374 | In accepted evidence each manifest line is borne out by a base-tree line, a staged regular-file line and a working-tree hash with its blob. |
| RelocationCustody.NothingLeftBehind | scripts/check_commitrail_records.py:302-328 | Every base path is archived if and only if the archive has as many files as the base tree has paths. |
| RelocationCustody.LeftBehind | scripts/check_commitrail_records.py:247-374 | For any two base paths, evidence that archives one of them, staged and hashed, is accepted although the other is nowhere in the archive. |
| RelocationCustody.LeftBehindExample | scripts/check_commitrail_records.py:247-374 | Accepted evidence with a manifest row and a base path left behind exists, with paths of the kind the repository records. |
| GitDecoders.FieldsRoundTrip | scripts/review_target.py:18-19 | Splitting undoes NUL-delimiting for every list of non-empty NUL-free fields. |
| GitDecoders.WorktreeState | scripts/review_target.py:22-56 | The index loop reports exactly the staged, unstaged and untracked paths of the decoded entries, and raises exactly when they cannot be decoded. |
| GitDecoders.EntriesRoundTrip | scripts/review_target.py:22-56 | Decoding inverts Git's encoding, second path written when either column is R or C, for a list of status entries if and only if none is renamed or copied in the work tree alone. |
| GitTruncation.CutEntriesDecode | scripts/review_target.py:18-56 | The outcome of status output cut off after any number of characters, for every list of entries, misread work-tree renames included; it is Git's own entries exactly when the cut falls between entries or on an ending NUL and after no such rename. |
| GitTruncation.CutPathPasses | scripts/review_target.py:18-56 | A cut inside the path of a plain entry decodes to a shorter path. |
| GitDecoders.ChangedPaths | scripts/review_target.py:59-82 | The index loop decodes every name-status row, or raises, and returns the rows sorted. |
| GitDecoders.RowsRoundTrip | scripts/review_target.py:59-82 | Decoding inverts encoding for every list of name-status rows. |
| GitTruncation.CutRowsDecode | scripts/review_target.py:59-82 | The outcome of name-status output cut off after any number of characters; it is Git's own rows exactly when the cut falls between rows or on an ending NUL. |
| GitDecoders.RowsCanonical | scripts/review_target.py:82 | The returned rows are sorted, complete and the same for every order Git lists them in. |
| PdfWriter.WritePdf | scripts/verify_guide_parser_isolation.py:174-188 | The one-pass writer with its remembered offsets produces exactly the specified file. |
| PdfRoundTrip.EntryWidth | scripts/verify_guide_parser_isolation.py:182-183 | A table entry is 20 bytes, as section 7.5.4 of ISO 32000-1 requires, exactly for offsets below 10^10. |
| PdfRoundTrip.StartIsTableOffset | scripts/verify_guide_parser_isolation.py:179-187 | The `startxref` number is the offset of `xref`, as section 7.5.5 of ISO 32000-1 requires. |
| PdfRoundTrip.RoundTrip | scripts/verify_guide_parser_isolation.py:174-188 | Reading a written file through its table returns every list of bodies if and only if the last offset is below 10^10. |
| Frames.Stream.ReadExact | scripts/verify_guide_parser_isolation.py:217-221 | Returns exactly the next bytes, and fails exactly when fewer are left. |
| Frames.Stream.ReadFrame | backend/app/adapters/guide_document_tools/client.py:158-162 | Returns the frame the stream begins with, and fails exactly for an empty, oversized or truncated one. |
| Frames.Stream.ReadRequest | scripts/verify_guide_parser_isolation.py:341-344 | Returns the metadata and source whose encoding the stream begins with, and fails exactly when there is none. |
| Frames.FrameReadsBack | backend/app/adapters/guide_document_tools/client.py:158-162 | A written frame is accepted, whatever follows it, exactly when it is neither empty nor above the maximum. |
| Frames.RequestReadsBack | scripts/verify_guide_parser_isolation.py:341-344 | Of all prefixes of an encoded request only the whole is accepted. |
| Frames.FramesPrefixFree | scripts/verify_guide_parser_isolation.py:224-227 | No stream begins with two different frames. |
| SourceInventory.Walk.Visit | scripts/verify_hosted_release_images.py:67-79 | With limits tested file by file, a subtree passes exactly when it has no link or special file and fits both limits as a whole; then exactly its files are added. |
| SourceInventory.ListingOrderIrrelevant | scripts/verify_hosted_release_images.py:71-74 | What is accepted and found does not depend on the order in which directories list their entries, at any depth. |
| SourceInventory.Inventory | scripts/verify_hosted_release_images.py:63-82 | An inventory exists exactly when all roots are clean, hold at most 4096 files and at most 64 MiB, and lists exactly those files. |
| SourceInventory.SourceRootsApart | scripts/verify_hosted_release_images.py:22-29 | The listed source roots never lie inside one another. |
| Numstat.LineRead | scripts/git_delta.py:176-187 | Of a line with three fields the first is the added and the second the deleted count of the path in the third. |
| Numstat.Tally | scripts/git_delta.py:173-189 | The dictionary holds exactly the paths of all parsed lines of all outputs, each with the sums of its counts. |
| Numstat.Report | scripts/git_delta.py:152-209 | The totals equal the sums over everything counted, and there is one row per path in path order. |
| Numstat.Conservation | scripts/git_delta.py:201-209 | The rows add up to exactly what was counted: nothing is lost or counted twice. |
| Numstat.CountedExact | scripts/git_delta.py:190-200 | A path's row is its diffs' sum if a diff names it, and otherwise its line count, once, however often it is listed. |
| Numstat.EntriesPermute | scripts/git_delta.py:173-187 | Lines in another order parse to the same entries in another order. |
| Numstat.ReportOrderIrrelevant | scripts/git_delta.py:173-209 | The same lines in any order and spread over the outputs in any way, with the same untracked files, give the same rows and totals. |
| AwsGuarantees.BucketPolicyIsGuard | backend/scripts/aws_roles_anywhere_config.py:189-293 | Whatever identity policies a principal holds, the bucket policy denies exactly the barred requests and decides no other. |
| AwsGuarantees.ObjectsOnlyByRuntime | backend/scripts/aws_roles_anywhere_config.py:189-293 | A request for an artifact object that is not denied comes from the runtime role, over secure transport, and writes only with a precondition. |
| AwsGuarantees.RuntimeMayExactly | backend/scripts/aws_roles_anywhere_config.py:189-293 | The runtime role may read and write objects under the prefix and list the bucket, unless barred, and nothing else. |
| AwsGuarantees.RoleArnsDistinct | backend/scripts/aws_roles_anywhere_config.py:140-163 | Roles are accepted exactly when their ARNs and their certificate names differ pairwise. |
| AwsGuarantees.CertificateOpensOneRole | backend/scripts/aws_roles_anywhere_config.py:166-186 | No certificate subject opens two roles, whatever the two requests made with it say otherwise. |
| AwsGuarantees.FinalExtendsBootstrap | backend/scripts/aws_roles_anywhere_config.py:426-438 | The final templates leave runtime and bucket policies equal and let the readiness role do one thing more, for every request. |

## Left out

- Outbox outcome encoding: an outcome is compared as a value, so its JSON text and digest are not modelled.
- Outbox handler execution: which cause a handler's result, timeout or exception gives is an input.
- Outbox queries: candidate pages, reconciliation, drain observation and the cancelled state would add easy members.
- Outbox database constraints and the idempotent append of an event: an append of a known event changes nothing.
- The usage ledger's authority and evidence ports, profile provisioning, grants and output custody: identities are keys and evidence is a byte count.
- The usage ledger's `attach_recovery` and `attach_completed`: they link an existing call to another task and move no money.
- Catalogue record shape, schema validation and test execution: only the fields the remap rules compare are modelled.
- The literal target lists and the grouping rule of the partition: they are parameters, and theorems name the membership facts they need.
- CatalogueRuns.EvidenceNeverShrinks: a run in which a head becomes the next base needs a new protected base commit at each step, which the partition check refuses within one base (`Partition.Allowed`); such runs are those across reviewed changes of that commit.
- Context collection, coverage files, artifact digest, size and schema checks: the covered lines and the rule for node names are inputs.
- DynamicImports.Visitor.Visit: covers the node kinds the visitor looks at; every other kind is a node with children.
- ImportAliases.AcceptedExactly: for trees in which the name on the right of an assignment is loaded, as the Python grammar has it.
- ImportAliases.TouchesExactly: a name gets `sys` by an import statement or a plain assignment; unpacking, parameters and reaches such as `sys.__dict__` are not counted.
- ImportSpelling.SpellingIrrelevant: for modules of the application package, the only ones the scan reads.
- LedgerRoundTrip.LedgerRoundTrips: the source has no printer; the printed form is the one its parser reads, for any quoting, given as a function, that unescaping undoes on one line without code fences.
- LedgerAcceptance.AcceptableExactly: for import targets that are dotted names, and for an unescaping that reads a blank written as a character reference as a blank, as the standard library's does.
- MarkdownViews.ProjectViews: the tokenizer and the fence patterns are parameters.
- RelocationCustody.ValidateRelocation: lines arrive already split into fields, the manifest's pinned digest is one boolean, and destinations are plain paths, so no pattern characters of Git's path arguments.
- Numstat.Report: outputs arrive as Git printed them; integer parsing and line counting are parameters. The plain list of changed files would add an easy member.
- ProcessRunner.Run: a read from a registered pipe that raises, and signals to the runner itself, are not modelled.
- SourceInventory.Inventory: a file that changes between its size check and its hash is not modelled.
- Frames: socket timeouts and peer identity are not modelled.
- AwsGuarantees.RuntimeMayExactly: for canonical names, which hold no pattern character; policy size limits and input parsing are not modelled.
- PDF content streams, DOCX and PPTX fixtures and the container proof: inputs or plumbing.
- HTTP routes, authorization services, review and task lifecycles, migrations and the command line: not part of this model.
