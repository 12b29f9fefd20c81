# SE-Mentor: a verified model of its algorithms and protocols

SE-Mentor is a harness for governed coding agents. This project models the parts of it that hold
real algorithms or protocols and proves what they promise, for all inputs and all runs.

* **Impact search** (`ImpactGraph`, `ImpactSearch`): the level-by-level search over code relations with
  a depth limit and a node budget. Distance is defined by walks in the graph; the search is shown to
  report exactly the symbols in range, with their distances.
* **Agent run loop** (`Cancellation`, `RunLoop`): the counters that end a run, and the cancellation
  token with nested atomic sections. What each turn answers is an arbitrary input.
* **Event stream** (`TaskEvents`, `EventStream`): the server's log, the client's list, the protocol
  between them under delay, reordering, repetition and loss, and the text format of the stream
  (server-sent events, section 9.2 of the WHATWG HTML Living Standard), read back both by the client's
  parser and by a reader that follows the standard (`StandardStream`).
* **Governance** (`Rules`, `Decisions`, `ConfigMerge`): merging of rules, the verdict on changed paths,
  and merging of configuration layers. Glob matching is a parameter.
* **Paths** (`Paths`, with `Text`, `Dedupe` and `Basics`): the normal form of project paths.
* **Context packing** (`ContextPacking`, with `Sorting`), **bootstrap scheduling** (`Bootstrap`),
  **history paging** (`HistoryPaging`), **repair loop** (`Repair`), **schema constraints and
  re-governance** (`Schema`, `ReGovernance`).

Code that updates things step by step is modelled by methods and classes; each is proved equal to a
function of its inputs or old state, and the theorems are about that function. What an operation answers
is also stated apart from that function, in terms of its inputs: which exit a run takes, which paths are
refused and why, which rule or policy prevails, what every field of an impact, a decision or a note says. A protocol is a function
that applies one step, and its theorems quantify over every sequence of steps; a step that is not
possible changes nothing.

Where a property turned out to hold only under a condition, the condition is proved to be exact:

* A stalled run names the right cause in every environment if and only if the policy allows at least
  two stalled turns, allows no corrections at all, or ends the run before it can stall
  (`RunLoop.StallCodeExact`).
* Combining rule lists or path lists yields the stricter verdict if and only if no BLOCK is requested that
  a user warning does not override, because approval is tested first (`Decisions.RulesJoinExactly`,
  `Decisions.PathsJoinExactly`).
* Merging rules keeps the verdict on given paths under every glob if and only if the patterns of the
  rules it drops are named by rules it keeps that are strong enough for the requested verdicts, or a
  pattern of such a rule is part of a path (`Decisions.MergeSafeOnPaths`). Over all accepted path lists
  this comes down to the paths of one character (`Decisions.MergeSafeExactly`), and over arbitrary
  texts to the rules alone (`Decisions.MergeSafeOnAnyText`).
* A canonical path is stable under another application if and only if it has no white space at an end
  and no drive prefix (`Paths.StableExactly`); every normal form is the canonical form of some path, the
  unstable ones included (`Paths.ImageExactly`, `Paths.UnstableFamily`).
* An event stream reads back as printed if and only if no event type contains a line break
  (`EventStream.RoundTripExactly`).
* Every project has exactly one bootstrap job while it is BOOTSTRAPPING if and only if no submission
  to the worker failed; a project whose submission failed stays BOOTSTRAPPING for good
  (`Bootstrap.OneJobEachExactly`, `Bootstrap.StuckForever`).
* Throughout a run of row writes active executable policies stay away from BLOCK decisions if and only
  if no write turns the verdict of such a policy's decision into BLOCK, which no constraint forbids
  (`Schema.NoArmedBlockExactly`, `Schema.ArmedBlockIsReached`).
* Throughout a run of row writes committed transactions go on holding their locks if and only if no
  write deactivates or moves such a lock, which no constraint forbids either
  (`Schema.CommitLocksExactly`, `Schema.LockMayGoAfterCommit`).
* The truncation flag of a search can be set although nothing was left out. It is set if and only if more
  symbols are in range than the budget admits, or just as many and a row still leads elsewhere after the
  last of them was found (`ImpactSearch.TruncatedExactly`, `ImpactSearch.TruncatedWithoutLoss`).

`dafny verify dfyconfig.toml` checks the whole project.

## Model

| member | source | states |
|---|---|---|
| ImpactSearch.Expand | backend/src/se_mentor/impact/indirect.py:36-102 | The report tells, for distinct symbols and nearest first, path, name, the length of the shortest chain of rows from a named start symbol through symbols of the project and revision, type and id of the first row from one step nearer, and the first doubtful knowledge entry; without truncation it tells so of every symbol within max_depth; the unknowns are the warnings of the uncertain impacts, once each in order; and it is the run of the search. |
| ImpactSearch.ExpandLevel | backend/src/se_mentor/impact/indirect.py:57-97 | The row loop over the rows that touch the frontier equals the scan of all rows in row order. |
| ImpactSearch.UntruncatedIsExact | backend/src/se_mentor/impact/indirect.py:45-102 | Without truncation a symbol is reported with depth d exactly when its shortest distance from the start set is d and 1 <= d <= max_depth, once each. |
| ImpactSearch.RunIsReport | backend/src/se_mentor/impact/indirect.py:45-102 | Any run of the search, rendered, is such a report, in terms of rows, symbols and references only. |
| ImpactSearch.RunWarns | backend/src/se_mentor/impact/indirect.py:83-102 | The warnings are those of the uncertain impacts, duplicate-free in order of first occurrence. |
| ImpactSearch.TruncatedIsHonest | backend/src/se_mentor/impact/indirect.py:54-100 | With truncation all depths are still exact distances, all levels nearer than the one cut short are complete, and start plus reported symbols equal max(start size, max_nodes). |
| ImpactSearch.HitIsExact | backend/src/se_mentor/impact/indirect.py:68-97 | Every reported symbol lies in the layer of its depth and is attributed to the first row that leads to it from one level nearer. |
| ImpactSearch.BudgetIsKept | backend/src/se_mentor/impact/indirect.py:76-78 | Start plus reported symbols never exceed max(start size, max_nodes). |
| ImpactSearch.TruncationThreshold | backend/src/se_mentor/impact/indirect.py:76-82 | Fewer symbols in range than the budget means no truncation, more than max(start size, budget) means truncation. |
| ImpactSearch.TruncatedExactly | backend/src/se_mentor/impact/indirect.py:54-100 | A search is truncated if and only if more symbols are in range than max(start size, max_nodes), or just as many and a row of some level leads out of range after all of them were found. |
| ImpactSearch.TruncatedWithoutLoss | backend/src/se_mentor/impact/indirect.py:76-82 | A search is truncated although no symbol is at any positive distance, because the budget is tested before project and revision. |
| ImpactSearch.SmallerBudgetIsPrefix | backend/src/se_mentor/impact/indirect.py:54-100 | For a fixed row order a smaller max_nodes yields a prefix of the impacts of a larger one, and the same run if it is not truncated. |
| ImpactSearch.SmallerDepthIsPrefix | backend/src/se_mentor/impact/indirect.py:54-100 | A smaller max_depth yields exactly the impacts of a larger one up to that depth, as a prefix. |
| ImpactSearch.NamesSymbol | backend/src/se_mentor/impact/indirect.py:119-122 | A reference names a symbol exactly if it starts with code-index:// and ends with a slash and the symbol's id, which has no slash. |
| ImpactSearch.DoubtAbout | backend/src/se_mentor/impact/indirect.py:104-116 | A symbol is uncertain exactly when some doubtful entry of its project names its path, and the first such entry is cited. |
| ImpactGraph.LayerIsDistance | backend/src/se_mentor/impact/indirect.py:45-102 | The levels built by expansion are the sets of equal shortest distance, where distance is defined by walks. |
| Cancellation.SectionsBalance | backend/src/se_mentor/agent/runtime.py:59-79 | However sections nest and exit, the critical depth returns to its entry value, no check inside a section raises, and cancellation is never undone. |
| Cancellation.ChecksRaiseOnlyOutside | backend/src/se_mentor/agent/runtime.py:69-79 | A section never lets a check raise; right after it a check raises exactly when it was outermost and the token is cancelled. |
| Cancellation.CancellationToken.Perform | backend/src/se_mentor/agent/runtime.py:65-79 | Code run against the token in place ends as specified and restores the critical depth on every way out. |
| Cancellation.CancellationToken.RaiseIfCancelled | backend/src/se_mentor/agent/runtime.py:69-71 | The check raises exactly when the token is cancelled outside all sections. |
| RunLoop.Execute | backend/src/se_mentor/agent/runtime.py:129-396 | The loop over counters, evidence and fingerprints, with a separate check on each of the five ways back to its head, ends with the exit, the number of runner calls and the token state of the specified run, in which no way back escapes the check. |
| RunLoop.RunEndsExactly | backend/src/se_mentor/agent/runtime.py:153-396 | Every run ends with exit e after i + 1 calls exactly if turn i is the first whose answer, together with those before it, calls for an end and e is what it calls for (files changed, governance pause, parse failures used up, tool failure, stall of either kind, raise, cancellation), and with MAX_ITERATIONS exactly if no turn does. |
| RunLoop.HeadsByAnswers | backend/src/se_mentor/agent/runtime.py:141-392 | At every loop head the counters are the parse failures, stalls and reads since the last progress, repetitions and corrections that the answers so far amount to. |
| RunLoop.NoRunWithoutRunner | backend/src/se_mentor/agent/runtime.py:129-140 | A cancelled token and a missing runner are reported without a call, and only then. |
| RunLoop.CountersStayLinked | backend/src/se_mentor/agent/runtime.py:291-371 | At every loop head the read-only streak equals the stall counter and is at most max_stalled - 1 plus the corrections used. |
| RunLoop.StallsAreBounded | backend/src/se_mentor/agent/runtime.py:301-371 | No stretch of a run without progress holds more than max_stalled + max_corrections stalled tool turns. |
| RunLoop.StallCodeIsHonest | backend/src/se_mentor/agent/runtime.py:256-371 | With at least two stalled turns allowed, no corrections, or too few iterations to stall, a stalled run fails as a read-only loop exactly when no write tool was executed, and then the corrections are used up. |
| RunLoop.StallCodeExact | backend/src/se_mentor/agent/runtime.py:284-371 | For every policy: the stall code is right in every environment exactly if max_stalled >= 2, max_corrections <= 0 or max_iterations <= max(0, max_stalled). |
| RunLoop.MisreportedStall | backend/src/se_mentor/agent/runtime.py:356-371 | Under every other policy there is an environment that reports STALLED without any write tool execution and with corrections left. |
| RunLoop.CancelledTurnIsLast | backend/src/se_mentor/agent/runtime.py:153-392 | A turn that leaves the token cancelled is the last one: the runner is not called again. |
| RunLoop.CancellationIsFinal | backend/src/se_mentor/agent/runtime.py:96-139 | Over any history of runs and cancel requests on a task's token, once it is cancelled it stays so and no runner call is made any more. |
| RunLoop.NoCallAfterCancelledTurn | backend/src/se_mentor/agent/runtime.py:129-392 | In a history from a fresh token, a turn that leaves the token cancelled makes the last runner call of all. |
| TaskEvents.EventBus.Publish | backend/src/se_mentor/events/bus.py:22-31 | Appends one event with the given task, type and payload under the next id, and keeps ids equal to log positions. |
| TaskEvents.EventBus.ReplayAfter | backend/src/se_mentor/events/bus.py:33-37 | Replies with the task's stretch of the log after the given id. |
| TaskEvents.TaskEventsHook.Receive | frontend/src/hooks/useTaskEvents.ts:27-38 | The merge loop adds the unseen events of the reply in order and moves the last id. |
| TaskEvents.ReplyAddsNews | frontend/src/hooks/useTaskEvents.ts:27-37 | From any reply, in whatever order, exactly the task's events that are neither seen nor earlier in the reply are added, in order. |
| TaskEvents.ReplyMovesLast | frontend/src/hooks/useTaskEvents.ts:33-33 | The last id becomes the largest of the one before and the new ones. |
| TaskEvents.ReplyIsSeen | frontend/src/hooks/useTaskEvents.ts:29-32 | The ids of the task's events in the reply have been seen afterwards, and no others. |
| TaskEvents.ClientIsCutOfLog | frontend/src/hooks/useTaskEvents.ts:15-45 | After every interleaving of publishes, reconnects, serving and delayed, reordered, repeated or lost replies the client's list is the server's log for the task cut at lastEventId. |
| TaskEvents.CutIsOrdered | backend/src/se_mentor/events/bus.py:33-37 | Such a cut holds exactly the task's events up to its end, with strictly increasing ids. |
| TaskEvents.ReplyBringsNews | frontend/src/hooks/useTaskEvents.ts:23-23 | In every reachable state a request answered at once brings exactly the task's events that the client does not have. |
| TaskEvents.CatchUp | frontend/src/hooks/useTaskEvents.ts:23-38 | Once the reply to a request issued after the task's last publish arrives, the client holds the whole log of the task. |
| EventStream.RoundTripExactly | frontend/src/api/mentorApi.ts:812-827 | Parsing the printed stream returns ids, types and payload texts in order exactly when no type contains a line break. |
| EventStream.ParseFirst | frontend/src/api/mentorApi.ts:813-826 | The first printed event is read as itself and the rest as it would be alone. |
| EventStream.ParsedByFirstLines | frontend/src/api/mentorApi.ts:817-825 | Any block is read by the first line of each kind, with the defaults 0, status and {} for kinds that are missing. |
| StandardStream.StandardReaderAgrees | backend/src/se_mentor/api/events.py:31-38 | A reader that follows section 9.2 of the WHATWG HTML Living Standard gets every printed event in order, with its id, type and payload. |
| EventStream.WireKeepsReply | backend/src/se_mentor/api/events.py:30-38 | A served reply that is printed, parsed and labelled with the task asked for is the reply itself. |
| Rules.Merge | backend/src/se_mentor/governance/rule_loader.py:95-105 | The dictionary loop and the final sort yield the merged rules. |
| Rules.WinnerByName | backend/src/se_mentor/governance/rule_loader.py:99-119 | For every key the merge keeps a denial if there is one, else an approval if there is one; among the rules with this effect the one of largest priority, and of those the first. |
| Rules.WinnerIsStrongest | backend/src/se_mentor/governance/rule_loader.py:99-119 | The kept rule is the first that no rule of its key is stronger than. |
| Rules.MergedAreWinners | backend/src/se_mentor/governance/rule_loader.py:105-105 | The merged list holds exactly the winners, one per key. |
| Rules.MergedInOrder | backend/src/se_mentor/governance/rule_loader.py:122-124 | Denials come first, then approvals, then allowances, each by key. |
| Rules.EffectIgnoresOrder | backend/src/se_mentor/governance/rule_loader.py:95-119 | The effect and priority kept for a key do not depend on rule order. |
| Rules.MergeIsIncremental | backend/src/se_mentor/governance/rule_loader.py:95-105 | merge(merge(a) + b) = merge(a + b). |
| Decisions.Evaluate | backend/src/se_mentor/governance/decision_service.py:42-77 | Raw paths are made canonical or refused, then rules are matched and the decision taken. |
| Decisions.MatchedRules | backend/src/se_mentor/governance/decision_service.py:147-155 | The loop collects the matching rules by priority and key. |
| Decisions.MatchesExactly | backend/src/se_mentor/governance/decision_service.py:154-159 | A rule matches exactly if the glob accepts one of its patterns for a path or the pattern is part of the path. |
| Decisions.MatchedRulesAre | backend/src/se_mentor/governance/decision_service.py:147-155 | The keys listed with a decision are those of exactly the matching rules, by falling priority and then by key. |
| Decisions.VerdictIsFor | backend/src/se_mentor/governance/decision_service.py:46-77 | The verdict depends only on which effects some matching rule has and on the requested verdicts. |
| Decisions.HardDenialBlocks | backend/src/se_mentor/governance/decision_service.py:50-56 | A matched DENY_HARD gives BLOCK under any requested verdicts. |
| Decisions.RiskAndReason | backend/src/se_mentor/governance/decision_service.py:50-77 | Risk and reason of every kind of decision; denials and approvals give the reason of the matching rule that comes first by priority and key. |
| Decisions.ReasonIsOfTopPriority | backend/src/se_mentor/governance/decision_service.py:54-54 | The reason of a block by denial is that of a matched denial of highest priority. |
| Decisions.ScopesPartition | backend/src/se_mentor/governance/decision_service.py:50-95 | Allowed and denied scope partition the canonical paths; only BLOCK denies; approval is required exactly for WARN. |
| Decisions.RulesJoinExactly | backend/src/se_mentor/governance/decision_service.py:57-64 | The verdict on combined rule lists is the stricter of the separate ones for all rules and paths exactly when no overriding BLOCK is requested. |
| Decisions.ApprovalSoftensBlock | backend/src/se_mentor/governance/decision_service.py:57-64 | Any matching approval rule turns a requested BLOCK into WARN. |
| Decisions.PathsJoin | backend/src/se_mentor/governance/decision_service.py:42-77 | The verdict on combined raw path lists is the stricter of the separate ones. |
| Decisions.PathsJoinExactly | backend/src/se_mentor/governance/decision_service.py:42-77 | This holds for all rules and accepted path lists exactly when no overriding BLOCK is requested. |
| Decisions.RuleOrderIsIrrelevant | backend/src/se_mentor/governance/decision_service.py:147-159 | The verdict does not depend on rule order; with distinct priority and key pairs the whole decision does not. |
| Decisions.MergeSafeOnPaths | backend/src/se_mentor/governance/rule_loader.py:95-124 | On any paths and under any requested verdicts the merged rules give the verdict of all rules under every glob exactly when merging is safe on them, a condition on patterns, paths and requests only. |
| Decisions.MergeSafeExactly | backend/src/se_mentor/governance/decision_service.py:42-77 | On all accepted path lists and under every glob merging keeps the verdict, for given requests, exactly when it is safe on every path of one character. |
| Decisions.MergeSafeOnAccepted | backend/src/se_mentor/governance/rule_loader.py:95-124 | Without requests, and if some character is not a kept pattern by itself, this holds exactly when every pattern of a denial or approval rule is named, or replaced by the empty pattern, in a kept rule that is as strong. |
| Decisions.MergeSafeOnAnyText | backend/src/se_mentor/governance/rule_loader.py:95-124 | Over arbitrary texts as paths and without requests, that condition is exact for all rules. |
| Decisions.MergeKeepsVerdict | backend/src/se_mentor/governance/rule_loader.py:95-124 | If rules with the same key share patterns, the merged rules give the same verdict as all rules, under any requested verdicts. |
| Decisions.MergeDropsWeaker | backend/src/se_mentor/governance/rule_loader.py:102-104 | Without shared patterns a matching approval rule is lost to a denial for the same key that does not match. |
| Decisions.MergeCanLoseApproval | backend/src/se_mentor/governance/rule_loader.py:102-104 | Such a pair of rules exists. |
| ConfigMerge.MergeConfig | backend/src/se_mentor/config/loader.py:67-83 | The loops over layers and entries compute the merge, or the error of the first entry that is unknown or ill-typed. |
| ConfigMerge.EntryAt | backend/src/se_mentor/config/loader.py:72-73 | Layers are merged in order, and the entries of each in order, under its name. |
| ConfigMerge.RejectedForFirst | backend/src/se_mentor/config/loader.py:74-75 | An error names the first entry that is not acceptable and what is wrong with it. |
| ConfigMerge.Merger.MergePolicy | backend/src/se_mentor/config/loader.py:98-117 | Policies are only tightened; an attempt to relax is noted. |
| ConfigMerge.Merger.MergeFlag | backend/src/se_mentor/config/loader.py:120-136 | Switches are only turned off; an attempt to turn one on again is noted. |
| ConfigMerge.Merger.MergeProvider | backend/src/se_mentor/config/loader.py:139-156 | The provider is replaced unless the demo profile's mock is in force. |
| ConfigMerge.AcceptedIfWellTyped | backend/src/se_mentor/config/loader.py:72-81 | A merge succeeds exactly when every entry is known and of the right type. |
| ConfigMerge.PolicyByName | backend/src/se_mentor/config/loader.py:98-117 | A merged policy is DENY_HARD if some layer asks for it, else DENY if some layer does, else ALLOW; its source is the first layer asking for it; every laxer setting leaves one note with both names and the prevailing layer, and nothing else does. |
| ConfigMerge.PolicyIsMaximum | backend/src/se_mentor/config/loader.py:98-117 | The same as a maximum by rank, with the number of notes. |
| ConfigMerge.FlagIsConjunction | backend/src/se_mentor/config/loader.py:120-136 | A merged switch is the conjunction over all layers, a false one attributed to the last layer saying false, with one note per attempt to relax it. |
| ConfigMerge.FlagNotesAre | backend/src/se_mentor/config/loader.py:129-133 | Every attempt to switch a forbidden switch on leaves a note that names its layer and the last one that forbids it, and nothing else does. |
| ConfigMerge.LayerOrderIsIrrelevant | backend/src/se_mentor/config/loader.py:67-136 | Merged policies and switches do not depend on layer order. |
| ConfigMerge.ProviderLock | backend/src/se_mentor/config/loader.py:139-156 | CLOUD_DEMO's mock survives later layers, one note each, exactly until another layer sets mock; without the lock the last layer decides. |
| ConfigMerge.ProviderNotesAre | backend/src/se_mentor/config/loader.py:150-154 | Every attempt against the lock leaves a note that names its layer, and nothing else does. |
| Paths.CanonicalPath | backend/src/se_mentor/paths.py:12-28 | The segment loop and the guards compute the canonical path or its error. |
| Paths.OutcomeExactly | backend/src/se_mentor/paths.py:12-26 | By the characters between the white space at both ends: none means empty, a slash or backslash in front or a drive prefix means not relative, otherwise two dots between slashes or backslashes mean traversal, and everything else is accepted. |
| Paths.ResultBySegments | backend/src/se_mentor/paths.py:19-28 | An accepted path becomes its segments other than empty ones and dots, in order, joined by slashes, or a dot. |
| Paths.CanonicalIsNormal | backend/src/se_mentor/paths.py:12-28 | Every accepted path becomes "." or a join of nonempty segments without dot, dot-dot, slash or backslash. |
| Paths.CanonicalKeepsSegments | backend/src/se_mentor/paths.py:19-28 | The result has the same meaningful segments as the path. |
| Paths.StableExactly | backend/src/se_mentor/paths.py:12-28 | A result is unchanged by another application exactly when it has no white space at an end and no drive prefix. |
| Paths.FixpointsExactly | backend/src/se_mentor/paths.py:12-28 | The paths that are returned unchanged are exactly the normal forms without white space at an end and without drive prefix. |
| Paths.ImageExactly | backend/src/se_mentor/paths.py:12-28 | The results of canonicalisation are exactly the normal forms. |
| Paths.UnstableFamily | backend/src/se_mentor/paths.py:13-17 | Every normal form with white space at either end or a drive prefix arises as a result and is unstable. |
| Paths.TrailingBlankIsUnstable | backend/src/se_mentor/paths.py:13-13 | "./a /" becomes "a ", which is not stable. |
| Paths.LeadingBlankIsUnstable | backend/src/se_mentor/paths.py:13-13 | "./ a" becomes " a", which is not stable. |
| Paths.DriveIsUnstable | backend/src/se_mentor/paths.py:16-17 | "./C:" becomes "C:", which is not stable. |
| Paths.CanonicalPaths | backend/src/se_mentor/paths.py:31-40 | The loop computes the list form, or the error of the first path that is refused. |
| Paths.CanonicalListIsImage | backend/src/se_mentor/paths.py:31-40 | The list form succeeds exactly when every path is accepted and is then the duplicate-free image in first-occurrence order. |
| ContextPacking.Build | backend/src/se_mentor/context/context_builder.py:50-75 | The packing loop computes the package. |
| ContextPacking.PackageKeepsBudget | backend/src/se_mentor/context/context_builder.py:60-91 | Mandatory items are kept, optional ones split exactly, and with k > 0 included char_count + 8k is within max_chars. |
| ContextPacking.PackageSizeIs | backend/src/se_mentor/context/context_builder.py:90-91 | A package counts its goal and the text, id and section of every item. |
| ContextPacking.RankedByPriority | backend/src/se_mentor/context/context_builder.py:64-67 | Optional items are tried by falling priority, those of equal priority by id. |
| ContextPacking.RankedPermutes | backend/src/se_mentor/context/context_builder.py:64-65 | The items tried are all knowledge items and all repository items, the latter relabelled. |
| ContextPacking.PackingIsMaximal | backend/src/se_mentor/context/context_builder.py:68-74 | No dropped item would fit into the finished package. |
| ContextPacking.PassedOverForSmaller | backend/src/se_mentor/context/context_builder.py:68-74 | An item is passed over only for strictly smaller items of lower rank. |
| ContextPacking.IncludedAreTaken | backend/src/se_mentor/context/context_builder.py:68-74 | The included items are those that fit when it was their turn, in rank order. |
| ContextPacking.InputOrderIsIrrelevant | backend/src/se_mentor/context/context_builder.py:64-75 | With distinct ids the package does not depend on input order. |
| ContextPacking.Untrusted | backend/src/se_mentor/context/context_builder.py:78-87 | The repository label becomes the untrusted one; all other labels and everything else are kept. |
| ContextPacking.RepositoryIsUntrusted | backend/src/se_mentor/context/context_builder.py:60-75 | Whatever is packed behind the mandatory items is a knowledge item or a repository item that no longer carries the repository label. |
| Bootstrap.Scheduler.ClaimProject | backend/src/se_mentor/api/projects.py:364-368 | Under the lock a claim succeeds only for a project without a job and gives it exactly one; the balance of jobs and status of every project is kept. |
| Bootstrap.Scheduler.SubmitJob | backend/src/se_mentor/api/projects.py:369-369 | An accepted submission keeps the balance of every project; a failed one leaves its project BOOTSTRAPPING without a job and touches no other. |
| Bootstrap.Scheduler.StartJob | backend/src/se_mentor/api/projects.py:373-374 | The one worker takes the job that was submitted first. |
| Bootstrap.Scheduler.FinishJob | backend/src/se_mentor/api/projects.py:373-391 | The worker's final update makes its project READY or BOOTSTRAP_FAILED by how the job went, leaves it without a job and keeps the balance of every other. |
| Bootstrap.JobsChange | backend/src/se_mentor/api/projects.py:360-391 | How every step changes the number of a project's jobs. |
| Bootstrap.OneJobEachExactly | backend/src/se_mentor/api/projects.py:360-391 | After any interleaving every project has exactly one job while BOOTSTRAPPING and none otherwise, if and only if no submission failed. |
| Bootstrap.StuckForever | backend/src/se_mentor/api/projects.py:364-370 | A project BOOTSTRAPPING without a job stays so under every step. |
| Bootstrap.NoDuplicateRuns | backend/src/se_mentor/api/projects.py:364-391 | A project is never queued twice or while it runs, and none is left BOOTSTRAPPING when nothing is claimed, queued or running. |
| HistoryPaging.DedupeBy | frontend/src/app/App.tsx:2310-2322 | The loop computes the list without duplicates. |
| HistoryPaging.DedupeKeepsFirst | frontend/src/app/App.tsx:2310-2322 | That list holds the first row of every id, in order. |
| HistoryPaging.HistoryList.Append | frontend/src/app/App.tsx:885-899 | A received page is appended and deduplicated. |
| HistoryPaging.StretchOfPage | backend/src/se_mentor/api/governance_history.py:41-78 | A page is the stretch of rows from its offset; more is announced exactly when rows follow. |
| HistoryPaging.PagingIsComplete | frontend/src/app/App.tsx:864-899 | Under insertions at the head, edits and failed requests nothing is listed twice, the decisions of the first page's moment are listed as a gapless prefix in order, and all of them once no more is announced. |
| HistoryPaging.PagingFinishes | frontend/src/app/App.tsx:864-899 | Paging keeps up with insertions: once as many rows were asked for as existed at first and were inserted since, no more is announced and every decision of the first page's moment is listed. |
| Repair.RepairLoop.RecordAttempt | backend/src/se_mentor/agent/repair_loop.py:31-61 | Records the attempt, counts it, sets the status and returns the decision. |
| Repair.DecisionAtStep | backend/src/se_mentor/agent/repair_loop.py:36-61 | At every step of a run: completed exactly if it passed; repair continues exactly if it did not pass, no earlier attempt of the task has its diff or its nonempty signature, and the count stays below max_repairs; the number of distinct diffs and the reason. |
| Repair.StatusAfterStep | backend/src/se_mentor/agent/repair_loop.py:41-61 | The task's count and status after every attempt. |
| Repair.StoppingRunIsBounded | backend/src/se_mentor/agent/repair_loop.py:31-61 | In any run over all tasks in which a task is attempted again only after the loop decided to continue, it makes at most max_repairs attempts from count zero, the attempts that others follow have distinct diffs and nonempty signatures, and each such decision reports as many distinct diffs as attempts. |
| Repair.DecidedInRun | backend/src/se_mentor/agent/repair_loop.py:36-61 | The decision on a step of a run is the one on the task's own attempts so far. |
| Repair.TasksAreIsolated | backend/src/se_mentor/agent/repair_loop.py:36-41 | After any run a task's attempts and count are its own. |
| Repair.DecisionIgnoresOtherTasks | backend/src/se_mentor/agent/repair_loop.py:31-61 | Attempts on other tasks never change a task's decisions. |
| Schema.AcceptsExactly | backend/migrations/versions/0060_execution_transaction.py:25-95 | A write is accepted exactly if unique index and foreign keys hold afterwards and its row passes the triggers. |
| Schema.LocksGuardCommits | backend/migrations/versions/0060_execution_transaction.py:227-242 | In every run of accepted writes each project has at most one ACTIVE WRITE lock and each write leaving a transaction COMMITTED happens while it names exactly that lock. |
| Schema.WriteKeepsCommitLocks | backend/migrations/versions/0060_execution_transaction.py:227-242 | One write keeps every committed transaction holding its lock exactly when it is not an accepted write that deactivates or moves the lock of one. |
| Schema.CommitLocksExactly | backend/migrations/versions/0060_execution_transaction.py:227-242 | Committed transactions hold their locks throughout a run exactly when it contains no such write. |
| Schema.LockMayGoAfterCommit | backend/migrations/versions/0060_execution_transaction.py:48-54 | Such a write exists: the lock of a committed transaction may be released afterwards. |
| Schema.WriteKeepsNoArmedBlock | backend/migrations/versions/0050_approval_policy.py:263-275 | A write keeps active executable policies off BLOCK decisions exactly when it does not change a verdict to BLOCK under one. |
| Schema.NoArmedBlockExactly | backend/migrations/versions/0050_approval_policy.py:263-275 | Active executable policies stay off BLOCK decisions throughout a run exactly when no write changes a verdict to BLOCK under one. |
| Schema.ArmedBlockIsReached | backend/migrations/versions/0050_approval_policy.py:263-275 | Such a run of accepted writes exists. |
| Schema.NoArmedBlockEver | backend/migrations/versions/0050_approval_policy.py:263-275 | In every run that writes verdicts once no ACTIVE executable policy belongs to a BLOCK decision. |
| ReGovernance.Service.TriggerNewScope | backend/src/se_mentor/governance/regovernance.py:36-100 | Retires the task's rows, blocks it and returns the ids of exactly the policies that were active, sorted; an unknown task changes nothing. |
| ReGovernance.RowsAfter | backend/src/se_mentor/governance/regovernance.py:46-93 | Active decisions, policies and plans, current reports and open requests of the task are retired, policies also disarmed, all other rows stay, and the task is BLOCKED with ANALYSIS_REQUIRED and the sorted new paths in its message. |
| ReGovernance.UpdateWhere | backend/src/se_mentor/governance/regovernance.py:70-78 | The loop over a query's rows updates exactly the selected rows and collects their ids. |
| ReGovernance.IsAcceptedRun | backend/src/se_mentor/governance/regovernance.py:53-78 | The new tables are reached by row writes that the schema accepts one by one and that change no verdict. |
| ReGovernance.StaysReachable | backend/src/se_mentor/governance/regovernance.py:46-100 | Re-governance extends a run of accepted writes to one, so the lock and policy guarantees go on holding. |
| ReGovernance.NothingStaysActive | backend/src/se_mentor/governance/regovernance.py:46-85 | The task keeps no active decision, policy or plan, no current report and no open request. |
| ReGovernance.OtherTasksUntouched | backend/src/se_mentor/governance/regovernance.py:46-100 | Rows of other tasks and all verdicts stay as they were. |
| ReGovernance.RetiredExactly | backend/src/se_mentor/governance/regovernance.py:69-78 | The returned ids are exactly those of policies that were active and no longer are. |
| Sorting.SortBySorts | backend/src/se_mentor/context/context_builder.py:64-67 | Sorting by a key orders and permutes. |
| Sorting.StringLeMeans | backend/src/se_mentor/context/context_builder.py:66-66 | Strings are compared by code point at the first difference, a prefix first. |
| Sorting.SortIsStable | backend/src/se_mentor/governance/decision_service.py:152-152 | Elements with equal keys keep their order. |

## Left out

- LLM providers, HTTP routing, sessions, workspace access checks, credentials, launcher and user interface: foreign calls and plumbing.
- Policy compiler, temporary grants, orchestrator, tool dispatcher, transaction recovery and knowledge store: they are not part of this model.
- Glob matching, JSON text, hashing, redaction and git: glob matching is a parameter (what holds under every glob holds under fnmatch, and the exact conditions for merging are about all globs), payloads are opaque texts, the rest is omitted.
- Row order of SQL queries: the rows of the impact search come in one fixed order; nothing depends on which, so every tie-breaking of the ORDER BY is covered.
- Scope text of knowledge entries: given as the list of paths it names instead of as JSON.
- Action snapshots, fingerprints and evidence of a turn: given as strings read from the environment; feedback texts, stage publishing and performance logs are omitted.
- Carriage returns in event streams: the standard's reader is modelled for texts without them, where lines end with a line feed.
- Event ids: unbounded naturals, without the precision limit of JavaScript numbers; the numeric value of an id text that is not decimal is left open.
- Switching the mounted task and back, and repeated invocation of a state updater: the client stays on one task and each reply is merged once or, as a repeated reply, again.
- Readiness cache of projects: whether a persisted READY state is found is an arbitrary input.
- Refreshing the first history page while another page loads: one page request is in flight at a time.
- Foreign keys to tasks, projects and actions and the text-length checks of the schema, that of a committed transaction's manifest included (which a NULL passes): leaving them out only makes more writes acceptable.
- CompletionGate (whether a task may be called complete), ErrorMapper (exceptions to error codes), evaluation scores and timeline text: single decisions and formatting on top of the modelled parts.
