# Verification of the wish-builder control logic

A Dafny 4.11 model of the parts of wish-builder whose correctness is an argument over whole runs or over all
inputs, with machine-checked proofs of what they promise. `dafny verify dfyconfig.toml` checks everything.

- **Planning** (`TaskGraph`, `CycleFinder`, `DepthFinder`, `PathPatterns`, `PathShapes`, `Manifest`, `Scheduler`,
  `SchedulerRun`, `SchedulerProgress`, `ScheduleContents`): the scheduler's answer to any manifest is written out, and
  what the manifest validator checks and what the scheduler filters together give exclusivity, order, progress and no
  lost parallelism in every reachable state of a run.
- **Effects** (`ExternalState`, `FakePorts`, `EffectHistory`, `EffectInvariants`, `EffectDecisions`, `Inspections`):
  any number of port instances over one shared state refine a history of uses per operation id, which decides every
  answer field by field.
- **Promotion** (`PromotionPlan`, `Promotion`, `PromotionOutcome`): a two-file promotion over a directory in which
  every operation may raise, before or after taking effect, and in which the process may die at any point.
- **Safety evidence** (`Hunks`, `ArcUniverse`, `ArcSemantics`, `ArcLiveness`, `BranchMatching`,
  `BranchCorrespondence`, `BranchPairs`): the hunk check, the static branch arcs against an operational semantics, and
  the matching of old to new branches.
- **Canonical JSON and the backend registry** (`JsonText`, `JsonRoundTrip`, `CanonicalShape`, `JsonTokens`,
  `JsonGrammar`, `Normalize`, `CanonicalForm`, `NormalForms`, `Registry`, `RegistryDecoder`, `RegistryBytes`,
  `RegistryRules`): printing and strict reading are inverse, the reader takes exactly the grammar of RFC 8259, the
  canonical text is the one shortest tidy text of its value, normalisation over object graphs is canonical, and the
  registry decoder is the exact inverse of the encoder on the registries that follow the rules.
- **Evidence store** (`EvidenceStore`, `EvidenceRuns`): writers, readers, process crashes and power loss as
  interleaved steps.
- **Archive scan** (`ArchiveScan`): windowed scanning and bounded reading under arbitrary short reads.

Where the code updates state in place the model does too: the cycle and depth searches, the ports, the promotion,
the arc walker, the normaliser's `active` set, and the loops over hunks, branches, blocks and writes are methods,
each proved against a specification function or predicate about which the theorems are stated.

## Findings

Five statements that the code's names or comments suggest do not hold as they stand. Each has a lemma with a
concrete input, and the exact condition under which the statement holds.

- `patterns_overlap` calls itself conservative, but `src/foo*` and `src/foobar.py` share a path and are reported as
  disjoint (`OverlapMissesASharedPath`). It is conservative for a pair of literal prefixes exactly when they overlap
  component by component or neither is a textual prefix of the other (`ConservativeExactly`), in particular for
  component-aligned patterns (`OverlapIsConservative`).
- `_hunks_describe_snapshot_diff` needs more than that patching the old text gives the new one: every hunk must also
  stand where the earlier hunks have moved it (`PatchAloneIsNotEnough`, `DescribesIsExact`).
- `_promote_distribution_set` can raise an ordinary error although both new files are in place, when removing a
  temporary file or releasing the lock raises after the commit (`LateFaultLooksLikeAFailure`); `HonestExactly` says
  of any run exactly when the outcome misleads. An exception other than `OSError` that interrupts the rollback makes
  the final clean-up delete the backup of a file that was not restored (`InterruptedRollbackLosesAFile`,
  `LossExactly`).
- A successful `put` need not survive power loss. It returns early when the object is already there, without
  synchronising the directory (`EarlyReturnIsNotDurable`), and the first `put` into a new store creates directories
  whose own names nothing synchronises (`FirstPutIsNotDurable`). It does survive if and only if the directory is on
  disk, from the start or because it came through a power loss, and the `put` wrote the object itself on a platform
  that synchronises directories, or since the object appeared some writer synchronised the directory or the object
  came through a power loss (`PutIsDurableExactly`, `DurableExactly`).
- The arc universe of a file can hold arcs of dead code, in definitions that are never reached too (`DeadCodeHasArcs`,
  `DeadDefinitionHasArcs`), and names a decorated definition by the line of its `def`, although its first decorator is
  executed before that (`DecoratedTargetIsMisnamed`). It is exact if and only if no `if` or loop header, nested
  definitions included, stands behind a statement that cannot fall through, and no branch goes to a decorated
  definition (`ExactExactly`); `TakenExactly` says for any file which transitions executions take.

## Model

| member | source | states |
|---|---|---|
| TaskGraph.DependsOnIsReachability | wish-builder/scripts/wishctl.py:1581-1599 | The search that avoids tasks already seen is exactly reachability by a non-empty dependency walk, on cyclic graphs too |
| TaskGraph.DependencyOrderIsAcyclic | wish-builder/scripts/wishctl.py:1602-1626 | An order in which every known dependency comes earlier rules out closed walks |
| CycleFinder.CycleSearch.Report | wish-builder/scripts/wishctl.py:1615-1619 | The stack segment from the open dependency on is recorded as a closed dependency walk, once |
| CycleFinder.CycleSearch.Visit | wish-builder/scripts/wishctl.py:1607-1621 | A visit restores the stack, keeps every earlier mark and cycle, and ends with its own node closed; while no cycle is found the finish order lists dependencies first |
| CycleFinder.CycleSearch.Run | wish-builder/scripts/wishctl.py:1623-1626 | All nodes are finished, the result is empty if and only if the graph is acyclic, and then the finish order is topological |
| CycleFinder.FindCycles | wish-builder/scripts/wishctl.py:1602-1626 | Every reported list is a closed walk, none is reported twice, and the list is empty exactly for acyclic graphs |
| DepthFinder.DepthSearch.Depth | wish-builder/scripts/wishctl.py:1632-1646 | On an acyclic graph the memo only ever holds lengths of longest dependency chains |
| DepthFinder.MaxDepth | wish-builder/scripts/wishctl.py:1629-1648 | On an acyclic graph the result is the length of the longest dependency chain |
| PathPatterns.NormalizePath | wish-builder/scripts/wishctl.py:1519-1523 | The stripping loop computes the normal form used by the pattern theorems |
| PathShapes.NormalizesExactly | wish-builder/scripts/wishctl.py:1519-1523 | A path has the given normal spelling if and only if that is what stands inside slashes, behind `./` parts, inside white space, with nothing more to take off any layer |
| PathShapes.StaticPrefixExactly | wish-builder/scripts/wishctl.py:1526-1533 | The static prefix is the text before the slashes before the first wildcard |
| PathShapes.OverlapsExactly | wish-builder/scripts/wishctl.py:1540-1553 | The overlap test says yes if and only if the spellings are equal or some path lies under both static prefixes |
| PathShapes.LiteralPatternMatches | wish-builder/scripts/wishctl.py:1556-1567 | A pattern without wildcards matches exactly the path it names and everything below |
| PathShapes.RecursivePatternMatches | wish-builder/scripts/wishctl.py:1556-1567 | A name followed by a slash and two stars matches exactly the directory and everything below |
| PathPatterns.OverlapIsConservative | wish-builder/scripts/wishctl.py:1526-1567 | A path that matches two component-aligned patterns in normalised spelling forces the overlap test to be true |
| PathPatterns.ConservativeExactly | wish-builder/scripts/wishctl.py:1540-1567 | For which pairs of literal prefixes the overlap test misses no shared path, as an equivalence |
| PathPatterns.StarMissesLongerName | wish-builder/scripts/wishctl.py:1540-1567 | The whole family of missed pairs: a name that continues the text before a closing star |
| PathPatterns.OverlapMissesASharedPath | wish-builder/scripts/wishctl.py:1540-1567 | `src/foo*` and `src/foobar.py` share a path and are called disjoint |
| Manifest.CheckTasks | wish-builder/scripts/wishctl.py:1714-1752 | No error exactly when ids are stable and distinct and all fields are well formed; then the kept tasks are all tasks |
| Manifest.StableIdMatches | wish-builder/scripts/wishctl.py:161 | An id is stable exactly when it is an upper-case word, a hyphen and a tail, with an optional line feed behind it |
| Manifest.FieldRulesExactly | wish-builder/scripts/wishctl.py:1714-1752 | The field rules written out: ids of the pattern and distinct, dependencies and paths not blank, at least one path, wave 0, 1 or 2 |
| Manifest.CheckDependencies | wish-builder/scripts/wishctl.py:1813-1826 | No error exactly when every dependency is known, not the task itself, and in no later wave |
| Manifest.CheckCycles | wish-builder/scripts/wishctl.py:1828-1830 | No error exactly when the dependency graph is acyclic, and every reported cycle is real |
| Manifest.CheckSerial | wish-builder/scripts/wishctl.py:1846-1853 | No error exactly when any two tasks of the wave are ordered by a dependency walk |
| Manifest.CheckOwnership | wish-builder/scripts/wishctl.py:1855-1869 | No error exactly when any two unordered wave-1 tasks own no overlapping patterns |
| Manifest.ValidateManifest | wish-builder/scripts/wishctl.py:1651-1869 | Over all these checks together: no error if and only if the manifest is admitted |
| Scheduler.TableOfDistinctTasks | wish-builder/scripts/wishctl.py:1570-1578 | For an admitted manifest the task table is the task list itself |
| Scheduler.SortIsSorted | wish-builder/scripts/wishctl.py:2229 | Sorting by id orders the tasks and neither loses nor invents one |
| Scheduler.SelectReady | wish-builder/scripts/wishctl.py:2228-2245 | The selection loop, with its skips, its lookup error and its stop at capacity, computes the specified selection |
| Scheduler.ReadyTasks | wish-builder/scripts/wishctl.py:2205-2252 | The scheduler computes the answer function that the run theorems are about |
| Scheduler.SelectTakesFirst | wish-builder/scripts/wishctl.py:2228-2245 | When no two tasks in play overlap, exactly the first eligible ones up to capacity are selected |
| ScheduleContents.TableIsListed | wish-builder/scripts/wishctl.py:1570-1578 | For any task list the table holds each id once, with the last task listed under it; blank ids are skipped |
| ScheduleContents.SelectIsGreedy | wish-builder/scripts/wishctl.py:2228-2245 | For any table the loop selects a waiting candidate exactly when it overlaps no active task and no earlier selected one and there is room left |
| ScheduleContents.AnswerExactly | wish-builder/scripts/wishctl.py:2205-2252 | For any manifest at all, with statuses and numbers written out: the wave, the capacity max(0, n - active) with n = 1 in waves 0 and 2, the limit or `max_concurrency` otherwise, completeness, and which ids in which order; a lookup error names a missing dependency |
| SchedulerRun.NoParallelismIsLost | wish-builder/scripts/wishctl.py:2205-2252 | In every state of a run the scheduler returns exactly the first min(capacity, eligible) tasks in id order: the overlap filter removes nothing |
| SchedulerRun.SerialWaveHasOneInPlay | wish-builder/scripts/wishctl.py:2218-2219 | In waves 0 and 2 at most one task is eligible or active at any time |
| SchedulerRun.StepKeepsInv | wish-builder/scripts/wishctl.py:2205-2252 | Dispatching any subset of the answer, and every allowed status change, keeps admission, the closed done set and the readiness of active tasks |
| SchedulerRun.RunKeepsOrder | wish-builder/scripts/wishctl.py:2205-2252 | In every run, whether it starts fresh (`FreshIsInv`) or from done and active work in order, an active task is in the current wave and everything it depends on, at any distance, is done; the done set is closed under dependencies |
| SchedulerRun.RunKeepsExclusivity | wish-builder/scripts/wishctl.py:1846-1869 | Two tasks are never active together in waves 0 and 2; in wave 1 their patterns do not overlap and no path matches component-aligned patterns of both |
| SchedulerRun.RunKeepsConcurrency | wish-builder/scripts/wishctl.py:2217-2219 | The number of active tasks never exceeds the largest concurrency a dispatch of the run used, or the number it started with |
| ScheduleContents.RunKeepsLimit | wish-builder/scripts/wishctl.py:2217-2219 | If no dispatch of a run may go beyond n, by its limit or by `max_concurrency`, at most n tasks are ever dispatched or with an open pull request, or as many as at the start |
| SchedulerProgress.SomethingIsReady | wish-builder/scripts/wishctl.py:2205-2252 | For any admitted manifest with a limit of at least 1, nothing active and unfinished work, whatever is done already, the answer is a non-empty schedule |
| SchedulerProgress.AnswerIsSchedule | wish-builder/scripts/wishctl.py:2228-2252 | For any admitted manifest the scheduler fails on no lookup and names different dispatchable tasks |
| SchedulerProgress.RoundFinishesScheduled | wish-builder/scripts/wishctl.py:2205-2252 | From any admitted idle manifest, dispatching the answer and finishing it is an allowed run that finishes exactly the scheduled tasks |
| SchedulerProgress.AllWorkCompletes | wish-builder/scripts/wishctl.py:2205-2252 | From any admitted idle manifest, done work included, as many rounds as there are tasks finish every task |
| FakePorts.FakeTrellisLifecyclePort.Existing | wish_builder/adapters/fakes.py:195-234 | The lookup marks conflicts and answers as the atomic step function says |
| FakePorts.FakeTrellisLifecyclePort.PrepareAttempt | wish_builder/adapters/fakes.py:236-279 | The critical section is one step of the shared state |
| FakePorts.FakeTrellisLifecyclePort.CheckAttempt | wish_builder/adapters/fakes.py:280-330 | The same for checks, which need a prepared attempt |
| FakePorts.FakeTrellisLifecyclePort.FinishAttempt | wish_builder/adapters/fakes.py:331-380 | The same for finishes, which need a checked attempt |
| FakePorts.FakeBackendChannelPort.Existing | wish_builder/adapters/fakes.py:565-596 | The lookup of the channel port, which also marks ids used on the other port |
| FakePorts.FakeBackendChannelPort.Reserve | wish_builder/adapters/fakes.py:598-650 | The critical section is one step: reserved ids, capabilities and collisions decide |
| FakePorts.FakeBackendChannelPort.Send | wish_builder/adapters/fakes.py:652-714 | The same for sends: reservation, packet size, turn and message ids decide |
| FakePorts.FakeBackendChannelPort.Cancel | wish_builder/adapters/fakes.py:759-815 | The same for cancellations, which copy the turn they cancel |
| EffectHistory.AnswersFollowHistory | wish_builder/adapters/fakes.py:195-815 | For every run of any port instances: a first use is decided once, as the tables then say, a repeat gets that answer while all uses agree, any differing use gives UNKNOWN forever, and nothing but a first use changes a table |
| EffectDecisions.RunFollows | wish_builder/adapters/fakes.py:236-815 | After any run the tables hold exactly the facts of the applied first uses, each recorded once under its own id |
| EffectDecisions.FirstUseAnswers | wish_builder/adapters/fakes.py:236-815 | For every run: the answer to the first use of an id, field by field, in terms of the effects applied before. A reservation is applied exactly when it is not scripted, no applied reservation has its channel or its attempt, and provider and digests are the port's; likewise prepares, checks, finishes, sends and cancellations, each with the reason of its refusal |
| EffectDecisions.DifferingUseIsRefused | wish_builder/adapters/fakes.py:195-234 | A use of another type or with another hash is answered UNKNOWN with the collision as its reason and no other field |
| EffectInvariants.FinishesWereChecked | wish_builder/adapters/fakes.py:236-379 | Every applied finish has an applied check of an applied prepare of the same attempt |
| EffectInvariants.SendsAreExclusive | wish_builder/adapters/fakes.py:652-714 | Every applied send runs on the channel reserved for its attempt, and no other applied send has its turn or its message |
| EffectInvariants.CancellationsAreExclusive | wish_builder/adapters/fakes.py:759-815 | Every applied cancellation keeps the identities, the result digest and a terminal state of the applied send of its turn, and no other applied cancellation names that turn |
| EffectInvariants.TablesAreAnswers | wish_builder/adapters/fakes.py:652-815 | After any run the tables of turns, messages and cancellations hold exactly what the applied sends and cancellations answered |
| EffectInvariants.ReservationsAreInverse | wish_builder/adapters/fakes.py:598-650 | The reservation table and the attempt table are inverse to each other in every run |
| EffectInvariants.RecordsAreWriteOnce | wish_builder/adapters/fakes.py:60-75 | A record, once written, is never changed or removed by any later call |
| EffectInvariants.StepAppliesAtMostOne | wish_builder/adapters/fakes.py:236-815 | A call applies at most one effect, and none when its id was used before |
| Inspections.InspectLifecycle | wish_builder/adapters/fakes.py:381-482 | The three lifecycle inspections compute the specified answer without changing the state |
| Inspections.InspectChannel | wish_builder/adapters/fakes.py:716-757 | The two channel inspections do, too |
| Inspections.LifecycleInspectionFollowsHistory | wish_builder/adapters/fakes.py:381-482 | After any run an inspection repeats the recorded answer exactly when all uses agree and ask for the same command, is UNKNOWN otherwise with its reason and no other field, ABSENT for an unused id, and never reports an id of the other port as applied |
| Inspections.ChannelInspectionFollowsHistory | wish_builder/adapters/fakes.py:716-757 | The same for reservations and turns |
| Promotion.Output.Stage | scripts/build_distributions.py:515-563 | A staged copy holds the bytes exactly when no operation raised, and no other path changes at any point |
| Promotion.Output.BackUpBoth | scripts/build_distributions.py:719-727 | Exactly the existing destinations get a backup with their bytes |
| Promotion.Output.ReplaceBoth | scripts/build_distributions.py:729-731 | A kind counts as attempted before its move, and ends with new bytes exactly when the move took effect |
| Promotion.Output.Attempt | scripts/build_distributions.py:716-741 | The body raises nothing exactly when every operation is quiet, and every intermediate directory keeps both prior files |
| Promotion.Output.Rollback | scripts/build_distributions.py:742-758 | Where each destination and backup stands after a rollback that collects `OSError`s and stops at anything else |
| Promotion.Output.GiveUp | scripts/build_distributions.py:779-785 | Which staged files and backups the final clean-up removes, and when its own exception replaces the reported one |
| Promotion.Output.Release | scripts/build_distributions.py:670-695 | A lost or stuck lock is reported only when nothing else is, except for exceptions that override, and the lock stays behind exactly when its removal was not reached or took no effect, or somebody rewrote it |
| Promotion.Output.Promote | scripts/build_distributions.py:698-785 | The exact outcome, destinations, temporary files, backups and lock for every choice of faults; success leaves none of them behind and describes the new files; a crash at any point finds the prior bytes or both new files |
| PromotionOutcome.OutcomeIsHonest | scripts/build_distributions.py:698-785 | All or nothing: what each kind of outcome lets the caller conclude, unless the clean-up hides a change |
| PromotionOutcome.HonestExactly | scripts/build_distributions.py:742-785 | The outcome of any run is honest unless an operation of the stated kind raises and a destination changed |
| PromotionOutcome.LossExactly | scripts/build_distributions.py:742-785 | A prior file is lost after a failed promotion if and only if an interrupt kept it from being restored, its backup was then removed, and the new file differs |
| PromotionOutcome.NothingElseRemains | scripts/build_distributions.py:670-785 | When the clean-up operations work, a promotion leaves no temporary file, no lock, and no backup but those an incomplete rollback reports |
| PromotionOutcome.InterruptedRollbackLosesAFile | scripts/build_distributions.py:742-785 | Two faults, both outside the clean-up, and a directory in which the bytes of the prior wheel are gone |
| PromotionOutcome.LateFaultLooksLikeAFailure | scripts/build_distributions.py:779-785 | One fault while removing a temporary file turns a committed promotion into an ordinary error |
| Hunks.CheckHunks | scripts/ci_safety_evidence.py:508-567 | Comparing neighbours accepts exactly the bounded, ordered, pairwise disjoint hunk lists |
| Hunks.AdmissibleExactly | scripts/ci_safety_evidence.py:201-204 | Those lists written out: no negative count, a line on one side at least, all within the texts, and every line a hunk names before every line a later one names |
| Hunks.DescribeSnapshotDiff | scripts/ci_safety_evidence.py:207-228 | The cursor loop decides, for admissible hunks, whether they are an exact diff of the two texts |
| Hunks.DescribesIsExact | scripts/ci_safety_evidence.py:196-228 | True if and only if every hunk changes something, stands where earlier hunks moved it, and patching old gives new |
| Hunks.ExactDiffReverses | scripts/ci_safety_evidence.py:207-228 | The reversed hunks are an exact diff from new to old, and the hunk counts account for the difference in length |
| Hunks.PatchAloneIsNotEnough | scripts/ci_safety_evidence.py:207-228 | Hunks that patch old to new and are still rejected for their position |
| ArcUniverse.ArcWalker.WalkBlock | scripts/ci_safety_evidence.py:1469-1497 | The walk adds exactly the targets of the branches of the block, nested blocks and definitions included |
| ArcUniverse.SourceBranchArcUniverse | scripts/ci_safety_evidence.py:1452-1507 | The whole walk yields exactly the arcs of the file with exit -1 |
| ArcSemantics.UniverseIsExact | scripts/ci_safety_evidence.py:1452-1507 | At every branch an execution of the file can reach, jumps included, the universe holds exactly the lines of the statements that execution can go to next |
| ArcLiveness.TakenExactly | scripts/ci_safety_evidence.py:1452-1507 | For every file, executions take exactly the transitions from the live branches to the lines these enter, liveness and entry lines being decided from the text |
| ArcLiveness.ExactExactly | scripts/ci_safety_evidence.py:1452-1507 | The universe is the set of transitions that executions take if and only if no branch, in nested definitions too, stands behind a statement that cannot fall through, and none goes to a decorated definition |
| ArcLiveness.UniverseWithoutJumps | scripts/ci_safety_evidence.py:1452-1507 | Without jumps that is so if and only if no branch goes to a decorated definition |
| ArcLiveness.DeadCodeHasArcs | scripts/ci_safety_evidence.py:1469-1484 | After a `return` the universe holds arcs of an `if` that nothing takes |
| ArcLiveness.DeadDefinitionHasArcs | scripts/ci_safety_evidence.py:1469-1497 | It also holds those of an `if` in a definition after a `return` |
| ArcLiveness.DecoratedTargetIsMisnamed | scripts/ci_safety_evidence.py:1458-1482 | An arc to a decorated definition goes to the line of its `def`, execution to its decorator |
| BranchMatching.MatchByCorrespondence | scripts/ci_safety_evidence.py:1848-1860 | The dictionary pass matches exactly the first old branch of each correspondence key with a single bearer |
| BranchMatching.MatchByStructure | scripts/ci_safety_evidence.py:1862-1884 | The filtering pass does the same for structural keys on what is left |
| BranchCorrespondence.MatchBranches | scripts/ci_safety_evidence.py:1841-1884 | The map is injective, old branches split into matched and unmatched, each new branch is used at most once, and pairs agree in kind and owner and in both digests or in the path |
| BranchPairs.MatchedExactly | scripts/ci_safety_evidence.py:1848-1884 | A pass matches an old branch to exactly the only available new branch that agrees with it in kind, owner and both digests, or in kind, owner and path, if no earlier old branch does |
| BranchPairs.PairedExactly | scripts/ci_safety_evidence.py:1841-1884 | The map as a whole: an old and a new branch are paired if and only if they are a pair of the first pass (kind, owner, decision and body digest, on all branches) or of the second (kind, owner and path, on what the first leaves) |
| BranchMatching.KeysAreFields | scripts/ci_safety_evidence.py:60-75 | Equal keys mean equal kind, owner and digests, or equal kind, owner and path |
| BranchCorrespondence.UnchangedIsMatchedToItself | scripts/ci_safety_evidence.py:1841-1884 | With distinct structural keys, identical inventories are matched branch by branch with nothing left over |
| BranchCorrespondence.UnmatchedHasNoCounterpart | scripts/ci_safety_evidence.py:1862-1884 | With distinct structural keys, the slot of an unmatched old branch is empty in the new file or taken by another branch |
| JsonRoundTrip.PrintedIsRead | wish_builder/contracts/serialization.py:75-86 | Printing and reading by the RFC 8259 grammar are inverse for every value without fractions, inside any text that ends a value |
| JsonRoundTrip.CanonicalTextLoads | wish_builder/contracts/serialization.py:75-86 | The strict reader gives back exactly the printed value |
| JsonRoundTrip.CanonicalTextIsInjective | wish_builder/contracts/serialization.py:75-86 | Equal canonical texts come from equal values |
| CanonicalShape.LoadedIsNoShorter | wish_builder/contracts/serialization.py:75-86 | No text that loads to a value without fractions is shorter than its printed text, and a tidy one of that length is the printed text |
| CanonicalShape.CanonicalExactly | wish_builder/contracts/serialization.py:75-86 | The canonical text is the one text per value: shortest among all that load to it, keys increasing in every object, hexadecimal digits in lower case, one line feed behind it |
| CanonicalShape.CanonicalTextIsOneLine | wish_builder/contracts/serialization.py:86 | The closing line feed is the only control character |
| Normalize.Normalizer.Normalize | wish_builder/contracts/serialization.py:31-72 | The recursion restores `active` on every exit, failures included, and computes the specified result |
| Normalize.NormalizeUnfolds | wish_builder/contracts/serialization.py:31-72 | Exactly the graphs that unfold within the depth limit are accepted, whatever they share, and the result is what they unfold to |
| NormalForms.NormalizesExactly | wish_builder/contracts/serialization.py:19-72 | Normalisation returns a value if and only if it is the normal form of the graph, written out: depth at most 128, 64-bit integers, composed strings with unified line ends and no surrogates, string keys that do not collide |
| Normalize.CyclicGraphsAreRejected | wish_builder/contracts/serialization.py:42-67 | A graph with a cycle anywhere below its root is rejected |
| CanonicalForm.NormalizeIsCanonical | wish_builder/contracts/serialization.py:19-72 | Results have normalised strings and keys, integers in range and bounded depth |
| CanonicalForm.UnifyIsReplace | wish_builder/contracts/serialization.py:20-23 | The one pass over a string is the two replacements of line ends after each other |
| CanonicalForm.NormalizeIsIdempotent | wish_builder/contracts/serialization.py:19-72 | Any representation of a normalised value normalises to that value |
| CanonicalForm.OrderDoesNotMatter | wish_builder/contracts/serialization.py:51-67 | Dictionary insertion order affects neither the result nor whether there is one |
| CanonicalForm.CanonicalTextDetermines | wish_builder/contracts/serialization.py:75-86 | Two values have the same canonical text if and only if they have the same normal form |
| RegistryDecoder.ObjectOfPairs | wish_builder/contracts/backend_registry_decoder.py:29-35 | A dictionary results exactly when all keys differ, and then holds exactly the pairs |
| RegistryDecoder.MembersAreNeverReplaced | wish_builder/contracts/backend_registry_decoder.py:29-35 | While reading an object no member is replaced by a later one |
| JsonGrammar.LoadsExactly | wish_builder/contracts/backend_registry_decoder.py:188-207 | The strict reader takes exactly the texts of the RFC 8259 grammar with blanks around them, keys not repeated, and returns the value they denote |
| RegistryDecoder.PrimitiveRoundTrip | wish_builder/contracts/backend_registry_decoder.py:166-185 | A valid registry decodes from its primitive form to itself |
| RegistryDecoder.BytesRoundTrip | wish_builder/contracts/backend_registry_decoder.py:188-207 | A valid registry whose canonical bytes fit the limit decodes back to itself |
| RegistryDecoder.DecodedIsValid | wish_builder/contracts/backend_registry_decoder.py:77-185 | Whatever is decoded passes every constructor check and round-trips |
| RegistryDecoder.DecoderIsExact | wish_builder/contracts/backend_registry_decoder.py:77-185 | For every value: the decoder returns a given registry if and only if the registry is valid and its primitive form is the value with its strings in stored form |
| RegistryRules.ValidExactly | wish_builder/contracts/backend_registry.py:115-348 | A registry is valid if and only if it follows the rules, written out: numbers and literals, increasing and distinct identities, a profile of the record's provider, at most two qualified records per cell, the status rules, and the digest of its own body |
| RegistryRules.DecodedDigestIsItsOwn | wish_builder/contracts/backend_registry.py:342-348 | A decoded registry carries the canonical digest of what was decoded, in stored form and without its `registryDigest` member |
| RegistryRules.DigestDeterminesRegistry | wish_builder/contracts/backend_registry.py:342-348 | Registries with equal digests are equal, unless the digest collides on their very bodies |
| RegistryRules.DigestIdentifiesRegistry | wish_builder/contracts/backend_registry.py:342-348 | Under a collision-free digest of canonical texts two normalised registries have equal digests exactly when they are equal |
| RegistryRules.BytesAreDecodedExactly | wish_builder/contracts/backend_registry_decoder.py:188-207 | Bytes decode to a registry if and only if they are at most 256 KiB, strict UTF-8 and JSON, and the registry follows the rules and has the stored form as its primitive form |
| RegistryRules.ProfileIsWritten | wish_builder/contracts/backend_registry.py:143-155 | The members of a profile's primitive form, by name and text |
| RegistryRules.RecordIsWritten | wish_builder/contracts/backend_registry.py:255-272 | The same for a record |
| RegistryRules.RegistryIsWritten | wish_builder/contracts/backend_registry.py:350-360 | The same for a registry |
| RegistryDecoder.BytesDetermineRegistry | wish_builder/contracts/backend_registry.py:350-363 | Valid registries with equal canonical texts are equal |
| RegistryBytes.RegistryIsCanonical | wish_builder/contracts/backend_registry.py:143-155 | The primitive form of a valid registry with normalised strings is in normal form |
| RegistryBytes.RegistryComesBack | wish_builder/contracts/backend_registry.py:350-363 | From object graph through normalisation, text, bytes, parsing and decoding a valid registry comes back unchanged |
| EvidenceStore.StepKeepsInv | wish_builder/adapters/external_evidence.py:161-222 | Every step of any writer or reader, crash and power loss keeps the invariant; only power loss removes a name |
| EvidenceRuns.ObjectsAppearComplete | wish_builder/adapters/external_evidence.py:173-222 | An object goes from absent to complete, never shows other bytes, and is taken away by nothing but power loss before its name and its directory were on disk |
| EvidenceRuns.ObjectsNeverChange | wish_builder/adapters/external_evidence.py:173-222 | Over any further steps with power an object keeps its bytes |
| EvidenceRuns.ReadersSeeWholeObjects | wish_builder/adapters/external_evidence.py:161-171 | A reader that took the whole file in any pieces holds bytes with the digest it asked for |
| EvidenceRuns.PutIsReadable | wish_builder/adapters/external_evidence.py:82-97 | After a successful `put`, in a run with or without earlier power losses, reading the digest gives the payload as long as there is power |
| EvidenceRuns.PutIsDurableExactly | wish_builder/adapters/external_evidence.py:94-211 | A successful `put` survives everything that follows if and only if the directory is on disk and the `put` wrote the object on a platform that synchronises directories, or found one that was settled |
| EvidenceRuns.DurableExactly | wish_builder/adapters/external_evidence.py:94-211 | A readable object survives everything that follows if and only if the directory is on disk and, since the object appeared, a writer synchronised it or the object came through a power loss |
| EvidenceRuns.EarlyReturnIsNotDurable | wish_builder/adapters/external_evidence.py:175-184 | A run in which a successful early return does not survive power loss, with the directory on disk |
| EvidenceRuns.FirstPutIsNotDurable | wish_builder/adapters/external_evidence.py:94-96 | A run in which the first `put` into a new store synchronises the directory and is lost with it |
| EvidenceRuns.NoCollisions | wish_builder/adapters/external_evidence.py:175-210 | Under a collision-free hash no `put` reports a collision |
| EvidenceRuns.WriteAll | wish_builder/adapters/external_evidence.py:197-202 | The short-write loop writes precisely the payload, or fails with a proper prefix |
| ArchiveScan.CoveredExactly | scripts/ci_distribution_evidence.py:364-382 | Stretches of a given size always lie inside some window, whatever the reads, if and only if the size is at most overlap plus one |
| ArchiveScan.ScanMember | scripts/ci_distribution_evidence.py:364-382 | A forbidden text of bounded length anywhere in the member is found under any short reads, and a rejection points at bytes of the member |
| ArchiveScan.ReadBounded | scripts/ci_distribution_evidence.py:332-348 | The whole member is returned exactly when it fits the limit |

## Left out

Parameters and assumptions:

- SHA-256, canonical composition (NFC), case folding, bracket expressions of patterns and UTF-8 are parameters.
  Of NFC it is assumed that it is idempotent, introduces no carriage return, and leaves the registry's ASCII keys and
  enumeration values alone; of UTF-8 that decoding undoes encoding; of the hash nothing, except in `NoCollisions` and
  `DigestIdentifiesRegistry`.
- ScanMember: the regular expressions are one search per window, assumed to find every forbidden text in it; the scan
  claims only that nothing is missed, since a window edge can cause a false alarm.
- The field formats of the registry (tokens, versions, package names, paths, digests, notes) are abstract checks that
  return a stored form; `DecodedIsValid` and `DecoderIsExact` assume that a stored form passes its own check
  unchanged.

Parts of the modelled functions:

- CheckTasks: checks ids, dependencies, owned paths and waves only; the other fields of a task are not modelled.
- ValidateManifest: covers the checks of the `Manifest` module only. Schema version, goal and branch fields,
  requirements, titles, criteria, issue, branch and pull-request fields, risk, approval gates and the depth warning
  are independent field checks and are not modelled.
- `ready_tasks`: a manifest entry that is not an object or lacks a field with a default is not modelled;
  `AnswerExactly` is about any manifest, the run theorems about admitted ones.
- Odd spellings on which normalising twice differs from once are outside `OverlapIsConservative`, which asks for
  patterns in normalised spelling.
- The ports: the validation inside the observation constructors, type checks of arguments and the effect counters are
  not modelled; the clock reading of each call is a parameter.
- The promotion: a partial copy is not distinguished from an empty temporary file, closing a file descriptor does not
  fail, and other processes interfere with nothing but the lock file. A destination that is not a regular file is a
  fault of its inspection. Building and comparing the distributions is not part of this model.
- `_hunks_describe_snapshot_diff` works on lists of lines; splitting text into lines and the branch references of
  hunks are not modelled.
- WalkBlock: `try`, `with` and `match` statements are not part of the language, since exceptions and context managers
  have line events of their own.
- SourceBranchArcUniverse: the same. Conditions are nondeterministic, every statement and decorator has a line of its
  own and is executed there (a statement that compiles to nothing, like `global`, is not modelled), and a definition
  that an execution comes to may be executed afterwards.
- The branch matching takes distinct branch ids as given; distinct structural keys are a hypothesis of the theorems
  that need them, because functions of the same name in the two parts of one `if` share an owner key. The checks of
  hunks after the matching are not modelled.
- `_normalize`: the interpreter's recursion limit is not modelled; depth is bounded by the code's own limit.
- Strings of the registry are stored as the constructors return them; the lookups by profile and record are not
  modelled.
- The evidence store: building the reference of an observation, failures while creating the directories, and closing
  after an error are not modelled. Temporary names are fresh. The directory and its parents count as one: they are on
  disk or not.

Other parts of the repository:

- Command-line interfaces, Git, subprocess, package-manager and provider calls, platform probes, the execution kernel
  with its journal and leases, the evidence packet and release scripts, the coverage gate, and the compatibility
  decoder.
