# commiter: a model of its algorithmic cores

commiter groups the changes of a Git worktree into commits with the help of a local language model.
Around the model sits host code that has to be right whatever the model says: it compiles and trims what
the model is shown, reconciles its partial answers, reads editing history concurrently under a memory
limit, and applies the plan to the index without losing the user's own selection. This project models that
host code in Dafny and proves what it is for.

| area | modules |
|---|---|
| natural key order and JSON printing | `NaturalOrder`, `Json` |
| optional-history display compiler | `DisplayTemplate`, `DisplayCompiler`, `DisplayKeys`, `DisplayNewlines`, `HistoryDocument`, `HistorySelection`, `HistoryOmission`, `HistoryCompleteness`, `NewlineView` |
| window reconciliation and its driver | `UnionFind`, `Reconciliation`, `Windows`, `Driver` |
| commit transaction | `CommitTransaction` |
| concurrent history reader | `MemoryGuard`, `MemoryHistory`, `TurnReader`, `TurnContent`, `HistoryReader`, `HistoryContent`, `HistoryPipeline`, `HistoryStatus`, `HistoryKeys` |
| evidence reduction | `SpatialOrder`, `Grouping`, `Evidence`, `EvidenceSelection`, `EvidenceReduction`, `EvidenceFields` |
| diff compression | `SpatialRank`, `SummaryRanking`, `SummaryStages`, `SummaryContent` |
| diff blocks and attribution | `DiffLines`, `DiffBlocks`, `DiffWitnesses`, `DiffRanges`, `DiffReaders`, `DiffPrinting`, `DiffSplit`, `BlockAttribution`, `BlockReasons`, `SplitMerge`, `Comparison` |
| candidate graph | `CandidateGraph`, `RelationContext`, `Extraction` |
| bounded generation | `GrammarSampling`, `ThoughtBudget`, `OverlappedProcessor` |
| shared | `Wrappers`, `Strings`, `Sequences`, `Sorting` |

Loops of the source are methods with invariants, proved against functions; objects whose methods change
them are classes; concurrency is a transition system whose runs are all sequences of enabled steps. Text
is a sequence of characters, one per code point, on which Go's bytewise order of valid UTF-8 is the order
of code points. Map iteration in Go is `Sorting.Range`, which yields the keys in an arbitrary order.

Some promises hold only under a condition, or further than documented. They are stated exactly:

- Numbered names sort by number after any prefix, also one that ends in a digit.
- The display compiler and naturalJSON encode keys differently. Every selection renders the naturalJSON of its projection exactly when selecting all records does; when all references of a message resolve, that is when no key of the message contains `<`, `>` or `&`.
- A block never hides that it has lost a candidate, with one exception: a candidate whose reference names no context record at all is dropped without a mark.
- The literal-newline view is inverted exactly on texts without a raw line break inside a string (section 7 of RFC 8259).
- The two diff readers disagree on blank lines outside hunks, doubled no-newline markers and a last file section without a hunk, and on nothing else; `DiffWitnesses` has a diff for each.
- On a world that can be listed and read, both history readers return the same history and the same status, unless every turn keeps nothing and some turn dropped something: then the sequential reader says partial and the concurrent one unavailable.
- The audit of reduced evidence gives the same verdict at every density: it accepts exactly when everything a fact covers is covered by the middle fact of some key. Evidence without the NUL separator in a field is always accepted; two attribute names with one are refused at every density.
- Reduced evidence that the audit accepts keeps every role and every enclosing declaration. It keeps every named declaration and every planning structure too, but tells kind and name apart only as joined by a colon: without a colon in a kind nothing is lost, while of `function:a` named `b` and `function` named `a:b` in one place one is.
- Unless HEAD cannot be read after git commit, every return of the commit executor knows all commits that exist. In that one case a commit can stay unnoticed, and the index is then restored in full although HEAD has moved.
- Of the three compression stages only the hunk stage can be refused, exactly when every line of the diff is a redundant header.
- A copy of a sampling state cannot be told from the original exactly when the matcher factory works, or the state has failed, or there is no grammar.

## Model

| member | source | states |
|---|---|---|
| NaturalOrder.NaturalLess | internal/planning/harness004.go:18-47 | the scanner decides the token order: digit runs by value, then spelling, other characters in order |
| NaturalOrder.LessIsStrictTotalOrder | internal/planning/harness004.go:17-47 | the order is irreflexive, transitive and total on distinct strings |
| NaturalOrder.NumberedNamesInOrder | internal/planning/harness004.go:17-47 | a name with a smaller number comes before the same name with a larger one, whatever the prefix |
| NaturalOrder.ShortlexIsNumeric | internal/planning/harness004.go:28-34 | trimmed runs compared by length, then bytewise, are compared by their numeric value |
| Json.CollectKeys | internal/planning/harness004.go:51-55 | the sorted key list is the same for every order of map iteration |
| Json.WriteNaturalJson | internal/planning/harness004.go:48-87 | the buffer printer writes the one canonical text of a value |
| Json.KeyEncodingsAgree | internal/planning/harness004.go:62-62 | HTML-escaped and plain key encodings give the same text exactly when no key anywhere contains a character that HTML escaping changes |
| DisplayTemplate.RenderOfLiteralNewlines | internal/llm/history_input.go:22-46 | rewriting the JSON leaves of a template and rendering equals rendering and then displaying with literal line breaks |
| DisplayCompiler.RenderOfCompile | internal/planning/attributed_history_input.go:75-159 | for every value and selection, rendering the compiled template equals printing the value projected directly by the selection |
| DisplayKeys.RenderIsNaturalJson | internal/planning/attributed_history_input.go:153-153 | the rendered text is naturalJSON of the projection exactly when the projection has plain keys |
| DisplayKeys.PlainValueIsNaturalJson | internal/planning/attributed_history_input.go:75-159 | a value with plain keys is rendered as naturalJSON of its projection whatever will be selected |
| DisplayKeys.LastingKeyDiffers | internal/planning/attributed_history_input.go:75-159 | a key with an HTML character that no selection removes makes the texts differ whatever is selected |
| DisplayKeys.HtmlKeyDiffers | internal/planning/attributed_history_input.go:153-153 | an object with the key < is rendered differently from naturalJSON |
| DisplayCompiler.LiveKeysSorted | internal/planning/attributed_history_input.go:98-108 | leaving out the optional reason field keeps the key order of the projected object |
| DisplayNewlines.CompileDisplayable | internal/planning/attributed_history_input.go:75-159 | every literal of a compiled template is a whole JSON text or plain syntax, so rewriting never touches syntax |
| DisplayNewlines.LiteralNewlinesPreserveMeaning | internal/llm/history_input.go:22-46 | compile, rewrite newlines, select and render equals displaying the projected JSON with literal line breaks |
| HistoryDocument.AttributedHistory | internal/planning/attributed_history_input.go:32-54 | refuses an empty reference, yields nothing without records, and otherwise positions and byte counts of all records |
| HistorySelection.PositionIsLast | internal/planning/attributed_history_input.go:32-47 | the compiler gives a reference the position of the last context record that has it, and no position to others |
| HistorySelection.ListShowsSelected | internal/planning/attributed_history_input.go:111-127 | of a list of records the projection shows exactly those whose context is selected and, for commands, whose own index, the number of contexts plus their place, is selected too |
| HistorySelection.SelectionShows | internal/planning/attributed_history_input.go:32-54 | the same for the context and command lists of both messages, without reference to what the compiler requires |
| HistorySelection.IndexIsRecord | internal/planning/attributed_history_input.go:34-47 | the byte count at an index is that of the record the selection index stands for |
| HistoryDocument.ProjectionResolves | internal/planning/attributed_history_input.go:111-127 | after projection no candidate anywhere names a record outside the selection |
| HistoryDocument.NoDanglingCandidate | internal/planning/attributed_history_input.go:33-52 | every candidate shown in either message names a context record that the projected shared message lists |
| HistoryOmission.OmissionIsVisible | internal/planning/attributed_history_input.go:128-152 | an object claims a match exactly when it did before and has lost no candidate; one that has lost one carries the omission reasons |
| HistoryOmission.ProjectionIsHonest | internal/planning/attributed_history_input.go:75-159 | whatever is selected, every object of the projection that comes from an object that loses a candidate claims no match and carries the omission reasons, at any depth |
| HistoryOmission.MessagesAreHonest | internal/planning/attributed_history_input.go:33-52 | both messages, as rendered with any selection, are texts of values that hide no loss and whose candidates name records listed in the shared message |
| HistoryOmission.UnknownCandidateGoesSilently | internal/planning/attributed_history_input.go:111-120 | a candidate that names no context record is dropped by every selection while the match stands |
| HistoryCompleteness.CompleteSelectionChangesNothing | internal/planning/attributed_history_input.go:75-159 | a selection that leaves nothing out leaves the value unchanged |
| HistoryCompleteness.EverythingChangesNothing | internal/planning/attributed_history_input.go:33-54 | selecting all records leaves each message unchanged exactly when all references in it resolve |
| HistoryCompleteness.EncodingsAgreeAlways | internal/planning/attributed_history_input.go:75-159 | for any value, every selection of the records there are renders naturalJSON of its projection exactly when the projection under all records has plain keys |
| HistoryCompleteness.EncodingsAgreeExactly | internal/planning/attributed_history_input.go:75-159 | when all references resolve, every selection renders naturalJSON of its projection exactly when the value has plain keys |
| HistoryDocument.SelectionValid | internal/planning/attributed_history_input.go:169-179 | a selection is accepted exactly when it is present, strictly increasing and in range |
| NewlineView.LiteralNewlineDisplay | internal/llm/display.go:7-31 | refuses what does not decode, and otherwise the Go scanner computes the view that replaces newline escapes inside strings |
| NewlineView.MultilineView | tools/benchmark184/multiline_view.py:11-26 | the Python scanner computes the same view |
| NewlineView.RestoreView | tools/benchmark184/multiline_view.py:33-47 | the inverse scanner computes the restoration |
| NewlineView.RoundTrip | tools/benchmark184/multiline_view.py:29-29 | restoring the view gives the text back exactly when no string contains a raw line break |
| UnionFind.Find | tools/benchmark146/architecture.go:40-46 | returns the root, moves nobody to another root, points the file directly at it, and terminates because parents come earlier in order |
| UnionFind.Union | tools/benchmark146/architecture.go:93-101 | a positive observation merges exactly the two classes, under the smaller root |
| Reconciliation.CheckWindow | tools/benchmark146/architecture.go:50-78 | accepts exactly the well-formed windows and numbers their files by group |
| Reconciliation.Observe | tools/benchmark146/architecture.go:79-88 | records every pair of a window, or finds a pair answered both ways |
| Reconciliation.MergePositives | tools/benchmark146/architecture.go:93-101 | whatever the order, the forest joins exactly the files that positive answers force together |
| Reconciliation.CheckNegatives | tools/benchmark146/architecture.go:102-111 | finds a negative answer inside one class, or the separated pairs of classes |
| Reconciliation.ContradictionMeansNone | tools/benchmark146/architecture.go:106-108 | a negative answer inside a merged class admits no partition |
| Reconciliation.ClashMeansNone | tools/benchmark146/architecture.go:83-85 | two windows that disagree about a pair admit no partition |
| Reconciliation.SeparatedRootsAreUnique | tools/benchmark146/architecture.go:127-137 | when every two classes are separated the classes are the only consistent partition |
| Reconciliation.UnseparatedRootsMayMerge | tools/benchmark146/architecture.go:127-137 | two classes that no answer separates can also be merged |
| Reconciliation.RootLeads | tools/benchmark146/architecture.go:123-126 | the first file of every sorted class is its union-find root |
| Reconciliation.Reconcile | tools/benchmark146/architecture.go:32-138 | what every reason and the groups mean for the given answers, malformed ones included; the open pairs are exactly the pairs of first files of groups that no answer tells apart, in lexicographic order |
| Reconciliation.UnknownIsExact | tools/benchmark146/architecture.go:127-131 | a pair of class heads is listed exactly when no window has files of both classes in different groups, and the list ascends |
| Reconciliation.ReconcileExactly | tools/benchmark146/architecture.go:32-138 | for well-formed covering windows: contradiction exactly when no partition agrees with all answers, no reason exactly when one does, unobserved exactly when several do |
| Windows.InitialWindows | tools/benchmark146/architecture.go:142-227 | windows of at most four show every file and every non-proximity edge; they are a greedy cover of the edges in order followed by the spare files in fours; the error cases exactly |
| Windows.BridgeWindow | tools/benchmark146/architecture.go:239-269 | a window around the first open pair, greedily filled with the heads that have most open pairs |
| Windows.AuditWindow | tools/benchmark146/architecture.go:291-340 | a greedy window around the first pair never shown together, or none exactly when all were shown |
| Windows.LinksCount | tools/benchmark146/architecture.go:185-197 | the score of a file for an initial window is the number of window files it shares a pending edge with |
| Windows.OpenScoreCounts | tools/benchmark146/architecture.go:251-256 | the score of a class head for a bridge window is the number of open pairs between it and the window |
| Windows.FreshLinksCount | tools/benchmark146/architecture.go:320-325 | the score of a file for an audit window is the number of window files it was never shown with |
| Windows.FoursAreAll | tools/benchmark146/architecture.go:221-225 | spare files are shown in order, four in every window but perhaps the last |
| Driver.Run | tools/benchmark146/main.go:192-258 | with truthful answers the bridging strategies return exactly the hidden partition within the initial windows plus one window for each pair of files; the initial windows come first, every later one is the bridge window of what reconcile left open or, for a settled partition under audit, the audit window; the budget stops only an unfinished plan |
| Driver.RunOnFiles | tools/benchmark146/main.go:192-258 | the same for file IDs that are Go strings in their own order |
| Driver.ReconcileTruthful | tools/benchmark146/main.go:246-256 | truthful answers never contradict: reconcile settles on the truth or leaves an open pair of heads |
| Driver.Progress | tools/benchmark146/main.go:253-257 | every bridge or audit window reduces the pairs not yet shown |
| CommitTransaction.Execute | internal/commitexec/executor.go:66-191 | whatever hooks do to HEAD, index and worktree, every return that does not say the restoration is unknown conserves the index for the commits noted; those are on HEAD and all of them unless HEAD could not be read after git commit; all but perhaps the last are validated and carry out the plan from the initial HEAD. Success means that every change was assigned once and that each commit changes exactly the old and new paths of its changes. Without interference a feasible plan succeeds, and HEAD is then the worktree at every old and new path and the initial HEAD elsewhere |
| CommitTransaction.SuccessCarriesOut | internal/commitexec/executor.go:368-377 | from the chain of commits to the fields of the changes: one commit for each assignment, at exactly the old and new paths of its changes, and an index that mirrors HEAD there and is the original elsewhere |
| CommitTransaction.SensibleIsFeasible | internal/commitexec/executor.go:104-141 | a plan that assigns every change once, of real changes only and without a path in two commits, can be carried out |
| CommitTransaction.RecordedInOrder | internal/commitexec/executor.go:125-187 | whatever happened, the paths taken over are those of the first assignments, up to one beyond the validated commits |
| CommitTransaction.UnnoticedCommit | internal/commitexec/executor.go:150-166 | when git commit fails after making the commit and HEAD cannot be read, nothing is noted and the full restoration of the index disagrees with HEAD on every path of the commit |
| CommitTransaction.Repository.StageAssignment | internal/commitexec/executor.go:267-300 | the index becomes HEAD with the assigned paths replaced by their worktree content |
| CommitTransaction.Repository.RestoreOutOfScope | internal/commitexec/executor.go:302-343 | the index keeps the original entries outside the committed paths and mirrors HEAD inside them |
| CommitTransaction.ValidateCreatedCommit | internal/commitexec/executor.go:201-218 | accepts only a commit on the expected parent that changes exactly the assigned paths |
| CommitTransaction.RunCommit | internal/commitexec/executor.go:145-177 | what is noted after git commit from its exit status and HEAD, and that a commit counts as validated only if it is the commit of the assignment |
| CommitTransaction.CommitOne | internal/commitexec/executor.go:134-187 | one round adds exactly one validated commit and conserves the index, or says what it has taken over and, unless HEAD could not be read, where HEAD is |
| CommitTransaction.Rollback | internal/commitexec/executor.go:85-103 | the deferred rollback conserves the index or reports that restoration is unknown |
| CommitTransaction.ChainTouchesOnly | internal/commitexec/executor.go:167-176 | along the created commits only assigned paths change |
| CommitTransaction.QuietStaging | internal/commitexec/executor.go:137-148 | staging real changes gives a commit that changes exactly these paths |
| CommitTransaction.NextIsReal | internal/commitexec/executor.go:110-141 | when assignments touch different paths the earlier commits leave the next assignment a real change |
| MemoryGuard.Controller.Update | internal/historyattribution/memory_guard.go:57-110 | a sample moves the guard as specified: limits, pause, reduction, recovery, stall |
| MemoryGuard.Controller.Acquire | internal/historyattribution/memory_guard.go:111-135 | one round admits exactly when the guard has not failed, is not paused and is below its ceiling |
| MemoryGuard.RunIsSound | internal/historyattribution/memory_guard.go:57-143 | in every run the active count is the permits held, at most the maximum; the ceiling stays between one and the maximum, and at most half of it once reduced and not paused |
| MemoryGuard.FailureIsPermanent | internal/historyattribution/memory_guard.go:111-117 | after a failure nothing is admitted and the failure stays |
| MemoryGuard.PauseBlocksAdmission | internal/historyattribution/memory_guard.go:67-104 | a pause admits nobody, ends only on two calm samples in a row, and fails after thirty seconds |
| MemoryHistory.PausedExactly | internal/historyattribution/memory_guard.go:67-97 | the guard is paused exactly while some sample of 1.5 GiB has not been followed by two calm ones in a row, and since the first such sample; the reduction lasts for ever |
| MemoryHistory.FailedExactly | internal/historyattribution/memory_guard.go:61-104 | the guard has failed exactly when an event stopped the run: a lost sampler, 2 GiB, critical pressure or a pause of thirty seconds; the reason is the latest one |
| MemoryHistory.CeilingMoves | internal/historyattribution/memory_guard.go:72-97 | what each event does to the number of workers admitted |
| TurnReader.ReadTurn | internal/historyattribution/history.go:416-536 | the paging loops compute the specified outcome of a turn and the operations held afterwards |
| TurnContent.TurnDelivers | internal/historyattribution/history.go:445-536 | a turn that can be read delivers exactly one operation for every completed edit that concerns a selected path and whose diff is safe or missing, at the first entry of its item, with path, old path, kind and diff of the edit; likewise its commands, its last final message and its counters |
| TurnContent.SuccessIsReadable | internal/historyattribution/history.go:425-524 | reading succeeds exactly when the replies are pages with new cursors up to one without a next page and every entry names the turn and an item that repeats unchanged |
| TurnContent.TurnEndsSomewhere | internal/historyattribution/history.go:425-524 | otherwise nothing but counters is delivered, with the error of the first reply or entry that is not fine |
| TurnContent.OperationIsEdit | internal/historyattribution/history.go:479-511 | an operation and the edit it comes from, field by field: a move from a to b has path b, old path a and kind rename |
| TurnReader.SeenDoesNotMatter | internal/historyattribution/history.go:506-511 | a reader that holds operations of other turns reads a turn as a fresh one does |
| TurnReader.PagingDoesNotMatter | internal/historyattribution/history.go:425-524 | however a turn is cut into pages, it is read or refused as one page |
| HistoryReader.ReadHistory | internal/historyattribution/history.go:298-413 | the sequential reader over the listing, with duplicates, conflicts and early stops |
| HistoryContent.UntroubledHistory | internal/historyattribution/history.go:339-413 | without trouble the history holds every turn at its first listing, in order, each as read on its own, and is complete unless a diff was dropped |
| HistoryContent.ListingFails | internal/historyattribution/history.go:298-338 | a listing that fails ends the history with what was read before |
| HistoryContent.TurnFails | internal/historyattribution/history.go:387-389 | so does a turn that cannot be read, which is counted but tells nothing |
| HistoryContent.TurnConflicts | internal/historyattribution/history.go:350-371 | a turn listed again with other content ends the history, and exactly what was read of that turn goes |
| HistoryContent.TroubleOrNot | internal/historyattribution/history.go:298-413 | one of these cases always applies |
| HistoryReader.MergeResults | internal/historyattribution/history_parallel.go:260-273 | results of any completion order are merged in the order of their indices |
| HistoryReader.SequentialIsMerge | internal/historyattribution/history.go:348-387 | the sequential reader succeeds exactly when the listing and every turn alone do, and then is the merge of the turns read alone |
| HistoryKeys.TurnKeys | internal/historyattribution/history.go:500-511 | a turn contributes operations of its own, each once and none that the reader holds already |
| HistoryKeys.SequentialKeysDistinct | internal/historyattribution/history.go:298-413 | whatever the world does, the sequential history holds no operation key twice |
| HistoryKeys.OutputKeysDistinct | internal/historyattribution/history_parallel.go:256-273 | in every run, however it goes, neither does the concurrent one |
| HistoryPipeline.Confluence | internal/historyattribution/history_parallel.go:51-275 | every interleaving that ends without trouble returns exactly what the sequential reader returns |
| HistoryPipeline.TroubleKeepsOrder | internal/historyattribution/history_parallel.go:256-273 | whatever goes wrong, the evidence is a subsequence in listing order, and none when the listing failed |
| HistoryStatus.StatusesAgree | internal/historyattribution/history_parallel.go:286-298 | on a world that can be listed and read every clean run has the status of the sequential reader, unless no turn keeps anything and some turn dropped something: then unavailable against partial |
| HistoryStatus.StatusesDiffer | internal/historyattribution/history.go:409-413 | one turn with one refused edit, and a run of one worker over it, on which they differ |
| HistoryPipeline.AdmissionIsSafe | internal/historyattribution/history_parallel.go:186-242 | at every moment the queue holds at most sixteen turns, permits are counted and bounded, nothing is admitted while paused or failed, and no turn is read twice |
| HistoryPipeline.RunKeepsInvariant | internal/historyattribution/history_parallel.go:51-242 | until something is cancelled every turn handed out is in a worker's hands or among the results, once |
| HistoryPipeline.Progress | internal/historyattribution/history_parallel.go:65-242 | there is no deadlock: an unfinished run can move on unless it waits for memory |
| HistoryPipeline.RunsAreBounded | internal/historyattribution/history_parallel.go:65-242 | producer and workers take a bounded number of steps in every run |
| SpatialOrder.SpatialEvidenceOrder | internal/contextinput/evidence.go:153-179 | the interval queue terminates and yields the order of middles |
| SpatialOrder.OrderIsPermutation | internal/contextinput/evidence.go:153-179 | every index occurs exactly once, both ends first |
| Grouping.Coalesce | internal/contextinput/evidence.go:63-78 | the grouping loops keep the middle value of every key in order of first occurrence |
| Grouping.NovelIndices | internal/contextinput/evidence.go:185-199 | the loop finds exactly the values that cover something no earlier value covers |
| Evidence.KeyDecidesCoverage | internal/contextinput/evidence.go:226-248 | facts with the same key cover the same as long as no field contains the separator |
| Evidence.SeparatorConfusesKeys | internal/contextinput/evidence.go:275-281 | two attribute names of one kind and role, with the separator in a name or an enclosing declaration, share a key although each covers something of its own |
| EvidenceSelection.CanonicalRepresents | internal/contextinput/evidence.go:52-89 | every canonical fact is an original one and every original key has exactly one |
| EvidenceSelection.SelectEvidence | internal/contextinput/evidence.go:91-120 | the loops select the required facts and the first of the ranking, in source order |
| EvidenceSelection.SelectionCovers | internal/contextinput/evidence.go:91-120 | whatever the limit the selection covers everything |
| EvidenceSelection.SelectionIsMonotonic | internal/contextinput/evidence.go:103-109 | a larger limit keeps everything a smaller one keeps |
| EvidenceSelection.SelectionSize | internal/contextinput/evidence.go:91-113 | exactly the limit is kept, but never fewer than the required facts nor more than there are |
| EvidenceSelection.WavesFillInOrder | internal/contextinput/evidence.go:122-151 | priorities choose inside a wave of four only: no dropped fact belongs to an earlier wave than an optional one kept |
| EvidenceReduction.AuditVerdict | internal/contextinput/evidence.go:28-50 | at every density the audit accepts the reduced evidence exactly when the middle facts of the keys cover everything, and otherwise refuses it for lost coverage; nothing else of the file changes |
| EvidenceReduction.ReductionIsAccepted | internal/contextinput/evidence.go:28-50 | at every density the audit accepts reduced evidence whose fields are free of the separator |
| EvidenceFields.AuditKeepsFields | internal/contextinput/evidence.go:226-248 | whatever evidence the audit accepts has original facts only and keeps every role and enclosing declaration, every named declaration with its range and every planning structure, kind and name as joined by a colon; without colons in kinds with kind, name and range, for structures with the range of selectors |
| EvidenceFields.ReductionKeepsFields | internal/contextinput/evidence.go:28-50 | so does reduced evidence without the separator at every density |
| EvidenceFields.RequiredTellNew | internal/contextinput/evidence.go:185-204 | a fact is required exactly when it tells a role, an enclosing declaration, a declaration or a structure that no earlier fact tells; the first one also when none does |
| EvidenceFields.TextDecides | internal/contextinput/evidence.go:226-248 | coverage texts of kinds without colons tell apart what they stand for |
| EvidenceFields.ColonLosesDeclaration | internal/contextinput/evidence.go:234-236 | two declarations whose kinds and names read alike when joined: one is dropped at density 0 and the audit accepts that |
| EvidenceReduction.RetainedSize | internal/contextinput/evidence.go:32-41 | a density keeps the required facts and that many thousandths of the others |
| EvidenceReduction.ReductionTells | internal/contextinput/evidence.go:32-48 | the record says how many facts there were and are, and whether all canonical ones, at least half or fewer are kept |
| EvidenceReduction.DocumentIsPreserved | internal/contextinput/evidence.go:300-331 | a document passes the audit at one density exactly when it does at all, and exactly when the middle facts of every structural file cover everything |
| EvidenceReduction.CleanKeysDecide | internal/contextinput/evidence.go:275-281 | keys decide the coverage of evidence without separators in its fields |
| EvidenceReduction.SeparatorIsRefused | internal/contextinput/evidence.go:300-331 | the two attribute names are refused at every density for lost coverage |
| EvidenceReduction.DensityIsMonotonic | internal/contextinput/evidence.go:36-38 | more density keeps all that less keeps, and full density keeps every canonical fact |
| EvidenceReduction.PrepareEvidence | internal/contextinput/controller.go:194-248 | returns full density, or a density that fits while the next does not, or that nothing fits, or a density that fails |
| EvidenceReduction.BoundaryIsLargest | internal/contextinput/controller.go:223-247 | when more evidence never renders smaller, everything below the returned density fits and nothing above it does |
| SpatialRank.SpatialRank | internal/contextinput/chunk.go:268-299 | the nested loops compute the greedy ranking |
| SpatialRank.RankIsGreedyPermutation | internal/contextinput/chunk.go:268-299 | a permutation that begins with both ends and then always takes the farthest remaining point, the one with the smallest position of equally far ones |
| SummaryRanking.RankSummaryLines | internal/contextinput/chunk.go:218-266 | the grouping and interleaving loops compute the ranking |
| SummaryRanking.EachLineOnce | internal/contextinput/chunk.go:218-266 | every line with the sign is ranked exactly once |
| SummaryRanking.HunksTakeTurns | internal/contextinput/chunk.go:252-265 | in every prefix the hunks are within one line of each other until one is exhausted |
| SummaryStages.CompressSummaryLines | internal/contextinput/chunk.go:125-216 | selected plus omitted lines are all added and all removed lines; in every chunk as many are selected as there are, up to the limit |
| SummaryStages.ProfilesAreNested | internal/contextinput/chunk.go:28-35 | a profile with a larger excerpt selects everything a smaller one selects |
| SummaryStages.ValidateSummaryLines | internal/contextinput/input.go:203-223 | accepts exactly lines of the original diff in increasing order |
| SummaryStages.FileStageAccepted | internal/contextinput/summarizer.go:75-77 | the file stage always passes the provenance check |
| SummaryStages.HunkStageAccepted | internal/contextinput/summarizer.go:69-80 | the hunk stage passes exactly when the diff has a line that is not a redundant header |
| SummaryStages.HeaderAloneIsRefused | internal/contextinput/summarizer.go:69-80 | a diff that is only a file header is refused there |
| SummaryStages.ChunkStageAccepted | internal/contextinput/summarizer.go:81-84 | after that the chunk stage always passes |
| SummaryContent.FileStageKeeps | internal/contextinput/chunk.go:81-94 | the file stage drops exactly the headers before the first hunk and keeps the order |
| SummaryContent.HunkStageKeeps | internal/contextinput/chunk.go:96-105 | the hunk stage drops exactly the unchanged lines |
| SummaryContent.ChunkStageKeeps | internal/contextinput/chunk.go:115-175 | with the selection of all chunks the chunk stage keeps exactly the lines among the first ranked added or removed ones of their chunk |
| SummaryContent.IndexedLines | internal/contextinput/chunk.go:67-78 | a line has its place and the number of hunk headers up to it |
| SummaryContent.RankingTakesTurns | internal/contextinput/chunk.go:218-266 | the ranking goes through the hunks in turns: hunks spread out by their first changed lines, the lines of each spread out by their numbers |
| DiffReaders.ParseBlocks | internal/historyattribution/model.go:179-265 | the reader for attribution accepts and collects as specified |
| DiffReaders.ParseGroupingBlocks | internal/planning/grouping_input.go:94-194 | the reader for grouping accepts and measures as specified |
| DiffBlocks.ReadersAgree | internal/historyattribution/pipeline.go:245-248 | when both accept, there is one range for each block, holding exactly its removed, added and marker lines |
| DiffPrinting.PrintedIsRead | internal/historyattribution/model.go:179-265 | whatever blocks are printed in a diff of files, hunks and unchanged lines, reading finds exactly these blocks in order |
| DiffPrinting.PrintedIsGrouped | internal/planning/grouping_input.go:94-194 | the reader for grouping accepts the printed diff too, with the lines of these blocks as its ranges |
| DiffPrinting.PrintedTextIsRead | internal/historyattribution/model.go:179-208 | the same from blocks to the text of the diff and back |
| DiffBlocks.GroupingImpliesAttribution | internal/planning/grouping_input.go:186-193 | a diff accepted for grouping is accepted for attribution exactly when its last file section has a hunk |
| DiffBlocks.AttributionImpliesGrouping | internal/historyattribution/model.go:179-265 | a diff accepted for attribution is accepted for grouping exactly when it has no blank line and no doubled marker |
| DiffBlocks.NoOverflow | internal/historyattribution/model.go:212-221 | a diff with a line count above the largest integer is never accepted for attribution, because no text has that many lines |
| DiffWitnesses.ReadersDisagree | internal/planning/grouping_input.go:135-154 | a diff with a blank line, one with a doubled marker and one whose last section has no hunk, each accepted by one reader only |
| DiffRanges.RangesTile | internal/planning/grouping_input.go:94-194 | ranges are disjoint, in order, hold changed lines and their markers only, and miss no changed line |
| DiffRanges.HunkLengths | internal/planning/grouping_input.go:112-183 | every hunk of an accepted diff has exactly the announced old and new lines |
| DiffLines.ViewsAgree | tools/benchmark184/structured_diff.py:13-29 | the display projection classifies every line as the parsers do |
| DiffSplit.SplitCode | tools/benchmark184/structured_diff.py:7-61 | both passes refuse and project as specified |
| DiffSplit.SplitOfText | tools/benchmark184/structured_diff.py:7-61 | with the ranges of an accepted diff the split succeeds exactly when there is no context line, and gives the removed and added texts of every block |
| BlockAttribution.CompareBlock | internal/historyattribution/model.go:407-586 | candidates, status and the set of reasons of a block, each reason exactly when it holds |
| BlockAttribution.FindRewriting | internal/historyattribution/model.go:483-548 | the pre-filtered search finds a rewriting pair exactly when the search over all ordered pairs and blocks does |
| BlockAttribution.FiltersAreExact | internal/historyattribution/model.go:483-511 | both ends of a rewriting pair pass the pre-filters |
| BlockAttribution.MatchedExactly | internal/historyattribution/model.go:549-586 | matched exactly when the history is complete, one relevant operation has the block exactly once, no other one says anything, and the file has the block once |
| BlockAttribution.MatchedByFields | internal/historyattribution/model.go:419-586 | the same by paths and blocks: one operation that shares a path with the file, as a rename between the same paths if the file is renamed, has the block exactly once; every other one shares no path or was compared and has no line of the block |
| BlockReasons.ReasonsByFields | internal/historyattribution/model.go:419-586 | every reason is given exactly when the paths, kinds and blocks of the file and the operations give it |
| SplitMerge.ContainedLines | internal/historyattribution/mapping.go:22-47 | finds the first occurrence exactly when there is one |
| SplitMerge.ContainedParts | internal/historyattribution/mapping.go:153-175 | finds every fragment contained in the whole with its first range; the pre-filter drops none |
| SplitMerge.MarkSplitMergeEvidence | internal/historyattribution/mapping.go:64-228 | marks exactly the attributions that a pair of disjoint fragments of different paths speaks against, with all operations involved; a match survives exactly without such a pair, and errors are left alone |
| Comparison.Compare | internal/historyattribution/model.go:346-602 | every block of every file gets its attribution from the completed operations, the first of each key, and the fragments weighed against them are exactly those of the files and of the completed operations with a diff that are no renames, the first of each key |
| Comparison.FirstOfMembers | internal/historyattribution/model.go:365-383 | as long as no key is repeated an operation counts exactly when it passes the filter |
| Comparison.NothingRepeated | internal/historyattribution/model.go:365-383 | of what a reader of the history delivers nothing is dropped |
| Comparison.AllWeighed | internal/historyattribution/mapping.go:102-120 | of what a reader of the history delivers the fragments of all operations are weighed |
| Comparison.FinallyMatched | internal/historyattribution/model.go:346-602 | a block ends as matched exactly under the conditions of MatchedExactly and without split or merge evidence |
| CandidateGraph.CandidateComponents | internal/relation/graph.go:261-297 | the search yields sorted, disjoint components in the order of their least files, covering all files |
| CandidateGraph.SameComponent | internal/relation/graph.go:261-297 | two files share a component exactly when an undirected path connects them |
| CandidateGraph.ReducedPairCount | internal/relation/graph.go:318-326 | the reduced pair count is the number of pairs in different components |
| RelationContext.BuildGraph | internal/relation/graph.go:63-156 | succeeds exactly on valid IDs and known references, and what the graph then holds |
| RelationContext.ValidateRelationContext | internal/contextinput/relations.go:40-83 | accepts exactly contexts whose named components partition the files and whose edges and hints are valid |
| RelationContext.GraphIsAccepted | internal/contextinput/relations.go:13-83 | a graph that could be built is accepted exactly when extraction gave every connecting relation a reason and evidence and every hint at least two files |
| Extraction.OwnerIsAlone | internal/relation/extract.go:118-124 | a path means a file exactly when no other file has it too |
| Extraction.Extract | internal/relation/extract.go:104-191 | refuses invalid IDs, and otherwise gives the renames, tests, imports, mentions, lock files and directory hints of all files, and the observations of tests, imports and mentions that could not be resolved |
| Extraction.ExtractedIsSound | internal/relation/extract.go:104-191 | what is extracted names known files only, gives reasons and evidence, and hints at two files at least |
| Extraction.AttachRelationContext | internal/cli/planning.go:116-132 | unavailable exactly when an ID is empty or repeated; ineffective exactly when no relation connects two files, nothing was observed and no two files share a directory; otherwise a relation context that passes validation |
| GrammarSampling.GrammarSamplingState.MaskValues | mlx-helper/Sources/BoundedGeneration/GrammarSampling.swift:57-102 | the passes over the mask weigh every token as specified; an error forces the end token |
| GrammarSampling.GrammarSamplingState.CommitToken | mlx-helper/Sources/BoundedGeneration/GrammarSampling.swift:107-134 | a token advances the matcher, is ignored after the stop, or fails the state |
| GrammarSampling.GrammarSamplingState.IndependentCopy | mlx-helper/Sources/BoundedGeneration/GrammarSampling.swift:135-151 | the copy is a new object that replays the committed tokens |
| GrammarSampling.RunIsSound | mlx-helper/Sources/BoundedGeneration/GrammarSampling.swift:57-134 | in every run a live state is the replay of its tokens, all accepted by the matcher |
| GrammarSampling.CopyIsAlike | mlx-helper/Sources/BoundedGeneration/GrammarSampling.swift:135-151 | copy and original are indistinguishable exactly when the factory works, the state has failed or there is no grammar; otherwise the diagnostic tells |
| GrammarSampling.AlikeForever | mlx-helper/Sources/BoundedGeneration/GrammarSampling.swift:57-151 | indistinguishable states give the same masks, success and diagnostic for everything that follows |
| ThoughtBudget.NativeThoughtBudgetState.MaskValues | mlx-helper/Sources/BoundedGeneration/NativeThoughtBudget.swift:62-73 | the mask of every phase, and the scheduling of the close marker |
| ThoughtBudget.NativeThoughtBudgetState.CommitToken | mlx-helper/Sources/BoundedGeneration/NativeThoughtBudget.swift:74-91 | counting, opening, closing and failing on a token |
| ThoughtBudget.ThoughtIsBounded | mlx-helper/Sources/BoundedGeneration/NativeThoughtBudget.swift:62-91 | in every run that respects its masks the thought stays within the limit, and is forced to close exactly there |
| ThoughtBudget.ResponseIsFinal | mlx-helper/Sources/BoundedGeneration/NativeThoughtBudget.swift:74-91 | the response phase is never left |
| ThoughtBudget.SuccessIsAccepted | mlx-helper/Sources/BoundedGeneration/NativeThoughtBudget.swift:40-43 | success means an opened thought, the close marker, a response the grammar accepts, then end tokens only |
| ThoughtBudget.CopyIsEquivalent | mlx-helper/Sources/BoundedGeneration/NativeThoughtBudget.swift:92-101 | with a working factory a copy made at any moment behaves like the original for ever |
| OverlappedProcessor.OverlappedTokenProcessor.Process | mlx-helper/Sources/BoundedGeneration/OverlappedTokenProcessor.swift:20-29 | the pending token is committed before the next logits are masked |
| OverlappedProcessor.DelayRefines | mlx-helper/Sources/BoundedGeneration/OverlappedTokenProcessor.swift:4-33 | delayed commits give the same masked logits as immediate ones, and the same state but for a last token not needed any more |

## Left out

- HistoryDocument.AttributedHistory: starts from the decoded messages; cutting the phase text and JSON decoding are not modelled, and a list entry that is no object, on which the source panics, counts as one without a reference.
- DisplayNewlines.LiteralNewlinesPreserveMeaning: json.Valid is a parameter of which only acceptance of printed strings and refusal of syntax fragments is required.
- NewlineView.LiteralNewlineDisplay: the decoder is a parameter that accepts only texts with complete escapes.
- NewlineView.MultilineView: the Python assertions about parsed values are left out.
- Reconciliation.Reconcile: the strict order of file IDs is a parameter; instances other than Go strings are allowed.
- Driver.Run: local answers come from a hidden partition, so backend errors, timeouts and the stop on contradiction do not occur; metrics and the comparison with the expected groups are left out.
- CommitTransaction.Execute: trees are flat maps, so a path that is both file and directory and submodules are not modelled; hooks may do anything to HEAD, index and worktree; message, hook output and the revalidation of hashes are steps that may fail.
- CommitTransaction.Rollback: which errors carry the restored mark is modelled, their texts are not.
- MemoryGuard.Controller.Update: the event log and the stop text are left out; the clock is a parameter in seconds.
- TurnReader.ReadTurn: paths are given after normalisation, safety of texts is a parameter, commands are given as what would be kept of them, and the mode that embeds items in the listing is left out; replies are a fixed script for each turn.
- HistoryReader.ReadHistory: paging of threads and turns is flattened into what it delivers, in order.
- HistoryPipeline.Confluence: connections, byte and time counters and the diagnostic modes are left out; an interrupted turn may leave any counters behind. In batch mode the listing is complete in the initial state, so one that is cancelled while it goes on is not modelled there.
- DiffPrinting.PrintedIsRead: covers diffs with hunks as git prints them; the reading of malformed diffs is what ParseBlocks and the lemmas on the readers state.
- EvidenceReduction.AuditVerdict: digests stand for what they digest, byte sizes are left out, and files are matched by position instead of by ID.
- EvidenceReduction.PrepareEvidence: covers the density stage; the earlier summary stages of the controller are covered as far as the provenance of their lines.
- SummaryStages.CompressSummaryLines: the text of the summary and the shortening of long lines are left out.
- DiffReaders.ParseBlocks: covers updates; added and deleted files become one block without counting, and pure renames are recognised by their metadata in code outside this model.
- DiffBlocks.ReadersAgree: the block that grouping invents for a pure rename is left out.
- BlockAttribution.CompareBlock: states the reasons as a set without repetitions; which of them comes first and names the result is not stated. Blocks arrive parsed, JSON equality of blocks is equality, and turns are told apart by thread and turn rather than by their joined text.
- Comparison.Compare: the fallback flag and the error list are left out, and operations arrive parsed.
- Extraction.Extract: cleaning paths, reading imports and names from syntax trees and resolving an import to the paths it may mean are inputs; evidence values and the kinds of observations are left out, and with them the final sorting and removal of repeated relations and observations. The change set and the extracted files have the same IDs.
- RelationContext.BuildGraph: adjacency lists, reduction reasons, counts by kind and the order of hints and observations are left out; the order of relations is a parameter.
- GrammarSampling.GrammarSamplingState.MaskValues: the matcher is a deterministic function; stop counts and prefix rejections are outside the copy equivalence by design.
- OverlappedProcessor.DelayRefines: a prompt between a sample and the next logits is excluded.
- Process spawning, pipes, RPC transport, idle timers, Git and file-system plumbing, tree-sitter, regular expressions beyond the hunk header, digests, the language model and its tokenizer, command line, configuration, printing and downloads: external effects or easy members.
