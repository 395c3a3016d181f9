# Verified model of the protocol fuzzer's algorithms

Voltron is a protocol fuzzer that learns a Mealy machine of its target, evolves its message generators
with a language model, and schedules fuzzing by the learned states. This project models the algorithms
underneath, in Dafny, and proves what they promise: the active learner and its equivalence check, the
outer learning loop, the text transformers (line deltas, numbered views, section trees), the wire
framing and the codecs, the mutator, the no-growth gate, the state scheduler, and the two small
concurrent protocols for environment setup and deadline control.

Run `dafny verify dfyconfig.toml` in this directory to check everything.

## How the model is arranged

- **Learning** (`Automata`, `SystemUnderTest`, `ObservationTable`, `ClosingOrder`, `Hypothesis`, `Learner`,
  `Exactness`, `EquOracle`). The target is a deterministic machine whose abnormal outputs (CLOSED, CRASH, TIMEOUT,
  POLLERR) end the conversation; `SystemUnderTest` gives it the meaning of a machine with sinks. The
  learner's table is updated in place, sets are walked in any order, and stop requests and the no-growth
  gate may fire at any time. The centre is that closing keeps the rows of S pairwise distinct: for that
  reason one pass of `make_close`, then `make_consistent`, is enough, no suffix is ever added, and the
  state lookup of `build_hypothesis` does not miss. Beyond agreement with the table and minimality,
  `ExactIffSinglesSuffice` says exactly when learning without equivalence queries finds the target: when
  single requests already tell apart all reachable situations that any continuation tells apart.
- **The outer loop** (`LearningLoop`). A history of rounds is an arbitrary sequence of events; the loop's
  result is described by the history alone: the first hypothesis with the largest count among those
  completed in time, saved with the equipment of its own round on the exits that finalize, after a
  bounded number of rounds.
- **Text** (`Lines`, `SourceDelta`, `NumberedContext`, `SectionSpec`, `SectionTree`, `HeadingFilter`,
  `HeadingScan`). Editing lines in place from the back equals one forward splice; the numbered view fits
  its budget and names what it leaves out; the section tree's leaves partition the document.
- **Wire formats** (`Bytes`, `FrameChain`, `LineFraming`, `ContentLengthFraming`, `DaapFraming`,
  `ResponseFraming`, `ReplayCodec`, `SeedDigest`, `Slug`).
- **Scheduling** (`BitFlips`, `MutationOperators`, `OfflineMutator`, `SequenceMutation`,
  `PartialGuidance`, `GrowthGate`, `AccessSequences`, `StateScheduler`, `DependencyWalk`).
- **Concurrency** (`Environment`, `RunController`). Each block under a lock is one atomic step; the
  theorems hold for every schedule of the steps of any number of threads.

`Prelude` holds what several components share.

## Where the code does not do what it seems to

- `make_close` ends early when a cell is in its list of abnormal symbols, but cells are tuples and the
  list holds strings, so this never happens (`Learner.ObTable.MakeClose`). Closing does return early,
  with a table that is not closed, when the missing row belongs to a request whose name is the empty
  string; then `build_hypothesis` fails with a lookup error (`Learner.MealyLstar.Run`).
  `ClosingOrder.WitnessGivesUp` is such a target, and `ClosingOrder.GivesUpIffStuck` says of the target
  alone when it can happen.
- The scheduler's filter against prefixes that led to a crash or a timeout compares a tuple with a
  string, so it keeps every prefix (`AccessSequences.FilterKeepsAll`, `AccessSequences.CrashedPrefixIsKept`).
- A replacement that ends in a lone CR fuses with a following empty line that is a lone LF
  (`SourceDelta.LoneCrSwallowsALine`); `SourceDelta.PatchedLinesIff` gives the exact condition.
- An FTP or SMTP reply whose last line is the code alone is no reply to the splitter, although section 4.2.1 of
  RFC 5321 allows it (`LineFraming.BareCodeIsSwallowed`); `LineFraming.RepliesSplitIff` gives the exact condition.
- An HTTP-like message with LF line ends is cut wrongly exactly when CR LF CR LF comes later in the batch,
  even in its own body (`ContentLengthFraming.LfMessagesIff`, `ContentLengthFraming.LfMessageCutWrongly`).
- The heading filter lets levels jump, and then the level table raises an index error
  (`HeadingFilter.FilterLetsLevelsJump`); `SectionTree.SectionTree.Build` gives the exact condition, and
  `HeadingFilter.FilterHoldsLevels` says when the filter meets it.
- A slug that is cut loses the repair of a Windows device name (`Slug.LongDeviceNameSurvives`);
  `Slug.DeviceSlugIff` gives the exact condition.
- A conversation that the recorder drops half way has still added the pairs of its first half, without
  reporting growth (`PartialGuidance.DroppedHalfWay`).
- The statement behind the handlers of the learning loop that checks the run's deadline is never reached,
  for every path leaves or repeats the loop before it (voltron/fuzz.py:1612-1614).
- If an exception gets past environment setup, all other callers wait for ever
  (`Environment.NobodyWaitsForever`, `Environment.AWaiterIsStranded`). A failing script cannot do that, for its
  errors are caught (voltron/executor/executor.py:471-484). An operating-system error of
  `setup_script.is_file()`, such as a directory without permission, can (lines 500-504), and so can an
  interrupt or an exit while the script runs, which `except Exception` lets through.
- A stop by the deadline in the first table fill comes before the learner is bound to its variable. In the
  first round the handler then fails with an unbound variable instead of returning, and the traces it wants to
  keep are lost (`LearningLoop.FirstFillRaises`, `LearningLoop.NoLearnerIff`). In a later round it keeps the
  traces with the table of the round before (`LearningLoop.OwnTableIff`).

## Model

| member | source | states |
|---|---|---|
| Automata.MealyMachine.Run | voltron/learner/automata.py:40-49 | one output a symbol, each the machine's output for the prefix that ends there |
| Automata.AfterConcat | voltron/learner/automata.py:44-48 | running two words one after the other is running their concatenation |
| EquOracle.CompareMealy | voltron/learner/equ_oracle.py:51-81 | terminates; no result means equal outputs on every word over the first machine's alphabet; a result differs at its last symbol and is a shortest such word |
| EquOracle.EveryWordScheduled | voltron/learner/equ_oracle.py:62-79 | between expansions the pair of every word is expanded or queued no later than at the word's length |
| EquOracle.FirstDifference | voltron/learner/equ_oracle.py:76-77 | a difference met while expanding the first entry has minimum length |
| EquOracle.NoDifference | voltron/learner/equ_oracle.py:81 | an empty queue leaves no word that tells the machines apart |
| SystemUnderTest.MembershipOracle.Interact | voltron/learner/mem_oracle.py:44-45 | a conversation gives one output a request up to and including the first abnormal one |
| SystemUnderTest.MembershipOracle.Query | voltron/learner/mem_oracle.py:37-77 | a query is empty exactly when three attempts failed, and otherwise the target's answer |
| SystemUnderTest.AnswerEndsWithLastOut | voltron/learner/mlstar.py:163 | the last entry of an answer is what the sink-completed target outputs to the last request, however early the conversation ended |
| SystemUnderTest.SunkIffAbnormal | voltron/learner/mlstar.py:139-150 | the completed target is in a sink exactly after an abnormal last output, and stays at it |
| SystemUnderTest.AnswerStopsGrowing | voltron/learner/mem_oracle.py:44-45 | requests behind an abnormal output neither move the completed target nor add to the answer |
| SystemUnderTest.ConfigCount | voltron/learner/mlstar.py:139-150 | completing the target with sinks adds four situations |
| Learner.ObTable.QueryWithEmptyRetry | voltron/learner/mlstar.py:80-109 | an empty result means that a stop was seen or every attempt was used up; any other result is the target's answer |
| Learner.ObTable.FillRow | voltron/learner/mlstar.py:122-167 | fills the row of one prefix in any order of suffixes, with true outputs only, or reports a stop, which the pass over the extensions looks for before every cell |
| Learner.ObTable.Ask | voltron/learner/mlstar.py:211-238 | a cell is the true output after prefix and suffix; nothing only after a stop |
| Learner.ObTable.FillPrefixRows | voltron/learner/mlstar.py:121-168 | all rows of S are full and true, and no cell already there has changed |
| Learner.ObTable.FillExtensionRows | voltron/learner/mlstar.py:176-238 | the rows of the one-request extensions of one prefix are full and true |
| Learner.ObTable.FillAllExtensionRows | voltron/learner/mlstar.py:174-238 | the rows of all one-request extensions are full and true |
| Learner.ObTable.FillTable | voltron/learner/mlstar.py:114-240 | every cell of S and its extensions is filled with the target's output in any set order, or learning was stopped |
| Learner.ObTable.IsClosed | voltron/learner/mlstar.py:253-264 | true on closed tables; otherwise names a prefix and its first request, in the alphabet's order, whose row no prefix has |
| Learner.ObTable.MakeClose | voltron/learner/mlstar.py:266-288 | terminates; keeps S prefix-closed with pairwise distinct rows; unless stopped or gated, the table ends closed exactly when all rows behind the empty request name are rows of prefixes |
| Learner.ObTable.AddPrefix | voltron/learner/mlstar.py:282-286 | one turn of closing adds exactly the missing prefix and keeps the table true, distinct and one that a closing run reaches |
| Learner.ObTable.IsConsistent | voltron/learner/mlstar.py:290-301 | true exactly on consistent tables |
| Learner.ObTable.MakeConsistent | voltron/learner/mlstar.py:303-317 | on a table the learner keeps, nothing is added: rows that are distinct need no new suffix |
| Learner.ObTable.NumberRows | voltron/learner/mlstar.py:325-334 | the rows of S are numbered from 1, each once |
| Learner.ObTable.ReadEdges | voltron/learner/mlstar.py:345-348 | the edges of one state are those the table shows; a missing successor means an open table |
| Learner.ObTable.BuildHypothesis | voltron/learner/mlstar.py:319-359 | succeeds exactly on closed tables, with a machine whose states, edges, outputs and start are read off the table |
| Learner.MealyLstar.Run | voltron/learner/mlstar.py:381-401 | close once, make consistent once: every machine returned comes from a closed, consistent and faithful table; unless stopped or gated, lookup fails exactly when closing gave up at the empty request name |
| Learner.Learn | voltron/learner/mlstar.py:361-401 | from a fresh table, every machine returned was learned faithfully; unless stopped or gated, lookup fails exactly when the table reached gives up, and then the target is one on which that can happen |
| ClosingOrder.GivesUpIffStuck | voltron/learner/mlstar.py:253-288 | for a target, some closing run ends on an open table exactly when some order of discovery comes to a request with the empty name |
| ClosingOrder.RunDiscovers | voltron/learner/mlstar.py:266-288 | the prefixes of every closing run are a discovery told of the target alone |
| ClosingOrder.DiscoveryRuns | voltron/learner/mlstar.py:266-288 | every discovery is the prefixes of some closing run |
| ClosingOrder.PicksIffFirstNew | voltron/learner/mlstar.py:253-264 | a table misses the row of a prefix's request exactly where single requests draw something new from the target |
| ClosingOrder.LeadingBackIsNeverStuck | voltron/learner/mlstar.py:276-279 | if the empty request always leads back to what was seen on the way, no order of the walk can fail |
| ClosingOrder.WitnessGivesUp | voltron/learner/mlstar.py:276-279 | a target of three states on which closing gives up at once, whatever the order |
| ObservationTable.AddPrefixKeepsReady | voltron/learner/mlstar.py:277-286 | the hidden invariant: adding the prefix that closing found keeps all rows of S distinct, S prefix-closed and the table true |
| ObservationTable.DistinctRowsAreConsistent | voltron/learner/mlstar.py:293-301 | distinct rows are consistent |
| ObservationTable.PrefixesBounded | voltron/learner/mlstar.py:266-288 | prefixes with distinct rows reach distinct situations of the target, so there are at most its states and four |
| ObservationTable.AbnormalCellPersists | voltron/learner/mlstar.py:139-150 | the short-cut for an abnormal leading cell writes what the sink would answer |
| ObservationTable.QueryGivesCell | voltron/learner/mlstar.py:213-233 | an answer is never shorter than its prefix, so the branch that retries is not taken, and its last entry is the cell |
| ObservationTable.EqualRowsIffSameSingles | voltron/learner/mlstar.py:242-251 | two prefixes have equal rows exactly when no single request tells them apart |
| ObservationTable.RowIsSingleOutputs | voltron/learner/mlstar.py:242-251 | a row lists what single requests draw in the situation reached |
| Hypothesis.NamedIffRowInS | voltron/learner/mlstar.py:346-347 | an extension's row has a state exactly when some prefix has that row |
| Hypothesis.WriteEdge | voltron/learner/mlstar.py:343-348 | writing one edge keeps all edges read before, because rows are distinct |
| Exactness.ReachesPrefix | voltron/learner/mlstar.py:319-359 | from its start, the machine reaches the state of every prefix of the table |
| Exactness.Agreement | voltron/learner/mlstar.py:345-350 | for all prefixes and their extensions the machine is in the state of their row and outputs their cells, which are the target's outputs |
| Exactness.StatesArePrefixes | voltron/learner/mlstar.py:328-334 | the machine has exactly one state for each prefix |
| Exactness.Minimal | voltron/learner/mlstar.py:319-359 | no machine that agrees with the table has fewer states |
| Exactness.TracksFuture | voltron/learner/mlstar.py:381-401 | when single requests suffice, after any word the machine is in the state of a prefix with the same future |
| Exactness.ExactMergesTwins | voltron/learner/mlstar.py:343-348 | an exact machine is in one state after any two words that single requests do not tell apart |
| Exactness.ExactIffSinglesSuffice | voltron/learner/mlstar.py:361-401 | the machine equals the target on every word exactly when single requests tell apart all reachable situations that anything tells apart |
| LearningLoop.Fuzzer.RequestStop | voltron/analyzer/analyzer.py:209-220 | the first reason stays |
| LearningLoop.Fuzzer.FinalizeBestHypothesis | voltron/fuzz.py:1273-1291 | saves and activates a model with its own equipment, or fails without a parser and changes nothing |
| LearningLoop.Fuzzer.HandleCompleted | voltron/fuzz.py:1377-1476 | a round completed in time becomes a record, or a miss; the third miss finalizes the last record |
| LearningLoop.Fuzzer.HandleMiss | voltron/fuzz.py:1414-1445 | a hypothesis that is no better uses up a try, and the third one finalizes the last record |
| LearningLoop.Fuzzer.HandleRecord | voltron/fuzz.py:1379-1476 | a first or better hypothesis is added to the list with its own round's equipment |
| LearningLoop.Fuzzer.HandleThreshold | voltron/fuzz.py:1478-1575 | one more threshold in a row, whose evidence is kept; past the limit the last record is restored instead |
| LearningLoop.Fuzzer.HandleExhausted | voltron/fuzz.py:1501-1527 | past the limit the last record is restored and the partial evidence dropped, or there is no record and the evidence stays |
| LearningLoop.Fuzzer.HandleStopped | voltron/fuzz.py:1581-1603 | the reason seen stays, and there always is one; a stop by the deadline keeps the round's traces with the table of the learner that is bound, and fails when none is bound |
| LearningLoop.Fuzzer.HandleOther | voltron/fuzz.py:1363-1611 | a late, stopped or failed round ends the loop and finalizes nothing; a stop by the deadline in the first fill of the first round ends it by an exception |
| LearningLoop.Fuzzer.HandleEvent | voltron/fuzz.py:1334-1611 | each event either ends the loop for its own cause or lowers the measure |
| LearningLoop.Fuzzer.LoopHead | voltron/fuzz.py:1325-1332 | before a round starts only the stop event and the learning deadline end the loop, in this order |
| LearningLoop.Fuzzer.Pass | voltron/fuzz.py:1325-1611 | one pass of the loop keeps its account of the history, or ends it |
| LearningLoop.Fuzzer.ModelLearning | voltron/fuzz.py:1293-1616 | at most (largest count + 4) times (threshold limit + 1) rounds; returns the last of the accepted list, along which counts strictly increase; restores its equipment exactly on the two finalizing exits; each exit has its cause and leaves outcome, guidance and stop reason as the history says; raises for a failure or for a first round stopped by the deadline in its first fill |
| LearningLoop.NoLearnerIff | voltron/fuzz.py:1347-1596 | the handler finds no learner exactly when the deadline stopped the first round in its first fill; every other stop by the deadline returns |
| LearningLoop.OwnTableIff | voltron/fuzz.py:1587-1596 | the table kept with the traces of a stopped round is its own exactly when the stop came after its first fill, and otherwise that of the round before |
| LearningLoop.FirstFillRaises | voltron/fuzz.py:1347-1596 | any run whose first round the deadline stops in the first fill: an exception after one round, and its traces are lost |
| LearningLoop.RecordsIncrease | voltron/fuzz.py:1413-1451 | counts strictly increase along the rounds that are records |
| LearningLoop.AcceptedIncrease | voltron/fuzz.py:1413-1451 | counts and identifiers strictly increase along the accepted list itself, and its last entry is the best hypothesis |
| LearningLoop.LastRecordIsFirstMaximum | voltron/fuzz.py:1413-1451 | the last accepted hypothesis is the first with the largest count completed in time |
| LearningLoop.RecordsBounded | voltron/fuzz.py:1413-1451 | there is at most one accepted hypothesis more than the last count |
| LearningLoop.StreakIsThresholds | voltron/fuzz.py:1354-1357 | the relearn counter counts the rounds in a row that ended at the threshold |
| Lines.JoinedLines | voltron/llm/incremental.py:140 | joining the lines of a text gives the text |
| Lines.ResplitIffNoFusion | voltron/llm/incremental.py:183 | joining pieces that end lines loses no line exactly when no final CR meets an initial LF |
| SourceDelta.OverlapTestIsExact | voltron/llm/incremental.py:166-171 | the test on the sorted edits refuses exactly the deltas with two ranges that share a line |
| SourceDelta.SpliceInOrder | voltron/llm/incremental.py:175-181 | the pieces of the splice stand in document order |
| SourceDelta.SpliceKeepsTheRest | voltron/llm/incremental.py:175-181 | exactly the lines outside every range are kept |
| SourceDelta.SpliceInsertsTheEdits | voltron/llm/incremental.py:175-181 | every non-empty replacement stands at its range, with at most a line end added, and no two pieces stand at one place |
| SourceDelta.EditInPlace | voltron/llm/incremental.py:175-181 | slice assignments from the back, while the line count changes, equal one forward splice |
| SourceDelta.SplicedTextsAreProper | voltron/llm/incremental.py:176-180 | every text but the last keeps a line end, whatever earlier assignments did to the line count |
| SourceDelta.ApplySourceDelta | voltron/llm/incremental.py:121-186 | refuses with the first objection, accepts an unchanged baseline, and otherwise returns the splice unless it changes nothing |
| SourceDelta.PatchedLinesIff | voltron/llm/incremental.py:173-183 | the patched text has exactly the surviving and the replacement lines if and only if a walk over the sorted edits meets no LF behind a CR |
| SourceDelta.SeamFreeIff | voltron/llm/incremental.py:175-181 | the walk, which reads the lines and the edits only, decides whether the spliced texts fuse |
| SourceDelta.PatchKeepsLines | voltron/llm/incremental.py:173-183 | with LF and CR LF only, no lines fuse |
| SourceDelta.LoneCrSwallowsALine | voltron/llm/incremental.py:179-181 | a concrete patch with a lone CR that loses a line |
| NumberedContext.NumberedSourceContext | voltron/llm/incremental.py:74-118 | the whole view if it fits, else a true prefix and suffix, each as long as its share allows, around the marker, within the budget |
| NumberedContext.CutMiddle | voltron/llm/incremental.py:93-118 | a view that shows as many lines of both ends as their shares allow, around the marker |
| NumberedContext.CutIsProper | voltron/llm/incremental.py:93-118 | a cut view of lines that do not fit keeps both ends, leaves lines out between them, and fits the budget |
| NumberedContext.TakeHead | voltron/llm/incremental.py:96-103 | the longest prefix within its share, but one line at least |
| NumberedContext.TakeTail | voltron/llm/incremental.py:105-113 | the longest suffix within its share, but one line at least |
| NumberedContext.RenderShows | voltron/llm/incremental.py:81-88 | every rendered line starts with its number, which reads back, and shows the whole line if it fits and else both its ends |
| NumberedContext.RenderedShows | voltron/llm/incremental.py:75-88 | line `i` of the view shows line `i` of the source behind the number `i + 1` and is no longer than the line limit |
| NumberedContext.CutOmits | voltron/llm/incremental.py:94-116 | a view that is cut always omits lines, so the marker's range is not empty |
| NumberedContext.CutFits | voltron/llm/incremental.py:115-118 | head, marker and tail together stay within the budget |
| SectionSpec.NearestAboveIs | voltron/rfcparser/setciontree.py:383-385 | the parent is the nearest earlier heading of a smaller level |
| SectionSpec.LeavesDisjoint | voltron/rfcparser/setciontree.py:585-596 | leaves are disjoint and in document order |
| SectionSpec.LeavesCover | voltron/rfcparser/setciontree.py:46-66 | every character is in a leaf, or in an inner node's own span of at most its name's length and five |
| SectionSpec.LeavesAscend | voltron/rfcparser/setciontree.py:585-596 | no two leaves come from one heading |
| SectionTree.SectionTree.AddSection | voltron/rfcparser/setciontree.py:574-583 | fails exactly when the level skips one |
| SectionTree.SectionTree.AddSubsection | voltron/rfcparser/setciontree.py:46-66 | hangs a child, behind a padding leaf when it is the first and the own text is long |
| SectionTree.SectionTree.PopToParent | voltron/rfcparser/setciontree.py:383-384 | the stack's top becomes the nearest earlier heading of a smaller level |
| SectionTree.SectionTree.PlaceNode | voltron/rfcparser/setciontree.py:376-389 | placing a heading extends the tree of the earlier headings to the tree of one more |
| SectionTree.SectionTree.AddHeading | voltron/rfcparser/setciontree.py:375-389 | succeeds exactly when no level is skipped, and then table and tree are those of the headings so far |
| SectionTree.SectionTree.SetEnds | voltron/rfcparser/setciontree.py:391-397 | every node ends where the next heading starts |
| SectionTree.SectionTree.ConstructTree | voltron/rfcparser/setciontree.py:369-398 | fails exactly when a heading is more than one level deeper than all before it, and otherwise builds the tree the headings determine |
| SectionTree.SectionTree.IdentifyLeaf | voltron/rfcparser/setciontree.py:585-596 | collects the leaves below a node in document order and marks them and nothing else |
| SectionTree.SectionTree.IdentifyBelow | voltron/rfcparser/setciontree.py:594-596 | visiting the children in turn collects exactly the leaves of the subtree |
| SectionTree.SectionTree.Build | voltron/rfcparser/setciontree.py:352-398 | fewer than two headings build nothing, a skipped level fails, and otherwise the leaves are those of the document |
| HeadingFilter.KeptGuarantee | voltron/rfcparser/setciontree.py:533-555 | of the kept headings no two have the same number, and one with a score below 0.85 has its parent before it |
| HeadingFilter.DroppedForCause | voltron/rfcparser/setciontree.py:533-555 | a heading is dropped only when its number is kept elsewhere, or its score is below 0.85 and its parent is missing |
| HeadingFilter.FilterLetsLevelsJump | voltron/rfcparser/setciontree.py:533-555 | two clean headings pass with levels 1 and 3, which the level table cannot hold |
| HeadingFilter.FilterHoldsLevels | voltron/rfcparser/setciontree.py:533-555 | no level is skipped if every kept numbered heading scores below 0.85 or comes after its parent, so that building the tree cannot fail |
| HeadingFilter.ParentsKeepLevels | voltron/rfcparser/setciontree.py:574-583 | headings that come after their parents skip no level |
| HeadingFilter.LevelOverParent | voltron/rfcparser/setciontree.py:557-563 | a number's level is one more than its parent's, and 1 without a parent |
| HeadingScan.ScanLine | voltron/rfcparser/setciontree.py:406-430 | the position kept for a heading is that of its first character that is not white space |
| HeadingScan.ScanHeadingCandidates | voltron/rfcparser/setciontree.py:400-431 | the running offset is the length of the lines before |
| HeadingScan.CandidatesArePlaced | voltron/rfcparser/setciontree.py:400-431 | every candidate's text stands in the document at its offset, and offsets ascend |
| HeadingScan.FilterKeepsPlaces | voltron/rfcparser/setciontree.py:533-555 | filtered headings meet all that building the tree needs, but for the levels |
| HeadingScan.ConstructTree | voltron/rfcparser/setciontree.py:352-398 | for any document: headings are texts of it in order, and the tree is built exactly when there are two and no level is skipped |
| FrameChain.CutsTile | voltron/executor/response_framing.py:28-54 | frames cut one behind the other tile the batch, each with its own slice |
| FrameChain.CutsGiveBack | voltron/executor/response_framing.py:28-54 | messages whose ends are found where they stand are given back one by one |
| FrameChain.GivenBackIff | voltron/executor/response_framing.py:28-54 | joined messages are given back exactly when each is cut off at its end |
| LineFraming.LineFrames | voltron/executor/response_framing.py:25-54 | the frames of all replies when they reach the end, otherwise the batch; they tile it |
| LineFraming.ReplyIsCut | voltron/executor/response_framing.py:30-49 | a reply is cut off at its own end wherever it stands at a line start |
| LineFraming.RepliesRoundTrip | voltron/executor/response_framing.py:25-54 | joined replies split back into exactly themselves |
| LineFraming.GrammarGivesReplies | voltron/executor/response_framing.py:36-49 | single and multiline replies of section 4.2 of RFC 959 and section 4.2.1 of RFC 5321 whose last code is followed by a space are replies |
| LineFraming.BareIsNotCut | voltron/executor/response_framing.py:22-49 | a reply of section 4.2.1 of RFC 5321 whose last line is the code alone is never cut off at its end |
| LineFraming.RepliesCutIff | voltron/executor/response_framing.py:25-54 | joined replies of the full grammar are given back by the cuts exactly when every last line has the space behind its code |
| LineFraming.RepliesSplitIff | voltron/executor/response_framing.py:25-54 | the splitter returns them as frames exactly then, or when there is only one |
| LineFraming.BareCodeIsSwallowed | voltron/executor/response_framing.py:22-54 | `250 CR LF` followed by `250 ok CR LF` comes back as one frame |
| ContentLengthFraming.ContentLengthFrames | voltron/executor/response_framing.py:71-101 | the frames of all messages, or the batch marked with the reason; they tile it |
| ContentLengthFraming.MessageIsCut | voltron/executor/response_framing.py:75-95 | a message is cut off at its end whatever its body holds |
| ContentLengthFraming.MessagesRoundTrip | voltron/executor/response_framing.py:71-101 | joined messages with arbitrary bodies split back (section 6.3 of RFC 9112, section 18.3 of RFC 3261) |
| ContentLengthFraming.DeclaredExtends | voltron/executor/response_framing.py:84-90 | the declared length does not change when more header lines follow |
| ContentLengthFraming.LfMessageIff | voltron/executor/response_framing.py:75-79 | a message with LF line ends is cut at its end exactly when no CR LF CR LF comes anywhere in the batch |
| ContentLengthFraming.LfMessagesIff | voltron/executor/response_framing.py:71-101 | joined messages with LF line ends split back exactly when no CR LF CR LF is anywhere in the batch |
| ContentLengthFraming.LfMessageCutWrongly | voltron/executor/response_framing.py:75-79 | an LF message of three bytes that swallows the CR LF CR LF behind it |
| DaapFraming.DaapFrames | voltron/executor/response_framing.py:104-117 | the frames of all atoms when they reach the end, otherwise the batch; they tile it |
| DaapFraming.AtomsAre | voltron/executor/response_framing.py:108-115 | atoms are exactly a tag, a length that four bytes hold, and a body |
| DaapFraming.AtomsRoundTrip | voltron/executor/response_framing.py:104-117 | joined atoms split back into exactly themselves |
| DaapFraming.CutFramesArePlausible | voltron/executor/response_plausibility.py:52-60 | every frame that was cut passes the independent length test; only its tag can be objected to |
| ResponseFraming.SplitResponseFrames | voltron/executor/response_framing.py:120-128 | the protocol's splitter; whatever the protocol, frames tile the batch and incompleteness is never mixed with frames |
| ReplayCodec.DecodeReplay | scripts/convert_aflnet_replay_seeds.py:39-57 | succeeds exactly on encodings of non-empty lists, with that list; errors name the offset |
| ReplayCodec.PrefixDecodes | scripts/convert_aflnet_replay_seeds.py:60-63 | the code is uniquely decodable |
| ReplayCodec.NothingDecodes | scripts/convert_aflnet_replay_seeds.py:44-52 | a truncated rest belongs to no encoding |
| SeedDigest.FeedSeed | voltron/executor/executor.py:4061-4082 | the digest is fed the flag, both symbol sequences and the pairs, each with its length |
| SeedDigest.StreamInjective | voltron/executor/executor.py:4061-4082 | two seeds are fed as the same bytes only if they are the same seed |
| Slug.TypeToSlug | voltron/synthesizer/component_paths.py:21-73 | refuses NUL and short limits; the two checks at the end never fire |
| Slug.CutTokens | voltron/synthesizer/component_paths.py:60-69 | takes as many whole tokens as fit |
| Slug.WholeDecodes | voltron/synthesizer/component_paths.py:39-56 | an uncut slug percent-decodes to the name's bytes (section 2.1 of RFC 3986), `%00` for the empty name |
| Slug.WholeInjective | voltron/synthesizer/component_paths.py:39-56 | names with the same uncut slug are the same name |
| Slug.CutSlugIs | voltron/synthesizer/component_paths.py:58-69 | a cut slug shows whole bytes of the name, not one too few and at least thirteen characters, then `~` and the digest |
| Slug.SlugFits | voltron/synthesizer/component_paths.py:58-69 | no slug is longer than the limit, and a cut one wastes two characters at most |
| Slug.TildeIffCut | voltron/synthesizer/component_paths.py:58-59 | `~` stands in a slug exactly when it was cut |
| Slug.SameSlugIff | voltron/synthesizer/component_paths.py:21-73 | two names share a slug exactly when they are equal, or both are cut with the same kept bytes and the same digest |
| Slug.SlugIsOneFileName | voltron/synthesizer/component_paths.py:71-74 | no slug is empty, hidden, `.`, `..`, or holds a separator |
| Slug.WholeIsSafe | voltron/synthesizer/component_paths.py:47-56 | an uncut slug is never a device name |
| Slug.DeviceSlugIff | voltron/synthesizer/component_paths.py:52-69 | a slug is a device name exactly when it was cut and the name's text is one |
| Slug.LongDeviceNameSurvives | voltron/synthesizer/component_paths.py:58-69 | `CON.` with a long tail stays a device name |
| BitFlips.FlipBitsFlips | voltron/scheduler/offline_mutator.py:152-158 | exclusive or of the little-endian value with the shifted mask inverts exactly those bits of the bytes |
| BitFlips.FlipFits | voltron/scheduler/offline_mutator.py:157-158 | the flipped value always fits into the original length |
| BitFlips.FlipBitsTwice | voltron/scheduler/offline_mutator.py:152-158 | flipping the same bits again restores the message |
| OfflineMutator.InvertBit | voltron/scheduler/offline_mutator.py:121-122 | exactly one bit of the message is inverted |
| OfflineMutator.InvertBytes | voltron/scheduler/offline_mutator.py:159-167 | exactly the bits of the chosen bytes are inverted |
| OfflineMutator.AddDelta | voltron/scheduler/offline_mutator.py:181-192 | a window's number moves by an allowed delta, wrapping at its width, and nothing else changes |
| OfflineMutator.PutInteresting | voltron/scheduler/offline_mutator.py:194-202 | a window gets an interesting value of its width in either byte order |
| OfflineMutator.DictionaryMutation | voltron/scheduler/offline_mutator.py:204-214 | overwrites with or inserts a token of the dictionary, unless none fits |
| OfflineMutator.LengthExtremeOp | voltron/scheduler/offline_mutator.py:139-146 | the first byte alone, or the message padded up to the extreme length |
| OfflineMutator.ApplyPlain | voltron/scheduler/offline_mutator.py:116-148 | each plain operator has its effect and no other |
| OfflineMutator.ApplyStage | voltron/scheduler/offline_mutator.py:150-179 | each single-packet stage has its effect, or cannot be applied |
| OfflineMutator.Apply | voltron/scheduler/offline_mutator.py:116-148 | any operator has its effect, and gives nothing only when it cannot be applied |
| OfflineMutator.ApplyHavoc | voltron/scheduler/offline_mutator.py:216-225 | terminates, for havoc never stacks itself; the result is a chain of at most the stack's number of effects of the other operators, none of them empty or too long |
| OfflineMutator.Stages | voltron/scheduler/offline_mutator.py:218-219 | exactly the extreme operator and havoc are left out of the stack |
| MutationOperators.LengthEffect | voltron/scheduler/offline_mutator.py:116-202 | all but three operators change the length by a fixed amount of at most one |
| MutationOperators.EmptyEffect | voltron/scheduler/offline_mutator.py:116-148 | only deleting a single byte empties a message |
| SequenceMutation.Mutator.constructor | voltron/scheduler/offline_mutator.py:43-73 | each setting is the value asked for or, out of range, the bound; the dictionary keeps the non-empty tokens |
| SequenceMutation.Mutator.Propose | voltron/scheduler/offline_mutator.py:96-103 | an accepted candidate has its operator's effect and is not empty, not too long, and near the original unless the operator is the extreme one; a draw comes to nothing only when its operator cannot apply or its candidate is refused |
| SequenceMutation.Mutator.MutatePacket | voltron/scheduler/offline_mutator.py:91-110 | the log is a true history of one packet, which stays in bounds, and the counters account for it |
| SequenceMutation.Mutator.MutateOne | voltron/scheduler/offline_mutator.py:91-113 | mutating one packet keeps all that holds of the others |
| SequenceMutation.Mutator.MutateCandidates | voltron/scheduler/offline_mutator.py:87-113 | as many packets as drawn are touched, each once |
| SequenceMutation.Mutator.MutateSequence | voltron/scheduler/offline_mutator.py:75-114 | types, prefix and protected packets stay; at most the configured number change, each within its bounds; the byte counters equal the change of total length |
| SequenceMutation.KeptStep | voltron/scheduler/offline_mutator.py:111-112 | one more mutated packet keeps every packet's account |
| PartialGuidance.PartialTraceRecorder.Observe | voltron/learner/partial_guidance.py:76-109 | records a conversation exactly when all of it is usable; the usable part counts in any case; growth means a recorded pair not seen before |
| PartialGuidance.DroppedHalfWay | voltron/learner/partial_guidance.py:85-104 | a conversation that ends in a crash adds a new pair and reports no growth |
| PartialGuidance.FrontierIff | voltron/learner/partial_guidance.py:54-67 | a request is in the frontier exactly when no trace continues this one by it |
| GrowthGate.ModelLearningThreshold.Observe | voltron/learner/partial_guidance.py:134-160 | the object's step is the one that the run theorems are about |
| GrowthGate.ObserveQuery | voltron/learner/mem_oracle.py:66-72 | the recorder looks at a query before the gate does |
| GrowthGate.Scale | voltron/learner/partial_guidance.py:143-153 | the products and roundings of the code give the abstract threshold |
| GrowthGate.CeilSqrtIsLeast | voltron/learner/partial_guidance.py:146 | the square root rounded up |
| GrowthGate.CeilLog2IsLeast | voltron/learner/partial_guidance.py:151 | the binary logarithm rounded up |
| GrowthGate.ThresholdMonotone | voltron/learner/partial_guidance.py:143-152 | more outputs never lower the threshold |
| GrowthGate.ThresholdBounds | voltron/learner/partial_guidance.py:151-152 | between four and ten rounds, each with room for every request |
| GrowthGate.ReachedIffExhausted | voltron/learner/partial_guidance.py:134-160 | over any run, the gate is reached exactly when some moment saw a full threshold of covered queries in a row without growth |
| GrowthGate.NeverBeforeCoverage | voltron/learner/partial_guidance.py:138-141 | never reached before every request was sent |
| GrowthGate.GateLatches | voltron/learner/partial_guidance.py:136-137 | once reached it stays as it is, and the threshold never falls over a run |
| GrowthGate.GrowthsAddPairs | voltron/learner/partial_guidance.py:109 | growth is reported at most once for each distinct pair |
| GrowthGate.ReachedInTime | voltron/learner/partial_guidance.py:155-160 | an open gate has seen fewer covered queries than one threshold for each growth and one more |
| AccessSequences.MachineStateAfter | voltron/scheduler/berserker.py:227-245 | the state after a word without its greetings, or none |
| AccessSequences.SelectAccessSequences | voltron/scheduler/berserker.py:168-184 | one shortest candidate for every state that a candidate reaches |
| AccessSequences.FilterKeepsAll | voltron/scheduler/berserker.py:168-173 | the filter drops no prefix, also none that led to a crash |
| AccessSequences.CrashedPrefixIsKept | voltron/scheduler/berserker.py:168-173 | a prefix whose last request crashed the target is a candidate |
| AccessSequences.EveryPrefixIsKept | voltron/scheduler/berserker.py:168-184 | of a learned machine every prefix of the table is kept, one for each state |
| StateScheduler.ScoreIsUnit | voltron/scheduler/berserker.py:256-305 | every priority score lies between 0 and 1 |
| StateScheduler.ScoreIsOneIffBest | voltron/scheduler/berserker.py:256-305 | a state scores 1 exactly when it is best in reward, exploration, depth and uncovered requests |
| StateScheduler.BugsOutweigh | voltron/scheduler/berserker.py:507-516 | a round with a bug is worth more than twice any round without; a crash more than a signal; a discovery more than one kind of growth |
| StateScheduler.Berserker.constructor | voltron/scheduler/berserker.py:184-198 | fresh statistics for every access sequence, only the start visited |
| StateScheduler.Berserker.CalculateStatePriority | voltron/scheduler/berserker.py:256-305 | keeps and returns a score between 0 and 1 and changes nothing else |
| StateScheduler.ScoreIgnoresScores | voltron/scheduler/berserker.py:311-314 | scoring one state does not change the score of another |
| StateScheduler.Berserker.SelectPriorityState | voltron/scheduler/berserker.py:307-321 | the state picked is as good as any other up to the tolerance |
| StateScheduler.Berserker.UseMachineState | voltron/scheduler/berserker.py:323-331 | selecting counts one call and keeps the scheduler's invariant |
| StateScheduler.Berserker.MarkVisited | voltron/scheduler/berserker.py:494-505 | a discovery means a state not visited before, and each is paid for once |
| StateScheduler.Berserker.UpdateStateFeedback | voltron/scheduler/berserker.py:465-522 | rewards only a state that was reached; covered requests stay outgoing ones |
| StateScheduler.BonusesAreFew | voltron/scheduler/berserker.py:494-511 | over any run the bonus is paid at most once for each known state but the first |
| StateScheduler.BonusesBelowPrefixes | voltron/scheduler/berserker.py:494-511 | with a learned machine, at most its states less one |
| DependencyWalk.WalkDependencies | voltron/scheduler/berserker.py:405-417 | terminates; each request is preceded by one of its recorded dependencies; fails only where nothing is recorded to choose from |
| Environment.Executor.EnterBlock | voltron/executor/executor.py:486-496 | a link and not a result: entering under the lock is the atomic step of that name in the schedule theorems |
| Environment.Executor.SetupBlock | voltron/executor/executor.py:498-527 | a link and not a result: the hook outside the lock is the atomic step of that name in the schedule theorems |
| Environment.Executor.PublishBlock | voltron/executor/executor.py:529-534 | a link and not a result: publishing and waking every sleeper is the atomic step of that name in the schedule theorems |
| Environment.StepInv | voltron/executor/executor.py:486-554 | every step of every caller keeps the invariant |
| Environment.SetupOnce | voltron/executor/executor.py:486-554 | under every schedule the hook runs at most once and all callers that returned agree with the published result |
| Environment.TerminalStays | voltron/executor/executor.py:530-533 | a published state and result never change |
| Environment.SchedulesAreShort | voltron/executor/executor.py:489-534 | no schedule takes more than four steps a caller |
| Environment.NobodyWaitsForever | voltron/executor/executor.py:490-491 | when no step is left everyone has returned the published result, unless the hook let an exception through, and then nobody has |
| Environment.AWaiterIsStranded | voltron/executor/executor.py:490-527 | a schedule of two callers that ends with one dead and the other asleep |
| RunController.Controller.StartBlock | voltron/run_controller.py:69-74 | a link and not a result: starting is the atomic step of that name in the schedule theorems |
| RunController.Controller.CloseBlock | voltron/run_controller.py:76-82 | a link and not a result: closing is the atomic step of that name in the schedule theorems |
| RunController.Controller.OnTimerBlock | voltron/run_controller.py:91-99 | a link and not a result: the timer's block is the atomic step of that name in the schedule theorems |
| RunController.Controller.RequestStopBlock | voltron/run_controller.py:49-58 | a link and not a result: a request to stop is the atomic step of that name in the schedule theorems |
| RunController.Controller.RecordBlock | voltron/analyzer/analyzer.py:209-217 | a link and not a result: recording a reason is the atomic step of that name in the schedule theorems |
| RunController.StepInv | voltron/run_controller.py:49-99 | every step of every thread keeps the invariant |
| RunController.OneCallbackOneTimer | voltron/run_controller.py:49-99 | under every schedule at most one deadline callback, at most one timer, none pending after closing |
| RunController.NothingIsTakenBack | voltron/run_controller.py:76-82 | after closing no timer is scheduled; the first reason and the stop event stay |
| RunController.WatcherIsNotLost | voltron/run_controller.py:84-99 | a started watcher that was not closed ends in a stop with a reason |

## Left out

- Learner.ObTable.FillTable: does not model suffixes of several requests, because the code stores a single
  abnormal symbol there; with the learner's own suffixes none ever arises.
- Learner.MealyLstar.Run: does not model a table passed in from outside, nor `berserker_run`.
- Learner.ObTable.Ask: does not model the write into another row after three short TIMEOUT answers,
  because a deterministic target never takes that branch (`ObservationTable.QueryGivesCell`).
- SystemUnderTest.MembershipOracle.Query: does not model seed retention and the saving of conversations.
- Exactness.Minimal: does not compare with machines that disagree with the table.
- LearningLoop.Fuzzer.ModelLearning: does not model the oracles, the mapper and the analyzer's records;
  a hypothesis has one count, fixed when its round completes, while the source counts on in the same
  dictionary until the next round starts; exceptions from storing or drawing a model are one event, and
  storing guidance does not fail.
- LearningLoop.Fuzzer.FinalizeBestHypothesis: does not say which equipment is active on the other exits;
  the source leaves there what the last round used.
- SourceDelta.ApplySourceDelta: does not model deltas whose JSON values have wrong types; the content
  hash is a parameter.
- NumberedContext.NumberedSourceContext: does not bound views of sources with more lines than eleven digits.
- SectionTree.SectionTree.Build: does not model nodes as heap objects; they are entries of a table,
  updated in place and referred to by reference values, so aliasing between nodes is by value.
- SectionTree.SectionTree.Build: does not model the older regular-expression builder that is used when
  there are fewer than two headings.
- HeadingScan.ScanHeadingCandidates: does not model the heading regular expressions and the scoring;
  parsing and scoring of a line are a parameter.
- HeadingFilter.FilterHeadingCandidates: does not model the word before an appendix number; such numbers
  are opaque texts.
- Slug.TypeToSlug: does not model UTF-8 encoding and SHA-256; the name is given as bytes and the digest
  as a function to 16 hexadecimal digits; the separator is `/`.
- SeedDigest.StreamInjective: does not model SHA-256; it is about the bytes fed to it, with lengths below
  2 to the power of 64.
- ReplayCodec.DecodeReplay: does not model messages of 2 to the power of 32 bytes or more, which the
  encoder refuses.
- ContentLengthFraming.ContentLengthFrames: does not model the error that Python raises for a declared length
  of more than 4300 digits; the number is read whatever its length.
- DaapFraming.CutFramesArePlausible: does not model the other plausibility classifiers.
- OfflineMutator.Apply: does not model the random generator; every choice is arbitrary, so the theorems
  hold for all seeds.
- SequenceMutation.Mutator.MutateSequence: does not model the probability of mutating at all; skipping is
  an arbitrary choice.
- GrowthGate.Scale: does not model floating point; the source's square root and logarithm are exact here.
- AccessSequences.SelectAccessSequences: does not model the order of names among candidates of equal
  length, so which of them is kept is left open.
- StateScheduler.ScoreIsUnit: does not model the logarithm and the square root of the exploration term; it
  is any function that is never negative, over real numbers.
- DependencyWalk.WalkDependencies: does not model dependencies recorded while the walk runs.
- Environment.SetupOnce: does not model what the hook does; skipping it counts as a successful run.
- RunController.Controller.constructor: requires the positive duration that the source checks for.
- Sockets, subprocesses, target launch and readiness, signals, remote monitoring, dashboards, terminal
  output, persistence and logging are not part of the model.
- Language-model calls, prompts, response schemas and the execution of generated code are not part of the model.
- Bundle import, configuration, XML editing, compliance analysis and plotting are not part of the model.
