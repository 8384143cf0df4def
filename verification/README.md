# Octos ARC harness: verified model

This project models the parts of the octos-arc repository where a wrong step is hard to see, and proves what they promise over every input, every run or every interleaving.

- **The acceptance and repair machine.** `arc/verify_node.py` checks one requirement at a time in a run directory; `arc/main.py` wires the checks into a pipeline and delivers an app at the end. `Regression`, `RunDirectory`, `RunHistory`, `RepairLadder`, `RepairPipeline` and `Collection` cover the selection of specs to re-run, the files a check rewrites, what holds after any history of checks, when repairing stops, the length of any run and the delivered app. `SpecRunner` covers the loop that runs each test on restored data, and `HonestVerdicts` ties its verdict to the accepted app.
- **Dependency order.** `Graph`, `RequirementTree`, `TopoOrder`, `Ancestors` and `AtomicNodes` cover the two orderings of the requirements and the search for transitive dependencies.
- **Transcript repair.** `TranscriptRepair` covers the chat proxy's normaliser.
- **Column names.** `ColumnNames` covers the bijective base-26 names of spreadsheet cells.
- **Stream capture.** `StreamCapture` covers the chunked line parser and its bounded buffer.
- **Stores and gates.** `Traceability` with `TraceabilityStore` and `TraceabilityEffects`, `DecisionLock` and `PendingRequests` cover the traceability tables, the decision lock and the WebSocket client's request table.

`Lex`, `Paths` and `Wrappers` hold string order, file names and optional values.

Code that updates things in place is a class or a method with loops, proved equal to a function of the old state; the promises are lemmas about that function. What the code cannot control (test runs, verdicts, clocks, pattern matching, JSON parsing) is a parameter: a field of a datatype or a function value.

## Where the code does less than its words

- `verify_node.py` says the first requirement's spec is always re-run (lines 597-603). The code re-runs one canary per family, and only once a check of that family has passed (lines 609-626). The model follows the code: on a cold run nothing is re-run (`Regression.ColdRunRerunsNothing`), and an app that breaks the first requirement's spec can be accepted (`RunHistory.UnearnedCanaryMayBreak`). `Regression.FirstSpecIsListedIff` gives the exact condition, and `RunHistory.GoodPassesCanaries` what it buys over a run.
- A browser install in the middle of a test run clears the results so far, so an earlier failure can be lost: `SpecRunner.ResetHidesAFailure`. `SpecRunner.ResetIsHarmlessIff` says at which positions a reset can cost the verdict or the total.
- Data files under other suffixes or hidden names are not restored between tests: `SpecRunner.OtherFilesLeak`. `SpecRunner.IsolatesIff` says which paths tests may write without disturbing one another.
- Tags that differ only in their last dotted part share one stall record and one repair window: `RepairLadder.SharedKeyMiscounts`, `RepairLadder.SharedKeyStopsEarly`. A tag such as `X.stall` or `X.first` is the name of another record: its check can raise an error instead of stopping (`RepairLadder.OwnStallFileNeverStops`) or stop at once (`RepairLadder.OwnFirstFileStopsAtOnce`). `RepairLadder.RecordsPerTagIff`, `RepairLadder.LaddersEndPerTagIff` and `RepairPipeline.RunEndsIff` give the exact conditions.
- `delete_scenario` with blanks around the id leaves the row in place: `Traceability.DeleteScenarioDeletesIff`. A tree that repeats a requirement id can leave orphan rows: `Traceability.RepeatedIdDisagrees`; `Traceability.StoreTreeAgrees` gives the exact condition.
- `topo_order` may place a node that is on no cycle before its dependency: `TopoOrder.FallbackMayPlaceABystander`. `TopoOrder.CanBeMisplacedIff` says which nodes that can happen to. The depth-first listing does it to nodes on a cycle only.
- A request that draws an id still in use orphans the older request: `PendingRequests.ReusedIdIsLost`. `PendingRequests.StepIsExactIff` and `PendingRequests.ExactThroughoutIff` give the exact condition.
- A send that fails after its request timed out, was answered or was closed rejects the request's promise a second time, which the promise ignores: `PendingRequests.LateFailureSettlesTwice`. `PendingRequests.SettledOnceIff` gives the exact condition.

## Model

| member | source | states |
|---|---|---|
| Regression.FamilyIsPrefix | arc/verify_node.py:618-621 | a tag's family is a prefix of the tag and is its own family |
| Regression.FamilyOfNumbered | arc/verify_node.py:620-621 | a tag that is `REQ-`, a number and anything that does not go on with a digit belongs to `REQ-` and that number |
| Regression.FamilyOfOther | arc/verify_node.py:620-621 | any other tag is a family of its own |
| Regression.SameFamilyIff | arc/verify_node.py:618-621 | two numbered tags share a family if and only if their first numbers are the same text |
| Regression.NumberedCanaryIsRerun | arc/verify_node.py:609-626 | once a tag of REQ-n has passed, the first spec of the first other tag of REQ-n with specs is re-run |
| Regression.EarlierSpecs | arc/verify_node.py:604-608 | lists exactly the specs of the other tags whose last verdict is a pass |
| Regression.GroupFamilies | arc/verify_node.py:618-621 | each family gets exactly its tags, in sorted order |
| Regression.FirstRideIsRide | arc/verify_node.py:622-624 | the tag found first in a sorted family is the least one, other than the checked tag, that has specs; none is found only if none exists |
| Regression.CanarySpecs | arc/verify_node.py:609-626 | lists exactly the first spec of that tag for each family with a passed tag |
| Regression.SelectSpecs | arc/verify_node.py:596-632 | the check runs its own specs, then exactly the earlier and canary specs it lacks, each once |
| Regression.ColdRunRerunsNothing | arc/verify_node.py:604-626 | while no tag has passed, no spec is re-run, the first requirement's included |
| Regression.CanaryIsRerunIff | arc/verify_node.py:609-626 | the first spec of a family's first other tag is re-run if and only if the family has passed, for a spec no other family has |
| Regression.FirstSpecIsListedIff | arc/verify_node.py:596-632 | a check lists the first spec of a family if and only if it has the spec among its own or the family has passed before |
| RunDirectory.RunDir.NoteAttempt | arc/verify_node.py:550-584 | the files of the attempts directory after one more failure, whether a file that is not what it expects makes it raise an error, and the reason to stop |
| RunDirectory.RunDir.KeepBest | arc/verify_node.py:514-528 | the best snapshot changes only for a strictly higher pass count |
| RunDirectory.RunDir.Record | arc/verify_node.py:633-654 | the whole run directory after a check, and whether its output carries STOP |
| RunDirectory.RunCheck | arc/verify_node.py:587-654 | selection, check and recording together; the listing has the canary of every REQ-n with a passed tag |
| RunDirectory.SnapshotHasFrontend | arc/verify_node.py:230-235 | every snapshot a check takes has a frontend, because the check writes missing manifests |
| RunDirectory.ManifestsFillGaps | arc/verify_node.py:232-235 | missing manifests are written and nothing the workspace has is touched |
| RunDirectory.SnapshotKeeps | arc/verify_node.py:507-511 | a snapshot keeps exactly the frontend and backend files with no installed or built part on their path, as they are |
| RunHistory.StatusIsLastVerdict | arc/verify_node.py:643-645 | after any history the recorded verdict of a tag is that of its last check |
| RunHistory.GoodIsLastPass | arc/verify_node.py:637-641 | `.arc-good` is what the last passing check verified, and absent if none passed |
| RunHistory.ListingIsHonest | arc/verify_node.py:596-634 | if a zero verdict means the listed specs passed, the check is honest in the sense the next rows need |
| RunHistory.CheckKeepsGood | arc/verify_node.py:596-645 | one check keeps the invariant below |
| RunHistory.GoodAlwaysPasses | arc/verify_node.py:596-645 | after every history, `.arc-good` passes all specs of every requirement whose recorded verdict is a pass |
| RunHistory.GoodPassesCanaries | arc/verify_node.py:596-641 | after every honest history the accepted app passes the first spec of every family that had passed when it was accepted, of the accepting check's own family if it is the first tag, and of all when the full suite accepted it |
| RunHistory.UnearnedCanaryMayBreak | arc/verify_node.py:609-641 | for a family that had not passed, any other check can be honest and have an app accepted that breaks the family's first spec |
| RunHistory.BestIsEarliestBest | arc/verify_node.py:514-528 | `.arc-best` is the app of the earliest full-suite check reaching the highest pass count |
| RepairLadder.RecordsSpeak | arc/verify_node.py:560-575 | where no tag is the name of a record, after every history a tag's counter is the number of its failures, its window opened with the first failure of its key, and its stall count is the key's trailing run of equal scores minus one |
| RepairLadder.RecordsPerKeyIff | arc/verify_node.py:560-575 | that holds of all histories over a set of tags if and only if no tag is the name of a record of a tag |
| RepairLadder.RecordsPerTagIff | arc/verify_node.py:560-575 | all three records are about the tag alone if and only if, besides, no two tags share a key |
| RepairLadder.CollisionShows | arc/verify_node.py:560-575 | a tag that is the name of another record: one failure leaves its own records wrong |
| RepairLadder.SharedKeyMiscounts | arc/verify_node.py:560-575 | two tags with one key: the second one's first failure already counts as a stall |
| RepairLadder.UndottedTagsAreApart | arc/verify_node.py:564-569 | tags without a dot never share a key or a name |
| RepairLadder.LadderKeepsMoving | arc/verify_node.py:550-584 | while no attempt ended its ladder, no key has three equal non-empty scores in a row |
| RepairLadder.LaddersEndPerKeyIff | arc/verify_node.py:576-584 | in all histories over a set of tags a failure stops the ladder exactly when attempts, deadline or the key's window are spent or the score equals the key's last two, if and only if no tag is the name of a record of a tag |
| RepairLadder.LaddersEndPerTagIff | arc/verify_node.py:564-584 | the same by the failures of the requirement alone, if and only if, besides, no two tags share a key |
| RepairLadder.ReasonIsFirstMet | arc/verify_node.py:576-584 | the reason given is the first limit met, in the order attempts, deadline, window, score |
| RepairLadder.SharedKeyStopsEarly | arc/verify_node.py:564-581 | two tags with one key: the second one stops at its first failure because the first one's window is spent |
| RepairLadder.OwnStallFileNeverStops | arc/verify_node.py:570-575 | a tag that is its own stall file raises an error even with its attempts used up |
| RepairLadder.OwnFirstFileStopsAtOnce | arc/verify_node.py:564-581 | a tag that is its own first-failure file has its count read as a time, and its window spent at once |
| RepairLadder.JammedForGood | arc/verify_node.py:562-575 | once a scored failure of a tag raises an error, every later one does |
| RepairPipeline.StepDecreases | arc/main.py:439-499 | where no tag can jam, every check brings the end of the run nearer, whatever its outcome |
| RepairPipeline.RunEnds | arc/main.py:439-516 | then any run makes at most N * (repairs + 1) requirement checks plus final_repairs + 1 full-suite checks, and by then has ended |
| RepairPipeline.JammedRunGoesOn | arc/main.py:397-516 | where a tag can jam, some run goes on for any number of rounds, unless the scheduler's own retry budget ends it |
| RepairPipeline.RunEndsIff | arc/main.py:397-516 | runs are bounded if and only if no repairable tag is the name of a stall record or of the first-failure file of an earlier tag |
| RepairPipeline.UndottedTagsDoNotJam | arc/verify_node.py:560-575 | tags without a dot, such as the hyphenated ids, never jam |
| RepairPipeline.EveryRequirementIsReached | arc/main.py:464-499 | a finished run checked every requirement and the full suite at least once, and within their limits where no tag can jam |
| RepairPipeline.ChecksAreOfTheirPhase | arc/main.py:456-503 | each check of a run has the tag of the requirement it was made for, or is the full-suite check |
| RepairPipeline.FullSuiteIsCheckedIff | arc/main.py:500-503 | a finished run checked the full suite if and only if there are two requirements and some spec |
| RepairPipeline.LateChecksAreNotRepaired | arc/main.py:489-493 | once less is left before the deadline than every later requirement and the final reserve are to get, a failing check is not repaired |
| RepairPipeline.RepairsIff | arc/main.py:439-513 | a check of a run goes back to its implement node if and only if it fails within attempts, deadline, window and score rule of the policy, prints no STOP of its own, is not quarantined, and retries are left |
| RepairPipeline.RunIsHonest | arc/main.py:456-499 | the options and spec lists the pipeline hands out make every run honest |
| RepairPipeline.AcceptedAppPasses | arc/main.py:456-516 | at every point of every pipeline run the accepted app passes the specs of every passed requirement |
| HonestVerdicts.ExecutedCheckIsHonest | arc/verify_node.py:257-346 | a check is honest if, when it passes, its verdict is that of running its listed tests one by one on restored data and a reset drops no test for good |
| HonestVerdicts.AcceptedAppPassesItsTests | arc/verify_node.py:587-645 | so after every history whose passing checks ran that way, whatever the failing ones did, the accepted app passes the specs of every passed requirement, with nothing assumed of the verdicts |
| Collection.MaxScored | arc/main.py:1004-1008 | the run directory with the highest (score, path), or none if none is scored |
| Collection.MaxStamped | arc/main.py:1010-1019 | the run directory with the latest (stamp, path), or none |
| Collection.CollectApp | arc/main.py:983-1026 | best full-suite state of all directories, else last accepted state, else the newest workspace |
| Collection.DeliversTheBest | arc/main.py:995-1008 | the delivered app is from the earliest full-suite check with the highest count of its directory, no full-suite check in any directory passed more, and ties go to the last path |
| Collection.DeliversTheLastAccepted | arc/main.py:1009-1019 | without a full-suite check it is from the last passing check of its directory, and no directory's last passing check is later |
| Collection.DeliversTheNewest | arc/main.py:1020-1021 | without a passing check either it is the newest directory's workspace |
| Collection.SwapKeeps | arc/main.py:1061-1070 | swapping in delivers exactly the frontend and backend files with no installed part and no repository data on their path |
| Collection.SnapshotIsDelivered | arc/main.py:1022-1024 | all of a snapshot is delivered apart from `.git` parts |
| SpecRunner.AppDir.WriteBack | arc/verify_node.py:306-307 | every seeded file has its seeded content again, others are untouched |
| SpecRunner.AppDir.DropUnseededStores | arc/verify_node.py:182-188 | exactly the data files outside the seed are deleted |
| SpecRunner.RestoreIsExact | arc/verify_node.py:163-188 | after both, the data files are exactly the seed, whatever a test did |
| SpecRunner.RestoreUndoes | arc/verify_node.py:306-308 | if the code is untouched, the whole app is as it was |
| SpecRunner.WritingBackIsExactIff | arc/verify_node.py:328-330 | writing the seed back alone restores the data if and only if no data file was created |
| SpecRunner.StoreByExtension | arc/verify_node.py:172-179 | which backend files are data by their extension, unless hidden, installed or a manifest |
| SpecRunner.StoreWithoutExtension | arc/verify_node.py:172-179 | a backend file without an extension is data unless hidden or installed |
| Paths.SuffixOfDotted | arc/verify_node.py:564-569 | the suffix of a dotted name is its last dot and what follows, and taking it off leaves the rest |
| Paths.NoSuffix | arc/verify_node.py:564-569 | a name without a dot, or with its last one at either end, has no suffix |
| SpecRunner.RunPass | arc/verify_node.py:304-343 | one pass of the loop on its variables and the app directory |
| SpecRunner.RunSpecs | arc/verify_node.py:277-346 | verdict, total and files are those of the loop from the seeded app |
| SpecRunner.RunIsIsolated | arc/verify_node.py:257-346 | verdict and total equal those of running each test alone on the app as it was, counted from the reset on |
| SpecRunner.SpentRunIsExact | arc/verify_node.py:328-343 | when the budget runs out after k tests the total is that of those tests alone, counted from the reset on, and the verdict is theirs or else that of the rest, run in one boot on the seed written over what the last test left |
| SpecRunner.SpentRunPassesIff | arc/verify_node.py:328-343 | its verdict is zero if and only if those tests pass alone and the rest exits zero |
| SpecRunner.AloneRcIsFirstFailure | arc/verify_node.py:323-323 | the exit code is that of the first test that fails |
| SpecRunner.AlonePassedSplits | arc/verify_node.py:325-326 | the total is the passes each test reports, failing or not, added up one by one |
| SpecRunner.PassingTestsNeverReset | arc/verify_node.py:317-322 | tests that pass never clear anything, whatever they print |
| SpecRunner.ResetIsHarmlessIff | arc/verify_node.py:317-322 | whatever the tests do, a reset at position r leaves the verdict right if and only if every test before r is listed again, and the total right if and only if there is none before r |
| SpecRunner.LateResetIsHarmful | arc/verify_node.py:317-322 | with each test listed once the verdict is safe if and only if the reset comes at the first test |
| SpecRunner.ResetHidesAFailure | arc/verify_node.py:317-322 | a concrete run whose first test fails and whose verdict is zero |
| SpecRunner.OrderDoesNotMatter | arc/verify_node.py:257-346 | permuting the tests changes neither the zero verdict nor the total when both orders count every test with the same browser |
| SpecRunner.SettledOrderDoesNotMatter | arc/verify_node.py:317-322 | in particular when no test asks for a browser, or no install succeeds, or all ask and the first install succeeds |
| SpecRunner.OrderNeverMattersIff | arc/verify_node.py:257-346 | where installs succeed, order cannot matter, whatever else the tests do, if and only if no test or every test asks for a browser |
| SpecRunner.WritesDoNotMatter | arc/verify_node.py:163-188 | nor does what any test writes, creates or deletes in the data files |
| SpecRunner.OtherFilesLeak | arc/verify_node.py:163-188 | any file that is not a data file survives and can fail the next test |
| SpecRunner.IsolatesIff | arc/verify_node.py:163-188 | tests that may write to certain paths are isolated from one another, whatever they do there, if and only if all those paths are data files |
| Graph.NoWayOutIsCyclic | arc/requirement_order.py:73-76 | a finite set of ids in which each depends on another of the set holds a cycle |
| RequirementTree.FlattenAtomic | arc/requirement_order.py:13-23 | appends the atomic nodes of a subtree in document order |
| RequirementTree.LeavesInDocumentOrder | arc/requirement_order.py:13-23 | the leaves are the nodes typed ATOMIC and the childless ones that are no FOLDER, in document order |
| RequirementTree.DescendantAtomicIds | arc/requirement_order.py:26-46 | the leaf ids of a subtree and the table built on the way |
| RequirementTree.TableMeaning | arc/requirement_order.py:26-46 | on a tree with distinct ids the table sends every node id to its own leaves and nothing else |
| RequirementTree.LeafIdsAreAtomics | arc/requirement_order.py:13-46 | the two leaf listings agree where no ATOMIC node has children |
| TopoOrder.Expand | arc/requirement_order.py:61-68 | exactly the known atoms the named dependencies expand to, without the node itself, each once |
| TopoOrder.ExpandedMeaning | arc/requirement_order.py:57-68 | an edge of the expanded table means: names a node that is, or lies above, the other |
| TopoOrder.UntabledNameIsItself | arc/requirement_order.py:65-67 | a name the table does not have stands for itself, as below an ATOMIC node |
| TopoOrder.OrderLoop | arc/requirement_order.py:70-80 | the loop computes the greedy order |
| TopoOrder.Order | arc/requirement_order.py:49-80 | for every tree a permutation of the atomic nodes that respects the dependencies if and only if they have no cycle |
| TopoOrder.FallbackMeansCycle | arc/requirement_order.py:74-76 | the document-order fallback fires only when the nodes not yet placed hold a cycle |
| TopoOrder.NoOrderRespectsACycle | arc/requirement_order.py:49-56 | no order whatever respects dependencies along a cycle |
| TopoOrder.RespectsIffAcyclic | arc/requirement_order.py:70-80 | the result respects the dependencies if and only if they are acyclic |
| TopoOrder.OrderPromises | arc/requirement_order.py:49-80 | permutation, order if acyclic, and a document already in dependency order is unchanged |
| TopoOrder.OrderIsLexicographicallyLeast | arc/requirement_order.py:70-80 | among all dependency-respecting orders the result is least by document position |
| TopoOrder.FallbackMayPlaceABystander | arc/requirement_order.py:74-76 | a node on no cycle can come before its dependency |
| TopoOrder.CanBeMisplacedIff | arc/requirement_order.py:70-80 | some order of the document makes a node come before one of its dependencies if and only if the node is on a cycle or leads to one |
| Ancestors.Search | arc/requirement_order.py:85-93 | finds exactly the known ids reachable in one or more steps, without the start, on any graph |
| Ancestors.AncestorsOf | arc/requirement_order.py:83-94 | returns exactly those ids, in the given order |
| Ancestors.ByIdIsLast | arc/requirement_order.py:85-85 | an id gets the last node that has it |
| Ancestors.OnlyKeepsPlaces | arc/requirement_order.py:94-94 | each ancestor is listed in its place, after those before it |
| Ancestors.OnlyLength | arc/requirement_order.py:94-94 | and as often as it occurs in the given order |
| AtomicNodes.CollectIds | arc/main.py:137-145 | the dictionary holds exactly the ids of the non-folder nodes |
| AtomicNodes.CollectHoldsLast | arc/main.py:139-145 | under each id the dictionary holds the last non-folder node with it in document order |
| AtomicNodes.Visitor.Visit | arc/main.py:149-156 | the visit finishes what its dependencies need, left to right, and then the node; it ends with the id finished or under way, keeps the listing free of repeats, and keeps every listed dependency placed or cyclic |
| AtomicNodes.ExploresLeftToRight | arc/main.py:153-154 | dependencies are visited in the order they are named |
| AtomicNodes.ExploreGrows | arc/main.py:149-156 | a visit lists the node and what it leads to, nothing else |
| AtomicNodes.ListingIsOnDemand | arc/main.py:158-159 | nothing is listed before an id but what the ids up to it in the document draw in |
| AtomicNodes.ListingKeepsOrder | arc/main.py:158-159 | ids that wait only for those before them are listed as they are |
| AtomicNodes.ListAtomicNodes | arc/main.py:135-160 | exactly the last non-folder node of each id of the tree, each once, for any graph; a node before one of its own dependencies is on a cycle of the dependencies the tree names; nothing comes before a node but what the document has earlier and what that needs; a document in dependency order is listed as it is |
| AtomicNodes.DistinctIdsAreAllListed | arc/main.py:135-160 | with each id once these are exactly the non-folder nodes of the tree |
| AtomicNodes.OutOfOrderMeansCycle | arc/main.py:149-160 | a requirement listed before a known dependency lies on a cycle with it |
| AtomicNodes.AcyclicListingIsInOrder | arc/main.py:135-160 | without cycles every dependency comes first |
| TranscriptRepair.RepairToolSequences | scripts/deepseek-chat-compat-proxy.py:153-190 | the repaired transcript, how many results were inserted and how many tool messages dropped |
| TranscriptRepair.RepairIsWellFormed | scripts/deepseek-chat-compat-proxy.py:161-190 | one result per call id at once and in order, no other tool messages, other messages kept in order, results taken from the input where it has one |
| TranscriptRepair.RepairFixpoints | scripts/deepseek-chat-compat-proxy.py:153-190 | the fixpoints are exactly the well-formed transcripts in which equal ids carry equal results |
| TranscriptRepair.RepairIsIdempotent | scripts/deepseek-chat-compat-proxy.py:153-190 | repairing twice is repairing once |
| TranscriptRepair.NonEmptyKeeps | scripts/deepseek-chat-compat-proxy.py:170-172 | the ids expected are exactly the non-empty call ids, each in its place and as often as it occurs |
| TranscriptRepair.RepairFollowsEveryMessage | scripts/deepseek-chat-compat-proxy.py:161-190 | each message other than a result is followed by exactly as many results as it has non-empty call ids |
| TranscriptRepair.RepairAnswersEveryCall | scripts/deepseek-chat-compat-proxy.py:170-187 | every call with an id has its result at its own place behind the message |
| TranscriptRepair.InsertedAreUnanswered | scripts/deepseek-chat-compat-proxy.py:178-187 | as many results are inserted as there are calls without one |
| TranscriptRepair.RepairBalance | scripts/deepseek-chat-compat-proxy.py:164-190 | the results in the output answer exactly the calls of the input, call by call, and its length is the messages kept plus the calls |
| TranscriptRepair.ResultTableLookup | scripts/deepseek-chat-compat-proxy.py:154-159 | the dictionary holds exactly the recorded ids, each with its first result |
| ColumnNames.Coord | arc/proxy-tests/hackathon--sheet/helpers.ts:118-123 | the loop computes the cell name |
| ColumnNames.ColumnNamesAreABijection | arc/proxy-tests/hackathon--sheet/helpers.ts:118-122 | names and numbers are inverse bijections between n >= 1 and non-empty A-Z strings |
| ColumnNames.ColumnOrderIsShortlex | arc/proxy-tests/hackathon--sheet/helpers.ts:121-121 | column order is shortlex order of the names, both ways |
| ColumnNames.DigitsAreDecimal | arc/proxy-tests/hackathon--sheet/helpers.ts:122-122 | the digits of a number read as that number and have no zero in front |
| ColumnNames.DecimalIsDigits | arc/proxy-tests/hackathon--sheet/helpers.ts:122-122 | every decimal text is the digits of the number it reads as |
| ColumnNames.RowTextMeaning | arc/proxy-tests/hackathon--sheet/helpers.ts:122-122 | a row is printed in decimal, below zero with a sign |
| ColumnNames.CellNamesClash | arc/proxy-tests/hackathon--sheet/helpers.ts:118-123 | two cells share a name exactly when row and column agree, all columns below 1 counting as one |
| StreamCapture.Capture.PushFrame | e2e/lib/capture-replay.ts:240-259 | the buffer is the first maxFrames frames pushed, then one marker if and only if more were pushed |
| StreamCapture.Capture.ParseAndPush | e2e/lib/capture-replay.ts:261-288 | pushes the frames of the completed lines and carries the unfinished one |
| StreamCapture.Capture.Finish | e2e/lib/capture-replay.ts:331-334 | an unterminated last line is flushed |
| StreamCapture.SplitAfter | e2e/lib/capture-replay.ts:267-269 | splitting can start again from the unfinished line |
| StreamCapture.SplitIsExact | e2e/lib/capture-replay.ts:268-268 | the pieces joined by newlines are the text and none has a newline |
| StreamCapture.FrameOfData | e2e/lib/capture-replay.ts:270-286 | a data line gives one frame of its stream with the trimmed text, as JSON if it parses and as raw text if not |
| StreamCapture.NoFrame | e2e/lib/capture-replay.ts:270-274 | a blank data line and any other line give none |
| StreamCapture.KeptMeaning | e2e/lib/capture-replay.ts:240-259 | a buffer not filled up holds every frame, a full one the first ones and one marker naming the limit |
| StreamCapture.FramesDependOnTextOnly | e2e/lib/capture-replay.ts:261-345 | a finished stream's frames are those of the lines of all its text, for any chunks and any interleaving with other streams |
| StreamCapture.FramesNameTheirStream | e2e/lib/capture-replay.ts:281-286 | each frame names the address of its stream and the source |
| StreamCapture.ChunkingIsInvisible | e2e/lib/capture-replay.ts:261-345 | two captures that gave a stream the same text recorded the same frames for it |
| StreamCapture.Replay | e2e/lib/capture-replay.ts:240-345 | a whole capture, with one carry per stream, fills the buffer with the first maxFrames frames of the run and one marker if there were more |
| Traceability.StripIsClean | arc/arcbench_agent_runtime/traceability.py:213-228 | stripped keys have no outer blanks and stripping again changes nothing |
| Traceability.PutRequirementAgrees | arc/arcbench_agent_runtime/traceability.py:236-281 | the tables agree afterwards if and only if no scenario id is taken from another stored requirement |
| Traceability.PutScenarioAgrees | arc/arcbench_agent_runtime/traceability.py:325-349 | the same for a single scenario |
| Traceability.RemoveScenarioAgrees | arc/arcbench_agent_runtime/traceability.py:351-364 | deleting a scenario always keeps the agreement |
| Traceability.DeleteScenarioDeletesIff | arc/arcbench_agent_runtime/traceability.py:351-364 | the row stays if and only if its owner is stored and the id was written with blanks |
| Traceability.RemoveRequirementAgrees | arc/arcbench_agent_runtime/traceability.py:299-305 | deleting a requirement keeps the agreement and leaves no row naming it |
| Traceability.StoreTreeAgrees | arc/arcbench_agent_runtime/traceability.py:159-211 | storing any tree leaves the tables in agreement if and only if each scenario id is carried last by the last visit of its requirement and by no other requirement's last visit |
| Traceability.DistinctTreeAgrees | arc/arcbench_agent_runtime/traceability.py:159-211 | with distinct requirement ids: if and only if no scenario id occurs under two requirements |
| Traceability.ApplyAgreesIff | arc/arcbench_agent_runtime/traceability.py:159-364 | any operation keeps the agreement if and only if it steals no scenario id |
| Traceability.ApplyKeepsNormal | arc/arcbench_agent_runtime/traceability.py:213-228 | keys and references stay stripped and non-empty |
| Traceability.TablesAlwaysAgree | arc/arcbench_agent_runtime/traceability.py:159-364 | the tables agree, row contents included, at every point of a sequence of operations if and only if none of them steals |
| Traceability.TestsKeepTheirOwner | arc/arcbench_agent_runtime/traceability.py:299-686 | whatever operations follow, a test row stays if and only if none deletes it by its own id or its requirement's, and as long as it stays it keeps its requirement |
| Traceability.RepeatedIdDisagrees | arc/arcbench_agent_runtime/traceability.py:170-208 | a tree with a repeated requirement id leaves the tables in disagreement |
| TraceabilityEffects.StripOf | arc/arcbench_agent_runtime/traceability.py:213-228 | stripping takes off the outer blanks and nothing else |
| TraceabilityEffects.DropOf | arc/arcbench_agent_runtime/traceability.py:341-345 | dropping scenarios takes out those with the id and leaves the others in order |
| TraceabilityEffects.RowOfScenario | arc/arcbench_agent_runtime/traceability.py:267-280 | a scenario row has its requirement, the steps, and the name or else the id, of the last embedded scenario with the id |
| TraceabilityEffects.RequirementIsWritten | arc/arcbench_agent_runtime/traceability.py:236-281 | the row is replaced, the embedded scenarios have rows naming it, rows no longer embedded go, and nothing else changes |
| TraceabilityEffects.BlankIdsAreRefused | arc/arcbench_agent_runtime/traceability.py:217-330 | a requirement or scenario without an id is refused and nothing changes |
| TraceabilityEffects.RequirementIsDeleted | arc/arcbench_agent_runtime/traceability.py:299-305 | its row and the scenario and test rows naming it go, and nothing else changes |
| TraceabilityEffects.VisitsMeaning | arc/arcbench_agent_runtime/traceability.py:170-207 | the walk meets a requirement before what is below it and children in order; a node without an id hides what is below it |
| TraceabilityEffects.TreeIsStored | arc/arcbench_agent_runtime/traceability.py:159-211 | each requirement met has the fields of its last visit, each scenario id the row of its last occurrence, and no other row is left |
| TraceabilityEffects.ScenarioIsWritten | arc/arcbench_agent_runtime/traceability.py:325-349 | the row names its requirement, which embeds the scenario last and once if it is stored; no other row changes |
| TraceabilityEffects.ScenarioIsDeleted | arc/arcbench_agent_runtime/traceability.py:351-364 | the owner no longer embeds it under the id as written; no other requirement and no other row changes |
| TraceabilityEffects.TestIsWritten | arc/arcbench_agent_runtime/traceability.py:473-509 | the test row is written under its stripped id, or nothing changes |
| TraceabilityEffects.TestsAreDeleted | arc/arcbench_agent_runtime/traceability.py:568-686 | one test, or the tests of a requirement, are taken out and nothing else |
| TraceabilityStore.Store.StoreRequirementTree | arc/arcbench_agent_runtime/traceability.py:159-211 | both tables are replaced by what the walk meets |
| TraceabilityStore.Store.UpsertRequirement | arc/arcbench_agent_runtime/traceability.py:236-281 | tables after the call, or unchanged with an error |
| TraceabilityStore.Store.UpsertScenario | arc/arcbench_agent_runtime/traceability.py:325-349 | tables after the call, or unchanged with an error |
| TraceabilityStore.Store.DeleteScenario | arc/arcbench_agent_runtime/traceability.py:351-364 | tables after the call |
| TraceabilityStore.Store.DeleteRequirement | arc/arcbench_agent_runtime/traceability.py:299-305 | tables after the call |
| TraceabilityStore.Store.UpsertTest | arc/arcbench_agent_runtime/traceability.py:486-509 | the row is written, or refused when the id belongs to another requirement |
| TraceabilityStore.Store.DeleteTest | arc/arcbench_agent_runtime/traceability.py:568-570 | tables after the call |
| TraceabilityStore.Store.ClearDesignArtifacts | arc/arcbench_agent_runtime/traceability.py:672-686 | the tests of the requirement go, the id taken as it is |
| DecisionLock.CheckEntries | scripts/check-decision-lock.py:217-262 | one problem per absent, changed or unexplained entry, in order |
| DecisionLock.EntryProblemsMean | scripts/check-decision-lock.py:217-262 | which problem an entry is reported with: absent, not committed, changed, or diverging without a reason |
| DecisionLock.NumberingMeaning | scripts/check-decision-lock.py:281-291 | a number collides if and only if two files claim it; a gap is an unclaimed number below a claimed one |
| DecisionLock.ClaimsAreCounted | scripts/check-decision-lock.py:281-288 | a collision lists each file name as often as files of that name claim the number |
| DecisionLock.CheckNumbering | scripts/check-decision-lock.py:294-321 | exactly the collisions and gaps the lock does not know |
| DecisionLock.Gate | scripts/check-decision-lock.py:450-453 | the gate reports exactly the problems of its three checks |
| DecisionLock.Update | scripts/check-decision-lock.py:391-426 | the rebuilt lock |
| DecisionLock.GateAfterUpdate | scripts/check-decision-lock.py:217-321 | after an update the gate on the same tree reports exactly the covered files that differ from the pin without a stated reason |
| DecisionLock.UpdateIsIdempotent | scripts/check-decision-lock.py:391-426 | a second update with the same tree and pin changes nothing |
| DecisionLock.UpdatedEntryMeaning | scripts/check-decision-lock.py:404-417 | what an update writes for a covered file |
| DecisionLock.ReasonsDoNotOutlive | scripts/check-decision-lock.py:391-426 | a reason is dropped while the file equals its pin, so a later divergence is reported again |
| DecisionLock.PassingLockSeesEveryChange | scripts/check-decision-lock.py:217-321 | from a lock whose gate passes, the gate passes on another tree if and only if that tree is the same on every covered and inventoried path and has no unknown collision or gap |
| DecisionLock.CoveredRecordsArePinned | scripts/check-decision-lock.py:217-321 | where every numbered record is covered, sameness on those paths alone decides |
| PendingRequests.WsClient.IssueRequest | e2e/lib/m9-ws-client.ts:318-338 | the new entry, timer and send, or an error once closed |
| PendingRequests.WsClient.HandleResponse | e2e/lib/m9-ws-client.ts:252-270 | a response settles the pending request of its id and no other |
| PendingRequests.WsClient.TimerFires | e2e/lib/m9-ws-client.ts:325-328 | a timeout takes its request out of the table and rejects it |
| PendingRequests.WsClient.SendCallback | e2e/lib/m9-ws-client.ts:330-336 | a failed send takes the request's id out of the table and rejects it, settled or not |
| PendingRequests.WsClient.OnSocketClose | e2e/lib/m9-ws-client.ts:241-248 | everything pending is rejected once and the client is closed |
| PendingRequests.WsClient.CloseClient | e2e/lib/m9-ws-client.ts:371-388 | the same for a call of close, which is idempotent |
| PendingRequests.WellFormedAlways | e2e/lib/m9-ws-client.ts:240-388 | every event keeps each pending entry an issued request under its own id, reused ids included |
| PendingRequests.StepIsExactIff | e2e/lib/m9-ws-client.ts:240-388 | an event keeps the table exactly the unsettled requests if and only if it meets no id in use for another request |
| PendingRequests.ExactThroughoutIff | e2e/lib/m9-ws-client.ts:240-388 | the table is exact at every point of a run if and only if no event of the run meets such an id |
| PendingRequests.StepSettlesIff | e2e/lib/m9-ws-client.ts:240-388 | after an event a request is settled if and only if it was before, or the event is a response with its id, its timeout, the failure of its send, or a close |
| PendingRequests.SettledIff | e2e/lib/m9-ws-client.ts:240-388 | over a run with fresh ids a request is settled if and only if one of those came after it was issued |
| PendingRequests.RequestIssues | e2e/lib/m9-ws-client.ts:318-338 | a request gets the next number and is pending with a timer and a send, unless the client is closed |
| PendingRequests.ClosingSettlesAll | e2e/lib/m9-ws-client.ts:241-382 | a close of the socket, or of a client with a socket, settles every request and empties the table |
| PendingRequests.ClosedIff | e2e/lib/m9-ws-client.ts:241-388 | a client is closed if and only if an event of the run closed it |
| PendingRequests.TableIsExact | e2e/lib/m9-ws-client.ts:240-388 | with fresh ids the table is exact in every interleaving |
| PendingRequests.StepSettlesOnceIff | e2e/lib/m9-ws-client.ts:240-388 | an event settles a promise a second time if and only if it is a send failing after its request was settled |
| PendingRequests.SettledOnceIff | e2e/lib/m9-ws-client.ts:240-388 | in every run, reused ids included, each promise is settled at most once if and only if no send fails that late |
| PendingRequests.LateFailureSettlesTwice | e2e/lib/m9-ws-client.ts:325-336 | a timeout and then a failed send settle one promise twice |
| PendingRequests.SettledAtMostTwice | e2e/lib/m9-ws-client.ts:240-388 | no promise is settled more than twice |
| PendingRequests.ClosedForGood | e2e/lib/m9-ws-client.ts:318-320 | once closed, nothing is issued and nothing is pending, whatever follows |
| PendingRequests.ReusedIdIsLost | e2e/lib/m9-ws-client.ts:321-329 | a reused id orphans the older request |

## Left out

- Process spawning, builds, boots, browsers, ports and git: their outcomes are parameters.
- The kernel's scheduler: only the edge rule of `arc/main.py:397-406` is modelled, with the retry budget as an outside choice.
- Crash atomicity: a snapshot and its score or stamp are written in one step.
- `run_specs` when the tests cannot be enumerated (one whole-suite run), the restoring of a seeded file whose directory a test deleted, and a check called without a tag or with one that is no plain file name.
- SpecRunner.RunIsIsolated: assumes that tests change data files only; `SpecRunner.IsolatesIff` proves that nothing less will do.
- Children of a requirement that are not mappings, and ids that are not text.
- Python's recursion limit in the tree walks and the depth-first visit.
- `map_specs`, prompt templating and node names: they rest on regular expressions or on a validator that is not part of this model.
- Unicode digits in family names; only ASCII digits count.
- The reasoning cache of the chat proxy and message fields other than role, call ids and content.
- Column and row numbers beyond the exact integers of a floating-point number.
- Frame timestamps, the stream decoder and the page-close logic of the capture; a buffer limit that is not a number.
- Traceability.TestsKeepTheirOwner: covers the owner of a test row, not its other fields.
- Call edges, node states, interfaces and contracts of the traceability store, and events.
- The online part of the decision lock (`check_upstream`); `fnmatch` patterns and the record number in a path are parameters.
- Connection set-up, notifications and cursors of the WebSocket client.
