# The orchestration core of dev-team, modelled and proved

This project models the deterministic core of dev-team: the dispatch worker pool and the life of a job, the
backlog that the foreman works off, and the algorithms and guards they rest on. Each Dafny file is one module.

**The worker pool** (`Lifecycle`, `Pool`, `Stranding`, `Overtaking`, `Halting`, `AtomicPool`, `Drain`,
`Dispatcher`). `Lifecycle` is the state machine of one job record. `Pool` is the pool at the granularity of the
code's locks: registering a job and putting its id on the queue are two steps, so are popping an id and passing the
gate, and so are freeing a repository and re-enqueuing its parked head. At that granularity mutual exclusion,
at-most-one start and "no registered job is lost" hold of every interleaving, but a job can be stranded: `Stranding`
gives the run and shows that it exists exactly for pools of two workers or more, and `Overtaking` that a job can run
while an earlier one of its repository is queued, exactly when the queue takes two jobs. `Halting` shows where such
runs end: after at most fourteen steps a job submitted, with every job settled or parked in a stranded repository.
`AtomicPool` takes register-and-put, pop-and-gate and free-and-re-enqueue as one action each, shows that its runs
are runs of `Pool`, and proves that nothing is ever stranded and that same-repository jobs start in submit order;
`Drain` gives the measure by which every run without new submissions ends with the pool drained. `Dispatcher` is the
mutable object, each method tied to the steps.

**The backlog** (`Graph`, `Ordering`, `Decimal`, `Strings`, `Backlog`, `Validation`, `CycleChecks`, `Board`,
`Minting`, `Foreman`, `Delivery`, `Findings`, `Assessment`, `Merging`). The three cycle checks of the source are
proved against one notion, the largest set of nodes each of which depends on a member of it, which is empty exactly
when the graph has no cycle. Every way of changing the stored backlog (the board's requests, write-backs, purges and
assessment merges) keeps ids unique, edges known and non-self, and the graph acyclic. `Foreman` proves that a
well-formed backlog can always be worked off in dependency order, and what holds of stories and jobs over every
interleaving of foreman runs, cancels, executions, timeouts, write-backs, assessment merges and purges. `Delivery`
tells the same runs by their events: which repository a story is delivered to, and by which events it is done or
blocked. `Minting` says when the id of a deleted story is given out again, over histories of board edits and
assessment merges, and `Merging` what a merge does, told by epics, titles and the entries of the assessment.

**JSON extraction** (`Json`, `Extraction`). The grammar of RFC 8259, sections 2 to 7, as syntax trees that keep
every character, a printer and a parser that undo each other, and the bracket scanner, which at every position of
every text finds exactly the array or object of the grammar that stands there.

**Guards and exactly-once** (`AuthGuard`, `Budget`, `Purge`, `Channel`) and **text** (`GitStatus`, `Fences`,
`Paths`): the failed-authentication limiter as a refinement of full history, the spending ceiling under concurrency,
the purge claim, the question channel, and four text transformations with their inverses.

Threads are modelled as atomic steps, one per critical section or queue operation; a state machine's `Exec`,
`Perform` or `Steps` function runs any sequence of them, and the theorems quantify over all sequences. Times and
money are reals or integers; a job id is its submit sequence number.

## Where the code and its documentation differ

The model follows the code. Each point below is a lemma with the exact condition or a concrete run.

- A deleted story id "can never be reissued" (`dispatch.py`, `backlog.py`): some history of edits and merges reissues
  it, exactly when it is an id the program mints, `S` and a number from 1 on (`Minting.ComesBackExactlyWhen`). A given
  history does exactly when its number is the next one at an add, or among the next ones that a merge takes
  (`Minting.ComesBackDuring`), so not while a story with that number or a higher one is there at every add and merge
  (`Minting.StaysAwayWhileOutnumbered`); a late write-back then lands on the newcomer
  (`Minting.LateWriteBackHitsNewcomer`).
- The parked head "is re-enqueued when the repository frees" (`dispatch.py`): between releasing the lock and the
  re-enqueue an older job can park before it, and nothing wakes that job (`Stranding.StrandingNeedsTwoWorkers`);
  a run that ends otherwise has drained (`Halting.RunsEndDrainedOrStranded`).
- The "per-repo FIFO promise" (`dispatch.py`): registering and putting are two steps, so a later job can run while an
  earlier one is queued, exactly when the queue takes two jobs (`Overtaking.OvertakingNeedsRoomForTwo`).
- "The absolute limit is never exceeded" (`budget.py`): with a reserve held, at most k calls in flight and no call
  dearer than c, it is kept in every run exactly when the reserve is at least k times c or leaves nothing to spend
  (`Budgets.NeverExceededExactlyWhen`); `Budgets.OneCallOvershoots` is the smallest overshoot.
- A second purge "always" answers 404 (`dispatch.py`): exactly when the deletion took meta.json away and no archive
  request that had read it is still to write (`Purges.SecondPurgeIs404ExactlyWhen`);
  `Purges.OverlappingArchivePurgesTwice` is a run with two answers of 200.
- A purge of stories bred from a job (`dispatch.py`) leaves the board safe exactly when none of them has a live job
  (`Foremen.PurgeIsSafeExactlyWhen`); `Foremen.EarlyPurgeIsUnsafe` is a run that ends in an unsafe board.
- A reply answered with success reaches the ask (`dispatch.py`): exactly when the ask was still waiting when it was
  delivered (`Channels.AcknowledgedReplyArrivesExactlyWhen`; `Channels.AcknowledgedReplyCanBeLost` is a run that loses
  it), which a reply that had to wait for room never meets unless it repeats the one before it
  (`Channels.DelayedReplyArrivesExactlyWhen`). A put into a full slot can hold the channel's lock for ever
  (`Channels.ThreeRepliesCanJam`, `Channels.BlockedPutGetsThroughExactlyWhen`).
- Defusing leaves "no literal closing tag" (`fences.py`): for one tag, exactly when its closing tag overlaps neither
  itself nor its replacement (`Fences.SurvivesExactlyWhen`), which for a tag without zero-width spaces means that no
  proper end of it is also its beginning (`Fences.OrdinaryTagOverlapsExactlyWhen`), as in
  `Fences.OverlappingTagSurvives` and in no tag without `<` (`Fences.PlainTagNeverSurvives`).
- Renames "report the new path" (`git.py`): the parser looks for the old path after the first status letter only
  (`GitStatus.TakesRecordsExactlyWhen`, `GitStatus.ReadsBackExactlyWhen`, `GitStatus.StrayPassesForNext`).
- A story's finding id resolves to its finding (`assessment.py`): exactly when the entry carries claim text
  (`Assessment.FindingIdsResolve`); a dependency without a name does not (`Assessment.NamelessEntryDoesNotResolve`).

## Model

| member | source | states |
|---|---|---|
| Lifecycle.NextStaysConsistent | src/dev_team/dispatch.py:1082-1121 | a transition follows the documented moves, keeps start, end and cost in step with the state, and leaves a terminal record alone but for what is still owed |
| Lifecycle.EveryHistory | src/dev_team/dispatch.py:1082-1121 | over every history of racing executions, timeouts and cancels: terminal states absorb, a set event implies a terminal state, at most one write-back, and exactly one once the event is set |
| Lifecycle.OneEndingWins | src/dev_team/dispatch.py:1388-1417 | exactly one of finish, timeout and cancel takes effect; a cancelled job has no start time and no cost |
| Lifecycle.HistoryTells | src/dev_team/dispatch.py:775-795 | over every history of a fresh job: done is owed or written back if and only if the history has a delivered finish, to do if and only if it has a cancel, blocked after any other ending; the state is failed exactly for a raise or a timeout; times and cost are those of the events |
| Pool.InsertFacts | src/dev_team/dispatch.py:719-726 | parking keeps the bucket in submit order and adds exactly the parked id |
| Pool.StepKeeps | src/dev_team/dispatch.py:704-773 | every lock-level step of submitters, workers, cancellers keeps the pool invariant |
| Pool.EveryRun | src/dev_team/dispatch.py:704-773 | so does every run |
| Pool.SafeUnderEveryInterleaving | src/dev_team/dispatch.py:624-636 | for any number of workers: the active repositories are those of the jobs past the gate, never two of one repository, no job is started twice, no registered job lost |
| Stranding.StrandedForever | src/dev_team/dispatch.py:760-773 | once an idle repository has parked jobs and no wake-up, none of its jobs starts in any continuation |
| Stranding.SingleRun | src/dev_team/dispatch.py:603-609 | with one worker no run reaches that |
| Stranding.Trap | src/dev_team/dispatch.py:710-726 | with two or more workers some run does |
| Stranding.StrandingNeedsTwoWorkers | src/dev_team/dispatch.py:704-773 | stranding is possible if and only if the pool has two workers or more and its queue takes jobs |
| Overtaking.OvertakingNeedsRoomForTwo | src/dev_team/dispatch.py:958-979 | at lock granularity a job can run while an earlier job of its repository is queued if and only if the queue takes two jobs |
| Halting.RunsEndDrainedOrStranded | src/dev_team/dispatch.py:704-773 | over every run of lock-level steps of any pool: at most fourteen steps a job submitted; a run that the workers cannot continue has every job settled or parked in a stranded repository, so it has drained if and only if no repository is stranded, and with one worker always |
| AtomicPool.ActionIsRun | src/dev_team/dispatch.py:704-733 | an atomic submit, pop-and-gate, transition or release is a run of lock-level steps |
| AtomicPool.ActionsAreRuns | src/dev_team/dispatch.py:704-733 | every run of actions is a run of the pool |
| AtomicPool.ExactlyOnePlace | src/dev_team/dispatch.py:704-773 | every unstarted job is queued or parked once; buckets are sorted and of one repository; an idle repository with parked jobs has exactly one wake-up, for its head; nothing is stranded |
| AtomicPool.StartsInSubmitOrder | src/dev_team/dispatch.py:624-636 | jobs of one repository start in submit order over every run |
| Drain.RunsAreFinite | src/dev_team/dispatch.py:709-741 | without submissions every action lowers the measure |
| Drain.PoolDrains | src/dev_team/dispatch.py:709-773 | from any reachable state runs without submissions take at most nine actions a job, and one that the workers cannot continue, whatever could still be cancelled, has empty queue and buckets, every job terminal and its event set |
| Dispatching.Dispatcher.Submit | src/dev_team/dispatch.py:958-979 | rejected exactly when the queued jobs reach the cap, else the atomic submit with the position reported |
| Dispatching.Dispatcher.Gate | src/dev_team/dispatch.py:710-733 | starts exactly when the repository is idle and the job heads its line; the new state is the gate step's |
| Dispatching.Dispatcher.ReleaseRepo | src/dev_team/dispatch.py:760-773 | is the release action: the head is re-enqueued and stays parked |
| Dispatching.Dispatcher.Begin | src/dev_team/dispatch.py:1085-1096 | runs exactly the jobs still queued; a cancelled one is left untouched |
| Dispatching.Dispatcher.Settle | src/dev_team/dispatch.py:1097-1121 | is the terminal flip: failed for a raise, else done, owing its story done for a delivery and blocked otherwise |
| Dispatching.Dispatcher.FailTimedOut | src/dev_team/dispatch.py:775-795 | a running job is failed, owes its story blocked, and carries the cost and the end time; no other record is touched |
| Dispatching.Dispatcher.CancelJob | src/dev_team/dispatch.py:1388-1417 | 404, 409 or 200, the last exactly when the transition can be taken |
| Dispatching.Dispatcher.RunUntilIdle | src/dev_team/dispatch.py:624-743 | a pool of one starts every queued job in queue order and each has exactly the state, times and cost of the ending its run came to; cancelled jobs pass through untouched |
| Graph.ResidualIsLargest | src/dev_team/ordering.py:61-82 | what the checks leave is the largest set whose members all depend on a member |
| Graph.ResidualEmptyIffAcyclic | src/dev_team/backlog.py:220-239 | it is empty exactly when no path along dependencies returns to its start |
| Graph.LeavesResidual | src/dev_team/backlog.py:228-239 | any procedure that resolves nodes after their dependencies until none is left leaves exactly that set |
| Graph.DependencyRanksLower | src/dev_team/ordering.py:110-118 | a dependency of a resolved node is resolved in an earlier layer |
| Graph.LayersReachAll | src/dev_team/ordering.py:110-118 | as many layers as nodes resolve everything outside that set |
| Ordering.TasksInCycle | src/dev_team/ordering.py:61-82 | the peel returns exactly the residual ids, in input order |
| Ordering.TopologicalOrder | src/dev_team/ordering.py:85-120 | for any input: an error exactly when the peel finds ids and with those ids, else the input in layer order with ties in input order |
| Ordering.RearrangedIsPermutation | src/dev_team/ordering.py:114-120 | the sorted list is a permutation of the input |
| Ordering.DependenciesComeFirst | src/dev_team/ordering.py:85-90 | with unique ids every known non-self dependency precedes its dependent |
| Ordering.TiesKeepInputOrder | src/dev_team/ordering.py:106-118 | with unique ids two tasks with the same known non-self dependencies keep the order of the input |
| Ordering.LastListCounts | src/dev_team/ordering.py:96-104 | of tasks sharing an id the last list counts, and of it the known ids other than the own |
| Ordering.LintPlan | src/dev_team/ordering.py:24-58 | the list is the issues in the order and number the checks find them |
| Ordering.LintReportsExactly | src/dev_team/ordering.py:24-58 | an issue is in the list if and only if the plan has that defect |
| Ordering.LintCleanOrders | src/dev_team/ordering.py:49-58 | a plan without issues has unique ids, known edges and no cycle, so it always orders |
| CycleChecks.ChecksAgree | src/dev_team/backlog.py:196-239 | on unique names and known non-self edges the sort, the peel and the worklist see one graph, leave the same nodes, and find nothing exactly when it is acyclic |
| Decimal.ValueOfDec | src/dev_team/backlog.py:188-193 | a printed number is a numeral and parses back |
| Decimal.NumeralsExactly | src/dev_team/backlog.py:188-193 | the numerals of a value are its digits with any number of noughts before them, and no other texts |
| Backlogs.MintId | src/dev_team/backlog.py:178-193 | one past the highest number in use, and never an id that is present |
| Backlogs.NumberedExactly | src/dev_team/backlog.py:188-193 | an id carries a number if and only if it is the prefix, noughts and that number |
| Backlogs.HighestIsReached | src/dev_team/backlog.py:188-192 | the highest number is zero or carried by some id |
| Validation.CheckEdges | src/dev_team/backlog.py:211-219 | accepts exactly known, non-self edges, else names the first bad one in order |
| Validation.BuildDependents | src/dev_team/backlog.py:223-226 | each dependent is entered once for each of its edges, repetitions included |
| Validation.Kahn | src/dev_team/backlog.py:222-235 | for any stories with known non-self edges, ids repeated or not: the in-degrees left positive are exactly the stories no order can place, and the count is that of the rest |
| Validation.ValidateDependencies | src/dev_team/backlog.py:196-239 | for any stories: accepts if and only if the edges are known and non-self and every story can be placed; a cycle error carries exactly those that cannot |
| Validation.UniqueIsAcyclic | src/dev_team/backlog.py:220-239 | with unique ids the stories that cannot be placed are the residual set, and all can be placed exactly when the graph is acyclic |
| Boards.FewerEdges | src/dev_team/dispatch.py:1583-1586 | dropping nodes and edges closes no cycle |
| Boards.OneMoreNode | src/dev_team/backlog.py:120-131 | a new node that nothing depends on closes no cycle |
| Boards.EditKeepsGraph | src/dev_team/dispatch.py:2334-2370 | every board request, write-back and purge keeps ids unique, edges known and non-self, and the graph acyclic |
| Boards.EveryEditHistory | src/dev_team/dispatch.py:2334-2370 | so does every sequence of them |
| Boards.Store.AddStoryCard | src/dev_team/dispatch.py:2417-2445 | 400 exactly for a card with a field of the wrong type, a blank title, a low estimate or an unknown status, and then nothing changes; else one fresh story at the end |
| Boards.Store.EditStory | src/dev_team/dispatch.py:2391-2415 | 400 for a field that does not fit, else 404 or 200; changes exactly the fields named and the stamp |
| Boards.Store.SetStoryStatus | src/dev_team/dispatch.py:2372-2384 | 400, 404 or 200; changes only that story's status and stamp |
| Boards.NamedByItsWord | src/dev_team/backlog.py:19-26 | each status is named by its own word and by no other text |
| Boards.Store.SetStoryDeps | src/dev_team/dispatch.py:2470-2492 | 200 if and only if every story of the edited backlog can be placed, which with unique ids means known non-self edges and no cycle; then that story has exactly the new list and the stamp; anything else leaves the file as it was |
| Boards.Store.DeleteStory | src/dev_team/dispatch.py:2447-2468 | 404 for an unknown id, else the first story of that id is gone, and the others keep their order and all but their edges to it |
| Boards.DeleteIsExact | src/dev_team/dispatch.py:2456-2466 | a delete removes that story and no other, and from the others exactly the edges to it |
| Boards.PurgeIsExact | src/dev_team/dispatch.py:1577-1587 | a purge removes exactly the ids of the stories whose source job is the one purged, and from the others exactly the edges to them |
| Boards.PurgeTakesBredOnly | src/dev_team/dispatch.py:1577-1588 | with unique ids a story stays if and only if its own source job is another, and loses exactly its edges to stories of that job |
| Boards.BredAreCounted | src/dev_team/dispatch.py:1577-1588 | the number answered is the number of stories of that source job |
| Boards.SurvivorsInOrder | src/dev_team/dispatch.py:1577-1588 | the stories that stay keep their order |
| Boards.EdgesInOrder | src/dev_team/dispatch.py:1583-1586 | so do the edges that stay, repetitions included |
| Boards.Store.PurgeStories | src/dev_team/dispatch.py:1566-1588 | the purge's effect, and the number of stories whose source job is the one purged |
| Boards.Store.WriteBackStory | src/dev_team/dispatch.py:2229-2257 | sets the verdict, sheds the job edge on a return to TODO, tolerates a deleted story |
| Minting.EditMintsExactlyWhen | src/dev_team/dispatch.py:2417-2445 | of all edits only an add brings an absent id onto the board, and only the next number |
| Minting.MergeNumbers | src/dev_team/assessment.py:1341-1362 | a merge gives the stories it adds the next numbers, one each, and no others |
| Minting.ComesBackDuring | src/dev_team/dispatch.py:2450-2454 | in any history of board edits and merges an absent id appears if and only if it is the next number at some add, or among as many next numbers at some merge as the merge adds stories |
| Minting.StaysAwayWhileOutnumbered | src/dev_team/dispatch.py:2450-2454 | it stays away while at each add and each merge a story with its number or a higher one is present |
| Minting.ComesBackExactlyWhen | src/dev_team/dispatch.py:2450-2454 | some history of edits and merges brings an absent id back if and only if it is `S` and a number from 1 on |
| Minting.AddsReissueExactlyWhen | src/dev_team/backlog.py:178-193 | adds alone bring it back if and only if its number is above all that remain and there are enough of them |
| Minting.NextStoryInheritsExactlyWhen | src/dev_team/backlog.py:178-186 | deleting a story hands its id to the next one if and only if its number is one past the highest of the others |
| Minting.LateWriteBackHitsNewcomer | src/dev_team/dispatch.py:2246-2255 | then the verdict of the deleted story's job lands on the newcomer |
| Foremen.ReadyMembers | src/dev_team/foreman.py:42-58 | the selection holds exactly the TODO stories whose every dependency is done or declined |
| Deliveries.ReadyExactly | src/dev_team/foreman.py:42-58 | the selection holds a story if and only if it is to do and each of its dependencies is a story done or declined |
| Deliveries.ReadyInOrder | src/dev_team/foreman.py:42-58 | in the order of the board, each place once |
| Foremen.NothingReadyIffFinished | src/dev_team/foreman.py:42-58 | with a valid graph and nothing in progress or blocked, nothing is ready exactly when everything is done or declined |
| Foremen.CampaignEnds | src/dev_team/foreman.py:42-58 | running ready stories to completion one after the other ends after as many as were TODO, and only with everything done or declined |
| Foremen.CampaignOrder | src/dev_team/foreman.py:42-58 | each dependency of a story was finished at the start or completed before it |
| Foremen.RunReport | src/dev_team/dispatch.py:2145-2195 | a run looks at the ready stories in order until it has met as many deliverable ones as it may enqueue; each story it looked at is, exactly once, enqueued as a fresh job or reported with its reason, in order (`Deliveries.RunTells` says for which repository and for which reason); the queue is reported full exactly when it turned one away |
| Foremen.Service.ForemanRun | src/dev_team/dispatch.py:2100-2227 | 400 exactly for a bad budget, count or fallback and then nothing changes; else the run's effect on stories and jobs, as `Foremen.RunReport` and `Deliveries.RunTells` tell it |
| Deliveries.RunTells | src/dev_team/dispatch.py:2145-2195 | every job a run adds is a fresh one for a story it looked at, of the repository recorded for the story's source job, whatever the fallback, and of the fallback when none is recorded; a story is reported without a repository if and only if it has a title and neither exists, without a title if and only if it is blank |
| Deliveries.RunMarks | src/dev_team/dispatch.py:2145-2195 | with unique ids the stories a run enqueues, and no others, become in progress, name their job and carry the stamp |
| Foremen.StepKeeps | src/dev_team/dispatch.py:2100-2257 | every run, transition, write-back and merge keeps the invariant of board and jobs, a purge exactly when no job has still to settle one of its stories; finished, declined and blocked stories are left alone but for those a purge takes away |
| Foremen.EveryRun | src/dev_team/dispatch.py:2100-2257 | over every interleaving the invariant holds throughout if and only if each purge comes at such a time |
| Foremen.PurgeKeepsExactlyWhen | src/dev_team/dispatch.py:1566-1588 | a purge keeps the invariant if and only if no job has still to settle one of the stories it takes away |
| Foremen.PurgeIsSafeExactlyWhen | src/dev_team/dispatch.py:1566-1588 | a purge leaves the board safe if and only if none of the stories it takes away has a live job |
| Foremen.EarlyPurgeIsUnsafe | src/dev_team/dispatch.py:1566-1588 | some run from a board with unique ids ends unsafe: a story is enqueued and then purged before its job has begun |
| Foremen.BoardIsSafe | src/dev_team/dispatch.py:2100-2257 | over every interleaving of runs, job transitions, merges and timely purges: each live tagged job's story is in progress and names it; no story has two live jobs or waits while it has one; one attempt a story, and only after its dependencies are finished; done, declined and blocked stories are never changed or enqueued again until purged |
| Deliveries.RunTellsJobs | src/dev_team/dispatch.py:1082-1121 | in every run of the service each record's state, debt, times and cost are what its own events say |
| Deliveries.DoneByDeliveryOnly | src/dev_team/dispatch.py:2229-2257 | over every interleaving from any board: a story becomes done only by the write-back of a job of its own with a delivered finish, and blocked only by one that began and came to another ending |
| Deliveries.WriteBackTellsOutcome | src/dev_team/dispatch.py:2229-2257 | a write-back makes its story done after a delivery, to do after a cancel, blocked after any other ending |
| Json.LoadsBack | src/dev_team/json_utils.py:82-84 | loading a printed value, whitespace around it, gives that value |
| Json.LoadsExactly | src/dev_team/json_utils.py:82-84 | a text loads as a value if and only if it is that value printed, with whitespace around it |
| Json.NumbersByGrammar | src/dev_team/json_utils.py:82-84 | the numbers are those of section 6 of RFC 8259: an optional minus, an integer without a leading nought, an optional fraction, an optional exponent |
| Json.AtomsByGrammar | src/dev_team/json_utils.py:82-84 | the bare words are those numbers, true, false and null, and the three names that the decoder accepts beyond them |
| Json.PiecesByGrammar | src/dev_team/json_utils.py:82-84 | the pieces of a string are those of section 7 of RFC 8259: an unescaped character, a two-character escape, or four hex digits |
| Extraction.FindBalanced | src/dev_team/json_utils.py:23-53 | the end is where the depth first returns to zero; -1 when it never does |
| Extraction.ValueLeads | src/dev_team/json_utils.py:36-52 | scanning over any JSON value from any depth returns to that depth and never falls below it |
| Extraction.ContainerEnds | src/dev_team/json_utils.py:23-53 | for every array or object standing in a text the scan ends exactly at its end |
| Extraction.ScannerAgrees | src/dev_team/json_utils.py:77-87 | at every position of every text a balanced stretch exists and loads if and only if an array or object of the grammar stands there, and it is that one |
| Extraction.LeftmostMeetsAll | src/dev_team/json_utils.py:75-93 | the containers met stand in the text one after another, each the first past the one before, and every container of the grammar in the text lies in one of them |
| Extraction.BestAnswers | src/dev_team/json_utils.py:82-93 | of any containers the choice is an object if and only if there is one, and then the last; an array if and only if there is no object but an array, and then the first; nothing if and only if there is none |
| Extraction.ExtractJson | src/dev_team/json_utils.py:56-95 | among the containers met from left to right: the last object, if there is one; else the first array; a failure if and only if none was met |
| Extraction.ExtractsFromProse | src/dev_team/json_utils.py:56-69 | of opener-free prose with printed documents in it exactly those documents are met, so the answer is their last object, else their first array |
| AuthGuard.FailedAuthTracker.IsLockedOut | src/dev_team/authguard.py:113-135 | answers as if from all failures of the source filtered to the window |
| AuthGuard.LockedOutExactlyWhen | src/dev_team/authguard.py:113-135 | a source is locked out if and only if as many failures as the threshold lie in the window and the last of them is younger than the lockout; the answer is what is left of it |
| AuthGuard.DropKeyCuts | src/dev_team/authguard.py:137-146 | dropping a source takes its place out of the order and leaves the rest |
| AuthGuard.FailedAuthTracker.RecordFailure | src/dev_team/authguard.py:92-111 | appends to the source's history, evicts the first inserted source when a new one exceeds the cap, raises exactly with a cap below one |
| AuthGuard.FailedAuthTracker.RecordSuccess | src/dev_team/authguard.py:137-146 | clears that source's history and no other |
| AuthGuard.FailedAuthTracker.RequireAuth | src/dev_team/dispatch.py:2942-2972 | 429 exactly when locked out, with the seconds rounded up; else the failure is recorded or the history cleared |
| AuthGuard.PrunedShowsRecent | src/dev_team/authguard.py:87-90 | a pruned deque holds exactly the failures in the window |
| AuthGuard.UnauthorizedExtends | src/dev_team/dispatch.py:2956-2972 | each unauthorized answer extends a guarded history |
| AuthGuard.FailuresPerWindow | src/dev_team/authguard.py:92-135 | any stretch of window length holds at most threshold + floor(window / lockout) failures |
| AuthGuard.TriesPerWindow | src/dev_team/dispatch.py:2942-2972 | over every run of requests of one source, right and wrong credentials mixed: a stretch no longer than the window in which it does not get in lets at most threshold + floor(window / lockout) wrong ones through |
| Budgets.OnlyAdmissionsExpose | src/dev_team/budget.py:151-174 | spend plus the cost in flight is raised by admissions only |
| Budgets.OvershootIsInFlight | src/dev_team/instrument.py:50-84 | over every interleaving spend never passes the ceiling at the last admission by more than the cost of the calls then in flight |
| Budgets.ReserveIsLeft | src/dev_team/budget.py:139-149 | a reserve held through a phase leaves that much of the limit, less the cost in flight at its last admission |
| Budgets.FlightStaysWithinExactlyWhen | src/dev_team/budget.py:86-92 | however the calls in flight end, spend stays within the limit if and only if spend and cost in flight do |
| Budgets.NeverExceededExactlyWhen | src/dev_team/budget.py:94-99 | between calls, with at most k calls in flight at no more than c each, no run exceeds the limit if and only if the reserve is at least k times c or nothing more will be admitted |
| Budgets.NewBudgetNeverExceededExactlyWhen | src/dev_team/budget.py:94-99 | for a fresh budget: if and only if the reserve is at least k times c or the whole limit |
| Budgets.OneCallOvershoots | src/dev_team/budget.py:94-99 | a first call dearer than the limit overshoots it |
| Budgets.Budget.Check | src/dev_team/budget.py:151-160 | refuses exactly when spend has reached the effective ceiling |
| Budgets.Budget.Record | src/dev_team/budget.py:162-174 | records first, then raises exactly when spend is over the ceiling |
| Budgets.Budget.HoldBack | src/dev_team/budget.py:139-149 | holds back the amount, clamped between nought and the limit |
| Budgets.Budget.CostByRole | src/dev_team/budget.py:72-78 | the recorded cost of exactly the roles that occur |
| Budgets.RolesAddUp | src/dev_team/budget.py:72-78 | the costs of the roles add up to the whole cost |
| Purges.PurgesAreCounted | src/dev_team/dispatch.py:1664-1688 | over every interleaving the purges that pass the claim number at most one plus the times the id was brought back |
| Purges.PurgedAtMostOnce | src/dev_team/dispatch.py:1664-1688 | with or without a registry entry, at most one passes when deletions remove meta.json and no archive write overlaps one |
| Purges.SecondPurgeIs404ExactlyWhen | src/dev_team/dispatch.py:1624-1662 | after a purge every later call answers 404 in every continuation if and only if meta.json is gone and no archive write is under way, and exactly otherwise another purge can pass the claim |
| Purges.OverlappingArchivePurgesTwice | src/dev_team/dispatch.py:1538-1551 | an overlapping archive write lets two purges answer 200 |
| Purges.Purger.ClaimJob | src/dev_team/dispatch.py:1664-1682 | the locked block is the claim step of that id and touches no other |
| Purges.RemoveFirstCuts | src/dev_team/dispatch.py:1664-1682 | the id leaves the order at its first place and the rest stays |
| Purges.Purger.FinishPurge | src/dev_team/dispatch.py:1684-1710 | the deletion, which may be refused, and the release are the steps that follow it |
| Channels.Find | src/dev_team/interaction.py:102-109 | the first choice that the stripped, lowered key names, if any |
| Channels.KeyNames | src/dev_team/interaction.py:102-109 | a key with blanks around it, its letters in either case, resolves if and only if it is one of the choices written in lower case |
| Channels.AnswersFitTheirQuestion | src/dev_team/dispatch.py:378-413 | over every interleaving each ask returns its own default or a reply that resolves in its own question |
| Channels.OvertakenTimesOut | src/dev_team/dispatch.py:380-391 | once a later ask is posted, an ask still waiting without a reply can only get its default |
| Channels.BlockedPutGetsThroughExactlyWhen | src/dev_team/dispatch.py:405-413 | a put waiting on a full slot gets through if and only if its ask is still waiting or the slot has been emptied |
| Channels.ThreeRepliesCanJam | src/dev_team/dispatch.py:405-413 | three replies to one question can hold the lock for ever |
| Channels.AcknowledgedReplyArrivesExactlyWhen | src/dev_team/dispatch.py:384-413 | an acknowledged reply is what its ask returns in every continuation if and only if the ask was still waiting at delivery, or held that very reply |
| Channels.DelayedReplyArrivesExactlyWhen | src/dev_team/dispatch.py:393-413 | in every run a reply that waited for room arrives if and only if it repeats the reply its ask has taken already |
| Channels.AcknowledgedReplyCanBeLost | src/dev_team/dispatch.py:384-391 | a run in which an acknowledged reply is delivered after the timeout and dropped |
| Channels.TrackedChannel.Post | src/dev_team/dispatch.py:378-383 | makes the question the pending one with an empty slot of its own |
| Channels.TrackedChannel.Await | src/dev_team/dispatch.py:384-387 | the slot's reply, or the default of the question when there is none |
| Channels.TrackedChannel.Finish | src/dev_team/dispatch.py:388-391 | clears the channel, whichever ask is pending |
| Channels.TrackedChannel.PutThrough | src/dev_team/dispatch.py:405-413 | the waiting put fills the emptied slot and lets go of the lock |
| Channels.TrackedChannel.SubmitReply | src/dev_team/dispatch.py:393-413 | None without a question, false for an unknown choice, else delivered to the pending ask's slot, or waiting with the lock held when the slot is full |
| GitStatus.ChangedFiles | src/dev_team/git.py:328-339 | the loop computes the record-wise reading of the output |
| GitStatus.TakenGivesPaths | src/dev_team/git.py:328-339 | the paths returned are those of the fields taken for records, in order |
| GitStatus.ReadsBack | src/dev_team/git.py:325-339 | the new paths come back in order from every encoding in which an old path follows exactly the R and C records |
| GitStatus.ReadsOneExactlyWhen | src/dev_team/git.py:325-339 | an entry is read back if and only if it has no old path or its first letter is R or C |
| GitStatus.ReadsBackExactlyWhen | src/dev_team/git.py:325-339 | a list whose unannounced old paths do not begin with R or C is read back if and only if it has no unannounced old path |
| GitStatus.TakesRecordsExactlyWhen | src/dev_team/git.py:325-339 | for every list in which R and C records carry an old path the fields taken for records are exactly the status records if and only if no old path is unannounced |
| GitStatus.StrayPassesForNext | src/dev_team/git.py:325-339 | an unannounced old path that begins so takes the next record with it and can pass for that record's path |
| Fences.Defuse | src/dev_team/fences.py:23-29 | the loop is the replacement of each tag in turn |
| Fences.DefusedInTurn | src/dev_team/fences.py:23-29 | the tags are taken one after another, and at each the text is cut at its closing tags, from left to right and none left, and joined again with a zero-width space after their first character |
| Fences.NoClosingTagLeft | src/dev_team/fences.py:10-14 | of tags that touch neither themselves nor earlier ones no closing tag is left |
| Fences.DefuseIdempotent | src/dev_team/fences.py:12-14 | for such tags defusing twice is defusing once |
| Fences.DefuseIsInvisible | src/dev_team/fences.py:10-12 | for any tags the text without zero-width spaces is unchanged |
| Fences.PlainTagsApart | src/dev_team/fences.py:10-14 | tags without `<` never touch |
| Fences.SurvivesExactlyWhen | src/dev_team/fences.py:10-14 | for any one tag some text keeps its closing tag if and only if the closing tag overlaps itself or its replacement |
| Fences.OrdinaryTagOverlapsExactlyWhen | src/dev_team/fences.py:10-14 | without zero-width spaces that is: a proper end of the closing tag is also its beginning |
| Fences.PlainTagNeverSurvives | src/dev_team/fences.py:10-14 | no closing tag of a tag without `<` is left |
| Fences.IdempotentExactlyWhenNoneLeft | src/dev_team/fences.py:10-14 | for any list of tags defusing is idempotent if and only if it leaves no closing tag of theirs in any text |
| Fences.IdempotentExactlyWhen | src/dev_team/fences.py:12-14 | for any one tag defusing is idempotent if and only if it does not overlap |
| Fences.OverlappingTagSurvives | src/dev_team/fences.py:12-14 | a tag that overlaps itself survives its own defusing |
| Paths.Normalise | src/dev_team/execution.py:62-79 | the loop rejects absolute, escaping and empty paths and joins the kept segments |
| Paths.AcceptedSegments | src/dev_team/execution.py:62-79 | an accepted path has only proper segments: none empty, dot or dot-dot |
| Paths.SegmentsJoinBack | src/dev_team/execution.py:62-79 | the segments have no separator in them and joined with separators give the path back |
| Paths.KeptInOrder | src/dev_team/execution.py:62-79 | the segments kept are those neither empty nor a dot, in order |
| Paths.TurnedAwayExactlyWhen | src/dev_team/execution.py:62-79 | a path is turned away if and only if it is absolute, has a dot-dot segment or keeps no segment |
| Paths.NormaliseIdempotent | src/dev_team/execution.py:62-79 | normalising an accepted path again changes nothing |
| Paths.CiCheckAgrees | src/dev_team/changes.py:27-39 | for every accepted path the check answers whether the normalised path lies in .github/workflows |
| Paths.InMemoryWorkspace.DeleteDir | src/dev_team/execution.py:105-111 | removes exactly the files whose segments begin with the directory's |
| Paths.InMemoryWorkspace.WriteText | src/dev_team/execution.py:96-97 | writes under the normalised path and keeps every key normalised |
| Paths.InMemoryWorkspace.ReadText | src/dev_team/execution.py:90-94 | the content under the normalised path, nothing for a bad or unknown one |
| Findings.ListFindings | src/dev_team/assessment.py:1511-1557 | the nested loops enumerate the claims of lists and components in order |
| Findings.ListedExactly | src/dev_team/assessment.py:1511-1557 | the findings are exactly those of the entries of the ten lists and of the components' lists that are dictionaries, each once, list by list and in order, with the position counted over the dictionaries |
| Findings.ClaimOfIs | src/dev_team/assessment.py:1451-1468 | the claim of an entry is its first field among claim, step, name and convention that holds something |
| Findings.DictsInOrder | src/dev_team/assessment.py:2048-2054 | the entries of a list are its dictionaries in order |
| Findings.IdInjective | src/dev_team/assessment.py:1534-1549 | no two positions print the same id |
| Findings.IdsDistinct | src/dev_team/assessment.py:1511-1557 | the ids of all findings of any assessment are pairwise distinct |
| Findings.FindFinding | src/dev_team/assessment.py:1560-1579 | the finding with that id if there is one, else the first whose claim contains the text in either case, and nothing if and only if there is none; a blank query finds nothing |
| Findings.ResolvedFinds | src/dev_team/assessment.py:1560-1579 | what resolves a text in a list of findings is the first with that id, else the first whose claim contains it |
| Findings.IdResolvesExactlyWhen | src/dev_team/assessment.py:1560-1579 | a list entry's id resolves to that entry if and only if the entry carries claim text |
| Strings.StripTakesOff | src/dev_team/assessment.py:1370 | stripping takes off blanks at both ends and no more |
| Strings.LowerForgetsCase | src/dev_team/assessment.py:1572-1579 | two texts are one in lower case if and only if they differ in the case of letters alone |
| Strings.ContainsWhereAt | src/dev_team/assessment.py:1572-1579 | a text contains another if and only if it stands at some place of it |
| Assessment.Merger.Add | src/dev_team/assessment.py:1341-1362 | a title already in the epic adds nothing, else one story under a fresh id |
| Assessment.Merger.DictToBacklog | src/dev_team/assessment.py:1284-1427 | the loops compute the merge of the assessment's proposals, as `Merging.MergeFiles` and `Merging.FindingsAreFiled` tell it |
| Merging.TargetIsEpic | src/dev_team/assessment.py:1315-1332 | the stories are filed under the first epic titled after the repository, which is appended under a fresh id if and only if there is none |
| Merging.MergeAdds | src/dev_team/assessment.py:1336-1362 | a merge appends one story for each proposal whose cut title no story of the target epic and no earlier proposal has, in order and with the proposal's fields, whatever other epics hold |
| Merging.MergeFiles | src/dev_team/assessment.py:1284-1427 | after a merge every proposal's cut title is filed under the target epic, and the old stories are as they were |
| Merging.ProposedAsCalledFor | src/dev_team/assessment.py:1364-1415 | which plan steps, blockers, dependencies and secrets become proposals, and their title, description, estimate and finding id |
| Merging.FindingsAreFiled | src/dev_team/assessment.py:1364-1415 | each entry that calls for a story has one of its title under the target epic after the merge |
| Merging.EffortTells | src/dev_team/assessment.py:1236-1247 | 13 points for months, 8 for weeks, 3 for days, else 2, the longest unit named deciding |
| Merging.CutKeeps | src/dev_team/assessment.py:1344 | a title is cut to its first two hundred characters |
| Assessment.MergeKeepsGraph | src/dev_team/assessment.py:1364-1381 | a merge keeps ids unique, edges known and non-self, and the graph acyclic |
| Assessment.EveryChangeKeepsGraph | src/dev_team/dispatch.py:2325-2332 | so does every sequence of board requests, write-backs, purges and merges |
| Assessment.MergeIdempotent | src/dev_team/assessment.py:1329-1362 | merging the same assessment again adds nothing and changes nothing |
| Assessment.PlanStoriesFormOneChain | src/dev_team/assessment.py:1364-1381 | the plan stories a merge adds come first and form one dependency chain; the stories after them have no dependencies |
| Assessment.PlanStoriesAreNewTitles | src/dev_team/assessment.py:1341-1362 | the plan stories are exactly the plan's titles that neither the epic nor an earlier step has, in order |
| Assessment.FindingIdsResolve | src/dev_team/assessment.py:1304-1312 | each story with a finding id has the title, description and estimate of one entry and the id of that entry's position, which resolves to it if and only if the entry carries claim text, as it does when the title came from a string |
| Assessment.NamelessEntryDoesNotResolve | src/dev_team/assessment.py:1304-1312 | a dependency to be replaced but not named becomes a story whose finding id does not resolve to it |

## Left out

- HTTP, routing, cookies, OAuth, the web UI and the command line: transport; only the guard sequence around a request is kept.
- Threads, asyncio and locks: replaced by atomic steps, one per critical section or queue operation. A job's timeout is taken to fire only while the job runs, and the pool is modelled without `stop()` and the shutdown sentinel.
- What a job does: its run is any success, failure, timeout and cost.
- Disk failures, and the foreman's compensation when its save fails; a dispatcher without a dashboard workspace, which answers 409 to every backlog request.
- Validation.ValidateDependencies: gives the ids of a cycle error as a set where the source sorts them.
- Foremen.BoardIsSafe: excludes hand edits of the board while foreman jobs are live, because they can put a story anywhere (`Minting.LateWriteBackHitsNewcomer` shows what they can do), and of purges it asks that no job has still to settle one of their stories; what an untimely purge does to the board at once is in `Foremen.PurgeIsSafeExactlyWhen`.
- The entry of a purged job in the registry: `Foreman` has the half of a purge that changes the board, `Purge` the half that forgets the job, and the workspace clone, transcripts and event lines are not part of the model.
- GitStatus.ReadsBackExactlyWhen: asks that no unannounced old path begins with R or C, because such a one can give the right paths by coincidence (`GitStatus.StrayPassesForNext`); which fields are read is exact for all lists in `GitStatus.TakesRecordsExactlyWhen`.
- Fences.NoClosingTagLeft: gives for several tags a condition that suffices; the exact one is given for a single tag, because of several one can undo or hide what another leaves.
- A purge that takes the completion event of a job whose thread has not yet set it.
- Foremen.Service.ForemanRun: takes the whole run under the backlog lock as one step, with the number of submits the queue accepts as a parameter, and does not parse the fallback repository.
- Dispatching.Dispatcher.RunUntilIdle: is the loop of a pool of one between submissions, because the interleavings of several workers are the subject of the step systems.
- Pool.InsertFacts: parking inserts where the source appends and sorts by submit order, which on a sorted bucket gives the same list.
- Json.LoadsExactly: the tree stands for the loaded value (of repeated keys Python keeps the last), and recursion and integer-size limits of the decoder are not modelled; the three names beyond the grammar that it accepts are.
- Extraction.ExtractJson: returns the tree or None, where the source returns the value or raises with the text.
- Assessment.Merger.DictToBacklog: takes the outer shape of an assessment as typed and the rendered dead-code and vulnerability stories as given; agent-written entries are arbitrary JSON values.
- Findings.ListFindings: leaves the role, the hash and the broken-citation flag out of a finding.
- Strings outside ASCII: whitespace, case and digits are the ASCII ones.
- `ChangeApplier`, `LocalWorkspace`, `plan_iteration`, `velocity`, the console and scripted channels and the other readers of the modelled state would add easy members only.
