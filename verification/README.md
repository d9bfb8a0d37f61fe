# S3RES: models and proofs

S3RES protects the controllers of a robot by running each one as one, two or
three replicas behind a voter. The voter compares what the replicas output,
sends on what is agreed, and clones a healthy replica in the place of a faulty
one. This project models four parts of it in Dafny and proves what they are for.

* **The A\* planner** (`Grid`, `Search`, `SearchRuns`, `Mapping`, `AStar`,
  `LostList`). The search runs over linked list cells that are spliced in place,
  with nodes that hold scores and back links. `Search` is the same search on maps
  from cells to scores and trails, and `SearchRuns` its runs, move by move;
  `AStar.Planner` is proved to make such a run. The result: the search ends on
  every map, returns a path exactly when there is one, and the path extracted
  along the back links is a legal, repetition-free path that no other path
  undercuts, for every metric. The planner also tells on which runs the C code
  would lose its open list on the way, exactly.
* **VoterD** (`VoteBuff`, `VoterDSpec`, `VoterDEvents`, `VoterDAlignment`,
  `VoterDMasking`, `VoterDTimeout`, `VoterDExample`, `Replicas`, `VoterD`).
  `VotePipe` is the ring buffer, proved to be a byte queue of capacity 4095.
  `VoterDSpec` is the voter as a state machine on values; `ReplicaGroup` and
  `VoterD.Voter` do the same in place and are proved to compute exactly its
  steps. `VoterDEvents` tells what each event does to the watchdog, to input and
  to priorities, and that input reaches all replicas alike. Over every run: buffers stay aligned and bytes
  are conserved whatever the replicas do, and if at most one of three replicas
  deviates at a time, everything sent is the golden output, including what is
  sent during restarts and never compared.
* **VoterM** (`VoterMSpec`, `VoterMMasking`, `VoterM`). Rounds of input,
  collection, vote or timeout, restart and send, for deterministic controllers,
  any number of output pipes and any number of rounds.
* **Maps and formats** (`MapSpec`, `Mapper`, `MapLink`, `MapCodec`, `PipeText`).
  The update protocol between mapper and planner through any number of cold
  planner restarts, with the two programs and their pipes proved to make its
  steps; the wire format of map updates; and the text of pipe descriptors.

Clocks, `select` and processes appear as events and parameters: a timeout is an
event, a read is the sequence of bytes it delivers, and a clone gets its
restarter's state. `hide` statements in proofs only keep definitions out of the
solver's way.

## Assumptions

* Cells off the 48 x 48 map are obstacles. `genNeighbors` does not check bounds
  (`controllers/a_star.c:69-82`).
* `estDistance` is a metric over `real`: zero at equal cells, symmetric, with the
  triangle inequality. `Grid.StraightLineIsMetric` proves this of the exact
  straight-line distance.
* VoterD starts with all buffers empty at index 0, and VoterM with all buffers
  empty. The C code allocates them without setting them (`voter/voterd.c:604`,
  `voter/voterm.c:525`): `initReplicas` resets as many pipes as a replica has so
  far, none at the first start (`src/replicas.c:29-35`), `initVoterD` sets only
  the counts of the pipes it reads (`voter/voterd.c:539-546`), and VoterM clears
  its counts only when it sends (`voter/voterm.c:358-362`).
* VoterD (`VoterDMasking.Tolerable`): after each read at most one of three
  replicas holds bytes that do not continue the golden output (of two replicas,
  none), and when the watchdog goes off a replica that deviates has delivered
  strictly least on the pipe that is waited for. What happens without the last
  is told exactly by `VoterDTimeout.WatchdogIsExact`. Of an overlong read, which
  the code drops (`voter/vote_buff.c:66-68`), the model drops the bytes too, and
  the golden-stream assumption then tells how the replica that lost them counts.
* VoterM (`VoterMMasking.OneOdd`, `VoterMMasking.RepairedFirst`): in each round at
  most one replica is odd, and the next is not struck before the last is in the
  fault-free state again; a replica writes on the pipe that is waited for at most
  once a round, and last; timed pairs are numbered by input position, since
  `timer_stop_index` is filled by pair number (`voter/voterm.c:659`) and read by
  input pipe (`voter/voterm.c:200`).

## Where the code does not do what it is for

Each item has the exact condition and a failing input.

* Re-scoring the only open node: `removeNode` then leaves a null list
  (`controllers/mapping.c:104`), and the `addNode` that follows
  (`controllers/a_star.c:185-186`) dereferences it. `AStar.Planner.Command` says
  on which runs (`lost`), `LostList.LastOpenNodeIsRescored` is such a run towards
  the program's one goal, on a map with a path to it, and
  `SearchRuns.RoomyNeverLoses` gives a condition on the map under which there is
  none. The model goes on with an empty list.
* A timeout in VoterD clones the replica before the most behind one, whether or
  not that one is healthy. `VoterDTimeout.WatchdogIsExact`: if it is, nothing but
  golden bytes is sent afterwards as long as nothing more goes wrong; if not, a
  wrong byte can go out although nothing more goes wrong. In
  `VoterDExample.WatchdogClonesTheFault` three events are enough.
* More than 4096 unread input bytes on a pipe are not handed over whole at a
  restart: `VoterDAlignment.RestartHandsOver`, and with 4097 bytes
  `VoterDAlignment.OneByteTooMany` and `VoterDAlignment.InputWaits`.
* A silent replica is blamed in VoterM only if it wrote on fewer pipes than the
  others, or is the first and wrote on as many: `VoterMSpec.BlameIsExact`. When
  the blame is wrong, `VoterMMasking.WrongAnswerIsSent` says exactly when the odd
  answer is sent, and in `VoterMMasking.HealthyIsKilled` it is.
* `serializePipe` stops counting digits at a zero that is not the last digit and
  then writes beyond its allocation (`PipeText.SerializePipe`, and
  `PipeText.HundredOverruns` for descriptor 100); descriptors of more than nine
  digits overrun the parser (`PipeText.TextRoundTrip`, `PipeText.TenDigitsOverrun`).
* A full update of a map with too many obstacles overflows its arrays:
  `MapSpec.MessageLength` says how many are too many, and a map full of obstacles
  is one (`MapSpec.FullMapOverflows`).

## Model

| member | source | states |
|---|---|---|
| Grid.StraightLineIsMetric | controllers/a_star.c:114-119 | the exact straight-line distance is a metric, triangle inequality included |
| Grid.EstimateBoundsPath | controllers/a_star.c:117-119 | the distance estimate never exceeds the cost of any legal path |
| Grid.CostSplits | controllers/a_star.c:179 | the cost of a path is the cost of its two parts at any cell of it |
| Search.InitialInv | controllers/a_star.c:135-140 | the search invariant holds of the start node alone on the open list |
| Search.CloseInv | controllers/a_star.c:143-171 | closing a least open cell keeps the invariant: sorted frontier, trails along back links, disjoint open and closed |
| Search.RelaxInv | controllers/a_star.c:175-190 | offering the closed cell as predecessor of a neighbour keeps the invariant, whatever the neighbour's state |
| Search.ClosedIsSettled | controllers/a_star.c:175-177 | no closed cell could get a better score: skipping closed neighbours is right |
| Search.Frontier | controllers/a_star.c:142-194 | along any path from the start, an open cell was reached no dearer than along the path, or its end is closed and was |
| Search.GoalPoppedIsOptimal | controllers/a_star.c:144-163 | a popped goal's trail is a legal path, repetition-free, and no path costs less |
| Search.NothingOpenIsUnsolvable | controllers/a_star.c:165-169 | an empty open list means that no path from pose to goal exists |
| Search.TrailHasNoRepeats | controllers/a_star.c:151-154 | back links from an open cell never come round to the same cell |
| SearchRuns.RunKeeps | controllers/a_star.c:142-194 | every run of closing least cells and considering their neighbours keeps the search invariant, closes the start first and closes nothing dearer than a path to the goal |
| SearchRuns.StoppedRunIsRight | controllers/a_star.c:142-194 | a run that stops at the goal has found a cheapest path, and one that stops with nothing open shows that there is none |
| SearchRuns.RoomyNeverLoses | controllers/a_star.c:175-190 | on a map where no two neighbouring cells part the start from the goal and from all cells too far to be closed, no run re-scores the only open node |
| SearchRuns.RoomyNextToTheGoal | controllers/a_star.c:142-194 | a family of such maps |
| Mapping.AddedShape | controllers/mapping.c:114-135 | `addNode` inserts one item behind the run of items that are not greater |
| Mapping.AddedSorted | controllers/mapping.c:119-126 | a sorted list stays sorted and gains exactly the new item, as a multiset |
| Mapping.RemovedShape | controllers/mapping.c:97-111 | `removeNode` takes out exactly the first item at the cell, or nothing |
| Mapping.FoundIsEntry | controllers/mapping.c:137-145 | `findNode` finds the list's node at a cell exactly when there is one |
| Mapping.DecreaseKey | controllers/a_star.c:185-186 | remove-then-add is a decrease-key: sorted, one item a cell, only that cell's item changes |
| Mapping.PopIsLeast | controllers/mapping.c:156-168 | popping a sorted list yields a least item and loses only its entry |
| Mapping.ListCell.InsertHere | controllers/mapping.c:119-127 | the swap in place puts the item before the current one, through fresh cells only |
| Mapping.ListCell.AddNode | controllers/mapping.c:114-135 | the recursive splice in place turns the list into `Added` of it |
| Mapping.ListCell.RemoveNode | controllers/mapping.c:97-111 | the splice in place turns the list into `Removed` of it; it leaves no cell at all exactly when the only cell goes |
| Mapping.ListCell.FindNode | controllers/mapping.c:137-145 | the search along the cells returns the first node at the place |
| Mapping.ListCell.Pop | controllers/mapping.c:156-168 | returns the first node and the rest, never a missing list |
| Mapping.ListCell.Push | controllers/mapping.c:148-154 | puts a node before all others |
| Mapping.ListCell.EraseList | controllers/mapping.c:181-187 | empties a list |
| AStar.Planner.constructor | controllers/a_star.c:331-358 | a cold planner knows no obstacle and will ask for all |
| AStar.Planner.MayEnter | controllers/a_star.c:69-83 | never the cell itself; a side cell exactly when it is clear; a corner exactly when it is clear and so is one of the two cells beside it |
| AStar.Planner.StepsArePermitted | controllers/a_star.c:69-83 | the moves that paths are made of are those permitted by the map: to a clear cell around, never between two blocked ones |
| AStar.Planner.PathsKeepTheRule | controllers/a_star.c:63-88 | the paths among which the search looks are just those of permitted moves |
| AStar.Planner.GenNeighbors | controllers/a_star.c:63-88 | the list holds one fresh node for every move permitted by the map and no other |
| AStar.Planner.Rescore | controllers/a_star.c:185-186 | the open list becomes `Added` of `Removed`; the C code loses the list exactly when its only node is replaced |
| AStar.RescoreStands | controllers/a_star.c:182-186 | linking, re-scoring and re-inserting a node keeps the lists in step with the abstract state |
| AStar.Planner.Consider | controllers/a_star.c:175-190 | the body of the inner loop is exactly `Relax`, and loses the list exactly when it re-scores the last open cell |
| AStar.Planner.VisitAll | controllers/a_star.c:173-192 | the inner loop extends the run by one move for each neighbour; `lost` tells whether the list was lost on the way |
| AStar.Planner.Expand | controllers/a_star.c:172-193 | after the inner loop every neighbour has been considered, the closed list is unchanged, and the loss of the list is reported |
| AStar.Planner.CloseNode | controllers/a_star.c:171 | adding the popped node to the closed list closes a new cell and is a move of the run |
| AStar.ClosedInGrid | controllers/a_star.c:142-171 | only the start and free cells are ever closed, so each iteration lowers a finite measure |
| AStar.BackLink | controllers/a_star.c:151-154 | a back link points to the closed node one step back on the trail, and to none just at the start |
| AStar.Planner.ExtractPath | controllers/a_star.c:147-154 | following the back links leaves exactly the goal's trail on the goal path |
| AStar.Planner.Command | controllers/a_star.c:134-195 | ends; finds a solution exactly when one exists; then the goal path leads from pose to goal by moves that the map permits, is optimal and repetition-free, else it is untouched; it makes a run of the search that stops, `lost` exactly when that run re-scores the only open node, and never on a roomy map |
| AStar.Planner.MarkObstacles | controllers/a_star.c:276-278 | exactly the cells of the update get marked, each at its own place |
| AStar.Planner.TakeUpdate | controllers/a_star.c:272-292 | pose, map, re-planning, its loss of the list, and the resend request after one update |
| LostList.LastOpenNodeIsRescored | controllers/a_star.c:175-190 | a run towards the goal (45, 45) that loses the open list, on a map with a path to the goal |
| VoteBuff.RingAppend | voter/vote_buff.c:52-65 | bytes laid down behind those held extend the queue, through every wrap-around |
| VoteBuff.RingDrop | voter/vote_buff.c:116-119 | moving the index drops exactly the first bytes |
| VoteBuff.MemcmpSplits | voter/vote_buff.c:132-137 | comparing in two pieces compares the whole |
| VoteBuff.FirstDifference | voter/vote_buff.c:128-137 | the sign of a comparison is that of the first difference |
| VoteBuff.VotePipe.ResetVotePipe | voter/vote_buff.c:41-42 | an empty queue at index 0 |
| VoteBuff.VotePipe.PipeToBuff | voter/vote_buff.c:46-76 | appends a read that fits below 4096; else reports -1 and changes nothing |
| VoteBuff.VotePipe.FakeToPipe | voter/vote_buff.c:116-119 | drops exactly the first n bytes |
| VoteBuff.VotePipe.BuffToPipe | voter/vote_buff.c:90-113 | writes and drops exactly the first n bytes; asked for too many it does neither |
| VoteBuff.VotePipe.CopyPipe | voter/vote_buff.c:141-153 | the copy holds the same bytes at the same index |
| VoteBuff.CompareBuffs | voter/vote_buff.c:122-139 | 0 exactly when the indices and the first n bytes agree, else the sign of the first difference or -1 |
| VoterDSpec.BehindRepIsFirst | src/replicas.c:88-101 | the replica returned is the least by fewest bytes, then highest priority, then lowest index |
| VoterDSpec.AheadRep | src/replicas.c:75-85 | the first of the replicas with the most bytes buffered |
| VoterDSpec.BytesReady | src/replicas.c:65-73 | no more than any replica holds, and as much as one of them |
| VoterDSpec.GapComplementsTotal | src/replicas.c:140-149 | gap and total buffered output add up to the same for all replicas |
| VoterDSpec.TopPriorityIsMostBehind | src/replicas.c:103-138 | the top priority goes to exactly the first replica with the least buffered output in all |
| VoterDSpec.TotalOutCounts | src/replicas.c:140-149 | each byte waiting on an output pipe counts for one, and no other |
| VoterDSpec.PrioritiesAre | src/replicas.c:103-138 | all priorities handed out, the second choice included, told from how much output of each replica waits |
| VoterDEvents.ReadIs | voter/voterd.c:478-498 | what a read leaves before the vote: the bytes, the watchdog and its number, and top priority for the replica then most behind; a read that does not fit only starts the watchdog |
| VoterDEvents.SendWatch | voter/voterd.c:361-371 | a send stops the watchdog exactly on the pipes that are waited for |
| VoterDEvents.RestartWatch | voter/voterd.c:103-105 | a restart stops the watchdog and hands out priorities by the restartee's empty pipes |
| VoterDEvents.OutputWatch | voter/voterd.c:383-498 | when the watchdog runs after an output event, by the verdict |
| VoterDEvents.TimeoutWatch | voter/voterd.c:168-174 | a timeout leaves the watchdog off |
| VoterDEvents.FewSendTheFirst | voter/voterd.c:390-428 | one replica or two: the first one's bytes are sent as soon as all have some |
| VoterDEvents.InputReachesAll | voter/voterd.c:338-359 | input goes to every replica, on its pipe only, starts the watchdog with the number of the pair, and gives top priority to the most behind |
| VoterDEvents.InputIsHandedOn | voter/voterd.c:82-131 | on every run whose restarts find at most 4096 unread bytes, what a replica has unread is all input from where it, or the replica it was cloned from, has got to |
| VoterDEvents.EquallyFar | voter/voterd.c:338-359 | on such runs replicas that have taken equally much of a pipe hold the same unread input |
| VoterDAlignment.SendPipeSends | voter/voterd.c:361-381 | the chosen replica's common bytes go out and every replica drops as many |
| VoterDAlignment.SendPipeDrains | voter/voterd.c:361-381 | afterwards nothing on that pipe is held by all, and other pipes are as before |
| VoterDAlignment.RestartAligned | voter/voterd.c:82-131 | a restart leaves all replicas at the same ring index again |
| VoterDAlignment.AlwaysAligned | voter/voterd.c:237-321 | in every state of every run all replicas share the ring index on every pipe |
| VoterDAlignment.StepConserves | voter/voterd.c:237-321 | one event changes bytes sent plus buffered by the bytes read, a restarted replica starting from its restarter's |
| VoterDAlignment.BytesAreConserved | voter/voterd.c:361-381 | in every state of every run the bytes read of a replica are those sent plus those buffered |
| VoterDAlignment.RestartHandsOver | voter/voterd.c:82-131 | both replicas hold the same unsent output, and the same unread input exactly when there are at most 4096 bytes |
| VoterDAlignment.OneByteTooMany | voter/voterd.c:183-219 | with 4097 unread bytes the clone misses the last and the restarter reads it first |
| VoterDAlignment.InputWaits | voter/voterd.c:338-359 | a run on which 4097 input bytes wait |
| VoterDMasking.MatchIsAgreement | voter/vote_buff.c:122-126 | aligned replicas compare equal exactly when their common bytes are equal |
| VoterDMasking.VerdictIsExact | voter/voterd.c:429-473 | send when all three agree, restart the one against an agreeing pair, do nothing when no two agree; no fault assumption |
| VoterDMasking.RestartKeeps | voter/voterd.c:82-131 | a restart from a good replica sends only golden bytes, makes the restartee good and leaves good replicas good |
| VoterDMasking.VoteKeepsInv | voter/voterd.c:383-474 | a vote after any tolerable read sends only golden bytes and leaves at most one bad replica |
| VoterDMasking.RestarterIsGood | voter/voterd.c:168-173 | under the fault model the watchdog's restarter is not the deviating replica |
| VoterDMasking.RestartFromBad | voter/voterd.c:107-114 | after cloning a bad replica the invariant of masking is gone: a wrong byte is out or two replicas are bad |
| VoterDMasking.TimeoutIsExact | voter/voterd.c:168-174 | the watchdog's restart keeps the invariant of masking exactly when the replica before the most behind one is good |
| VoterDTimeout.WrongByteFollows | voter/voterd.c:82-131 | after a restart from a bad replica a wrong byte goes out at once or with the next honest output of the third |
| VoterDTimeout.HonestKeepsInv | voter/voterd.c:237-321 | masking holds along events by which no good replica deviates |
| VoterDTimeout.WatchdogIsExact | voter/voterd.c:168-174 | the replica cloned by the watchdog is good exactly when all that is sent in every continuation without further faults is golden |
| VoterDExample.WatchdogClonesTheFault | voter/voterd.c:168-174 | a run of three events, one replica deviating, that sends the wrong byte |
| VoterDMasking.StepKeepsInv | voter/voterd.c:237-321 | every event of the fault model keeps the invariant |
| VoterDMasking.FaultsAreMasked | voter/voterd.c:237-321 | in every state of every run of the fault model all bytes sent are golden and nothing agreed is left unsent |
| VoterDMasking.PassIsMasked | voter/voterd.c:237-321 | the same over the events of a pass of the main loop |
| Replicas.ReplicaGroup.constructor | src/replicas.c:10-39 | replicas start with empty, separate buffers and the default priority |
| Replicas.ReplicaGroup.BytesReady | src/replicas.c:65-73 | the loop over the rings computes `VoterDSpec.BytesReady` |
| Replicas.ReplicaGroup.AheadRep | src/replicas.c:75-85 | the loop computes `VoterDSpec.AheadRep` |
| Replicas.ReplicaGroup.BehindRep | src/replicas.c:88-101 | the loop computes `VoterDSpec.BehindRep` |
| Replicas.ReplicaGroup.RepGap | src/replicas.c:140-149 | the loop computes how far a replica is behind in all |
| Replicas.ReplicaGroup.BalanceReps | src/replicas.c:103-138 | priorities become `VoterDSpec.Balanced`; buffers stay |
| Replicas.ReplicaGroup.RestartReplica | src/replicas.c:151-193 | the restartee's pipes are emptied at index 0, others stay, and priorities are those of `VoterDSpec.RestartReplica` |
| VoterD.Voter.constructor | voter/voterd.c:502-551 | the voter starts in the initial state |
| VoterD.Voter.SendPipe | voter/voterd.c:361-381 | does `VoterDSpec.SendPipe` in place |
| VoterD.Voter.StealPipes | voter/voterd.c:183-209 | takes up to 4096 unread bytes of each input pipe of one replica |
| VoterD.Voter.ReturnPipes | voter/voterd.c:212-219 | gives bytes back behind what a replica has unread |
| VoterD.Voter.RestartPrep | voter/voterd.c:82-131 | does `VoterDSpec.RestartPrep` in place |
| VoterD.Voter.VoterRestartHandler | voter/voterd.c:166-175 | does `VoterDSpec.RestartBehind` in place |
| VoterD.Voter.CheckSDC | voter/voterd.c:383-474 | does `VoterDSpec.CheckSDC` in place |
| VoterD.Voter.ProcessFromRep | voter/voterd.c:478-498 | does `VoterDSpec.ProcessFromRep` in place |
| VoterD.Voter.ProcessData | voter/voterd.c:338-359 | does `VoterDSpec.ProcessData` in place: every replica gets the data, on that pipe only |
| VoterD.Voter.CheckSync | voter/voterd.c:221-235 | true exactly when all replicas have as much buffered on every pipe |
| VoterD.Voter.WatchdogRestarts | voter/voterd.c:168-174 | the watchdog restarts the replica farthest behind on the pipe waited for, by bytes, priority and number, from the one before it |
| VoterD.Voter.TakeTurns | voter/voterd.c:259-320 | input is taken exactly when no timer runs and all replicas hold equally much; then all output, in order |
| VoterD.Voter.DoOneUpdate | voter/voterd.c:237-321 | a timeout is among the events exactly when the time is up and the timer ran, and then it comes first and the farthest behind has been restarted; then come input, exactly when it is due, and all output, in order; each event enabled when it happens |
| VoterMSpec.VerdictOfThree | voter/voterm.c:295-342 | no fault exactly when all three agree on all counts and contents; one that differs from two equal ones is named |
| VoterMSpec.CountsBlame | voter/voterm.c:297-314 | whom the counts of three blame, whatever they are: the last pipe on which they differ decides |
| VoterMSpec.ContentsBlame | voter/voterm.c:317-335 | whom the contents of three blame, in the same way |
| VoterMSpec.VerdictOfTwo | voter/voterm.c:277-294 | a fault is reported exactly when the two differ anywhere; the guess is the first, unless it wrote more on the last pipe on which they differ |
| VoterMSpec.FindFaultIsLowest | voter/voterm.c:218-238 | the blamed replica has the lowest score, and is the first with it |
| VoterMSpec.BlameIsExact | voter/voterm.c:218-238 | when the blame falls on the replica that differs: both directions |
| VoterMSpec.FewerPipes | voter/voterm.c:226-231 | a replica stopped before its answer, and silent where others are, scores lower |
| VoterMSpec.ScoreCounts | voter/voterm.c:225-231 | the score is the number of pipes with output |
| VoterMSpec.LastReadCounts | voter/voterm.c:193-195 | of several reads on a pipe the last counts |
| VoterMSpec.ConsumedStops | voter/voterm.c:162-209 | collecting stops with the first sweep after which enough have answered |
| VoterMSpec.TimedRepsCount | voter/voterm.c:200-205 | the done counter counts the replicas that have answered |
| VoterMSpec.CollectedIsComplete | voter/voterm.c:152-212 | without a timeout everything written in the round has been read |
| VoterMMasking.TimeoutMeansSilent | voter/voterm.c:174-183 | a timeout occurs exactly when some replica has not answered |
| VoterMMasking.StoppedIsMaskable | voter/voterm.c:218-238 | a replica stopped before its answer, and silent where the right answer is, is one that the fault model covers |
| VoterMMasking.WrongAnswerIsSent | voter/voterm.c:834-857 | exactly when the odd answer is sent at a timeout |
| VoterMMasking.HealthyIsKilled | voter/voterm.c:834-857 | outputs with which a healthy replica is killed and the faulty answer sent |
| VoterMMasking.OddIsFound | voter/voterm.c:817-858 | the one maskable replica is named and another one sends |
| VoterMMasking.OneBeforeSends | voter/voterm.c:819-857 | the replica before the one that is named sends, and the first when none is |
| VoterMMasking.FreshAnswer | voter/voterm.c:845-850 | a silent single replica: what is sent is what the fresh one writes up to its answer, which is there |
| VoterMMasking.FreshStartIsMasked | voter/voterm.c:845-850 | when the fresh one writes the fault-free answer, that is what is sent |
| VoterMMasking.RoundIsMasked | voter/voterm.c:816-859 | a round sends the fault-free answer on every pipe and leaves the others, and a repaired odd one, in the fault-free state |
| VoterMMasking.FaultsAreMasked | voter/voterm.c:814-863 | so does every round of any number of rounds, when no replica is struck before the last one is repaired; all but the odd one start each round in the fault-free state |
| VoterMMasking.ShownFaultIsRepaired | voter/voterm.c:816-859 | a fault that shows in its round is gone at its end: all replicas are equal |
| VoterMMasking.ReplicasStayEqual | voter/voterm.c:814-863 | when faults show at once, all replicas start every round equal, in the fault-free state |
| VoterM.Voter.constructor | voter/voterm.c:423-473 | the voter starts with all buffers empty |
| VoterM.Voter.CheckWaitOnInput | voter/voterm.c:119-133 | true exactly for the timed input pipes |
| VoterM.Voter.ReadPass | voter/voterm.c:189-208 | one sweep replaces what the ready buffers held and counts answers |
| VoterM.Voter.CollectFromReps | voter/voterm.c:152-212 | what has been read when collecting stops, and whether by a timeout |
| VoterM.Voter.FindFaultReplica | voter/voterm.c:218-238 | the fault index becomes the one blamed |
| VoterM.Voter.CheckSDC | voter/voterm.c:268-343 | the verdict of `VoterMSpec.CheckSDC`, and the index it sets |
| VoterM.Voter.SendData | voter/voterm.c:346-363 | writes one replica's answer on every pipe and clears all buffers |
| VoterM.Voter.DoRound | voter/voterm.c:814-859 | a round decides and sends what `VoterMMasking.Finish` says; with a single silent replica, what the one started afresh wrote last on each pipe up to its answer |
| VoterM.Voter.Serve | voter/voterm.c:763-863 | the loop over any rounds makes a run of `VoterMMasking`, and the external pipes carry the answers that run sends, joined |
| MapSpec.ScanConfirms | controllers/mapper.c:79-99 | a scan confirms exactly the cells it announces, each new |
| MapSpec.ScanCounts | controllers/mapper.c:85-90 | a scan counts every sighting of a cell, up to three in all |
| MapSpec.ThirdSightingConfirms | controllers/mapper.c:85-95 | a cell is confirmed by its third sighting |
| MapSpec.ListingMembers | controllers/mapper.c:136-144 | the full listing names exactly the confirmed cells |
| MapSpec.ListingInOrder | controllers/mapper.c:136-144 | the listing goes row by row |
| MapSpec.MessageMembers | controllers/mapper.c:102-156 | an update says all confirmed cells when resending, else just the newly confirmed |
| MapSpec.MessageLength | controllers/mapper.c:91-95 | how long an update is, told from the numbers of confirmed and of new cells |
| MapSpec.FullMapOverflows | controllers/mapper.c:133-145 | a full update of a full map does not fit |
| MapSpec.StepKeepsInv | controllers/mapper.c:197-203 | every protocol step keeps the agreement |
| MapSpec.MapsAgree | controllers/a_star.c:272-292 | in every state of every run, planner and messages under way hold confirmed cells only, and all of them unless a resend is pending |
| MapSpec.RoundTripRepairs | controllers/a_star.c:287-292 | two updates with an acknowledgement between them complete the planner's map after any restarts |
| MapLink.Link.constructor | controllers/a_star.c:318-358 | both programs at their start are the initial state of the protocol |
| MapLink.Link.Scan | controllers/mapper.c:180-188 | the mapper's handling of a scan is the protocol's step |
| MapLink.Link.TakeUpdate | controllers/a_star.c:271-292 | so is the planner's handling of an update, which never names a cell off the map |
| MapLink.Link.TakeAck | controllers/mapper.c:197-203 | so is the mapper's handling of an acknowledgement |
| MapLink.Link.Restart | controllers/a_star.c:318-358 | so is a cold start of the planner |
| Mapper.MapBuilder.AddObstacle | controllers/mapper.c:79-99 | counts a sighting up to the threshold and announces the cell when it crosses it |
| Mapper.MapBuilder.UpdateMap | controllers/mapper.c:102-156 | every cell of the map is counted up by the sightings of it, those on the far edge for the last row and column, and none off the map; the message is that of the cells, the flag cleared |
| Mapper.ScanHits | controllers/mapping.c:16-22 | what a scan makes of one cell: 48 counts for 47, and a cell off the map for none |
| Mapper.MapBuilder.ListAll | controllers/mapper.c:136-144 | appends all confirmed cells, row by row |
| Mapper.MapBuilder.TakeAck | controllers/mapper.c:197-203 | a resend request sets the flag |
| MapCodec.Int4Inverts | src/commtypes.c:322-324 | four bytes give back every 32-bit integer, negative ones too |
| MapCodec.BigEndian | src/commtypes.c:279-290 | the most significant byte comes first |
| MapCodec.Layout | src/commtypes.c:279-300 | where pose, count and each coordinate are in a message, and how long it is |
| MapCodec.RoundTrip | src/commtypes.c:269-350 | decoding an encoded update gives back pose, count and obstacles in order, within 4096 bytes, and leaves what follows |
| MapCodec.FitsExactly | controllers/inc/mapping.h:11 | a message fits 4096 bytes exactly up to 2042 obstacles |
| MapCodec.StreamRoundTrip | src/commtypes.c:310-350 | messages that follow each other in a pipe are told apart |
| MapCodec.CommSendMapUpdate | src/commtypes.c:269-308 | the buffer filled in place is the encoding, cut off beyond 4096 bytes as the loop does |
| MapCodec.CommRecvMapUpdate | src/commtypes.c:311-350 | what the reads leave in the caller's arrays, for whole, short and missing messages |
| PipeText.NumLenIsExact | src/commtypes.c:39-43 | the counting loop counts right exactly when no digit but the last is zero |
| PipeText.InnerZeros | src/commtypes.c:39-43 | 100 and 105 are counted as one digit |
| PipeText.AtoiDigits | src/commtypes.c:114-118 | reading a printed number gives it back, and 0 for a negative one |
| PipeText.AtoiExamples | src/commtypes.c:115-118 | blanks, signs and what follows the digits |
| PipeText.CountDigits | src/commtypes.c:39-43 | the loop computes `NumLen` |
| PipeText.PrintDigits | src/commtypes.c:59-65 | the digits printed backwards by the moving index end where the count says, in order, however many they are, and stay inside exactly when there is room for them before that place |
| PipeText.SerializePipe | src/commtypes.c:29-87 | stays inside the allocation exactly when the digits are counted right, and then fills it with the text and its zero |
| PipeText.DeserializePipe | src/commtypes.c:89-122 | the scanning loops compute `Parsed` |
| PipeText.TextRoundTrip | src/commtypes.c:29-122 | parsing a correctly printed descriptor gives it back exactly when at most one number is set, none is negative and the first has at most nine digits |
| PipeText.Examples | src/commtypes.c:29-87 | what descriptors look like |
| PipeText.OtherNames | src/commtypes.c:9-27 | a name is an error exactly when no other type has it |
| PipeText.NeedsTwoColons | src/commtypes.c:94-118 | a text that is parsed has two colons, and the fields are what is before, between and behind them |
| PipeText.TenDigitsOverrun | src/commtypes.c:109-114 | a ten-digit descriptor overruns the parser |
| PipeText.HundredOverruns | src/commtypes.c:39-87 | descriptor 100 makes the printer leave its allocation |
| PipeText.SendAndReceive | src/commtypes.c:29-122 | printing and parsing together give the pipe back exactly under both conditions |

## Left out

- A null list left by `removeNode`: `AStar.Planner.Rescore` goes on with an empty list and reports it, where the C code would dereference it.
- Memory: `malloc`, `free`, freed nodes and reused addresses. That freed open nodes are never linked to follows from `AStar.BackLink`.
- Rounding of `sqrt` and of scores: distances are exact reals. `gridify` beyond its edge rule, and the projection of ranges to cells, are inputs.
- `sendWaypoints`, the waypoint protocol, `art_pot.c`, and every other controller.
- Processes, sockets, descriptor passing, signals, scheduling calls (assumed to succeed), CPU pinning, and stale `select` sets after a restart.
- Time: a timeout is an event that may happen whenever the timer runs.
- Output that a restarter has written and the voter has not read at a restart: there is none in the model.
- Failed and partial reads and writes; external reads of no bytes change nothing.
- VoterD.Voter.VoterRestartHandler: asks for two or three replicas; with one, the code starts it cold and resends the last input. VoterS is left out too.
- VoterD.Voter.DoOneUpdate: asks for two or three replicas when the time is up, for the same reason.
- Wrong output of one of two replicas: VoterD sends the first one's and VoterM guesses, so nothing holds beyond a silent replica.
- VoterM's SINGLE_CORE branch, and output written in rounds in which no answer is waited for.
- The clone in `VoterM.Voter`: processes are not objects there; `VoterMMasking.Step` gives the restarted replica its restarter's state.
- Mapper restarts: they reset its counts, which the protocol does not cover.
- Mapper.MapBuilder.UpdateMap: asks that the update fit its arrays (`MapSpec.Fits`), which the code does not check.
- Mapper.MapBuilder.ListAll: asks the same of the listing.
- MapCodec.CommRecvMapUpdate: asks that the announced count not exceed the caller's arrays, which the code does not check.
- Mapper.MapBuilder.AddObstacle: leaves out coordinates equal to 48, which its bounds test lets through and `gridify` never produces.
- AStar.Planner.TakeUpdate: asks that obstacles be on the map, which the code does not check; updates of the mapper meet it (`MapLink.NextIsOnTheMap`).
- AStar.Planner.MarkObstacles: asks the same.
- PipeText.DeserializePipe: running past the text or past the ten places for the first number gives None, where the C code overruns.
- Descriptors are integers without the bound of `int`.
- Replicas.ReplicaGroup.constructor: sets indices and counts to 0, which the code leaves unset at the first start.
- VoterD.Voter.constructor: assumes the same.
- VoterM.Voter.constructor: sets the counts to 0, which the code leaves unset until the first send.
- The plumber, launcher, benchmarker, logger, fault injectors and tests.
