# A verified model of the PBNF search suite

The repository is a suite of parallel and serial best-first searches. This
project models its hardest parts in Dafny and proves what they are for. All
theorems are for all inputs, all interleavings and all reachable states; the
conditions they need are named in their contracts.

## What is modelled

- **The nblock scheduler** (parallel best-nblock-first with livelock detection).
  `PbnfScheduler` is a state machine over sets of blocks in which every critical
  section of the scheduler's mutex is one step. Signals and broadcasts are
  part of the steps, spurious wake-ups are steps of their own, and unlocked reads
  of other blocks' values may see anything.
  `NBlockGraphs.NBlockGraph` is the program's form of it, with the counters
  sigma, sigma_hot and num_sigma_zero, the flags and the free-list heap, and
  every method is proved to compute the operation of the state machine.
  `PbnfTheorems` holds the results over whole runs: no two threads share a list,
  livelock freedom, sound termination, no lost wake-up. `NBlockRuns` proves that
  the threads' calls of the class, in any order, are runs of the machine, so the
  results hold for it. `Interference` builds the scope arrays.
- **The lock-free core**: the reference-counted free list (`FreeLists`,
  `FreeListTheorems`) and Harris's ordered list (`OrderedLists`,
  `OrderedListTheorems`), both as machines whose steps are single loads,
  stores, additions and compare-and-swaps of any number of tasks.
  `FreeListService` and `OrderedListService` prove what an operation comes to
  that is left alone in any reachable state, whatever the others have begun.
- **Hash-distributed A\***: the message buffers, the completion counter and the
  search loop as a state machine (`HdaStar`), its quiescence protocol
  (`HdaQuiescence`), a refinement to a picture without locks and flags
  (`HdaMessages`), and conservation of messages and optimality (`HdaTheorems`).
  `HdaProgress` proves that a full counter ends the search, `HdaLiveness` that
  nothing gets stuck, `HdaService` what sending, receiving and stopping achieve.
- **The serial searches** A\*, optimistic search and IDA\* on the real heap and
  open list, over any finite graph (`SearchGraphs`, `SearchNodes`,
  `AStarSearch`, `OptimisticSearch`, `IdaStar`).
- **The data structures**: the intrusive binary heap, the open list that
  publishes its best value, the chained hash table.
- **The domains**: the permutation rank, the incremental Manhattan distance, the
  life-cost grid heuristic, and all projections (rows modulo a number, coarse
  grid, one, two and three tiles, three tiles without the blank, merging by
  division).

## What turned out to hold only conditionally

- The scope array of a block is long enough exactly if the predecessors that no
  successor brings into the scope are no more than the slots that were counted
  more than once (`FitsIff`); always, if predecessors are also successors; for a
  block without successors only if nothing but itself leads to it.
  `OneWayGraphOverruns` is a graph for which it is not.
- The coarse grid projection is in range exactly if each axis is divided by the
  requested count or by the next one (`CoarseInRangeIff`); ten columns in three
  is an input that fails (`TenByThreeFails`). The merged projection is in range
  exactly if the divisor divides the number of blocks (`MergeInRangeIff`).
- The row projection satisfies the scheduler's demand that every block interfere
  with another exactly from modulus two on; the coarse one exactly if it has two
  blocks. The tile projections always satisfy it.
- Growing the hash table keeps every map exactly as long as the old size is below
  2 to the power 32 (`GrowthIsSafeIff`); the default size is beyond that after
  four growths (`DefaultSizeOutgrown`). `fill` counts the entries exactly if no
  present key is added again (`FillCounts`), and `delete_all` does not reset it
  (`FreedIsNotEmpty`).
- Releasing a free-list node releases all its links exactly if no link that is
  set follows an empty one, because the loop stops at the first empty link
  (`SweepReleasesAll`); `HoleLeavesReference` is a list that keeps one.
- Creating a free list that runs out of memory gives back the nodes but not their
  arrays of links (`FreeListTheorems.Create`).
- The permutation rank fits into 64 bits exactly up to twenty tiles (`RankFits`).
- The free list's comparison of f values on a tie compares two constants,
  because the values read are never assigned; ties go to the larger g. The code
  is followed, not the evident intention.
- A\* that drops duplicates (`dd`) meets the cost bound for every consistent
  heuristic and every weight (`AStarSearch.AStar.Search`), which covers the
  Manhattan and the life-cost heuristic. Admissibility is not enough: for every
  weight there is a graph on which each of its runs exceeds the bound, in the
  recorded cost and in the true cost of the path (`ReopeningNeeded`). The search
  that reopens nodes needs admissibility only.

## Conventions

Costs are fixed-point values with `FP_ONE` = 10000, machine integers are
unbounded unless a contract says otherwise, and comparisons that the program
makes in `double` are made in `real`. Nodes of search trees are numbered in the
order in which they are generated. Preconditions that exclude inputs are those
that the program asserts or relies on: an admissible heuristic where optimality
is claimed, a finite state space where termination is, inverse neighbour lists
and no isolated block for the scheduler, a strict weak order for the heap, a
table that has been allocated for removal from it.

## Model

| member | source | states |
|---|---|---|
| `PriorityQueues.PriorityQueue.constructor` | src/util/priority_queue.h:372-388 | an empty queue with its index records consistent |
| `PriorityQueues.PriorityQueue.SiftUp` | src/util/priority_queue.h:185-201 | the element reaches a slot whose parent does not come after it; all other slots stay ordered and correctly recorded; only its own record is left to the caller |
| `PriorityQueues.PriorityQueue.TryPush` | src/util/priority_queue.h:210-236 | the hole sinks to a slot that the element may fill, with every moved element's record updated |
| `PriorityQueues.PriorityQueue.SiftDown` | src/util/priority_queue.h:243-253 | the heap order is restored around the element and its own slot is recorded |
| `PriorityQueues.PriorityQueue.Add` | src/util/priority_queue.h:258-280 | for any strict weak order: heap order kept, exactly the new element added, every record equal to its slot, nobody outside the queue touched |
| `PriorityQueues.PriorityQueue.Take` | src/util/priority_queue.h:285-308 | nothing precedes the element taken; exactly it leaves, with slot -1; empty result if and only if the queue was empty |
| `PriorityQueues.PriorityQueue.Remove` | src/util/priority_queue.h:313-331 | exactly the element of the slot leaves, with slot -1, and the heap order is kept |
| `PriorityQueues.PriorityQueue.SeeUpdate` | src/util/priority_queue.h:336-349 | an arbitrary change of one key is repaired without changing the contents |
| `PriorityQueues.PriorityQueue.Front` | src/util/priority_queue.h:354-361 | no element precedes the front; none exactly when empty |
| `PriorityQueues.PriorityQueue.Reset` | src/util/priority_queue.h:375-388 | all elements leave, each with slot -1 |
| `PriorityQueues.PriorityQueue.Resort` | src/util/priority_queue.h:443-458 | after any change of all keys the same elements form a heap again |
| `PriorityQueues.FrontPrecedes` | src/util/priority_queue.h:394-421 | local heap order at every slot makes slot 0 a minimum of the whole array |
| `PriorityQueues.HoleRises` | src/util/priority_queue.h:191-198 | one round of sifting up keeps the order around the hole |
| `PriorityQueues.HoleSinks` | src/util/priority_queue.h:215-231 | one step of sifting down keeps the order around the hole |
| `OpenLists.PredIsStrictWeakOrder` | src/state.h:28-83 | the comparators by f and by f' are strict weak orders, which is what the heap relies on |
| `OpenLists.SameOrderAtOne` | src/state.h:28-83 | at weight one the two comparators order all nodes alike |
| `OpenLists.PQOpenList.Add` | src/pq_open_list.h:97-107 | the node is added and the published value is the best one |
| `OpenLists.PQOpenList.Take` | src/pq_open_list.h:113-131 | the node taken has the least f (f-prime) of the list; among equal f-prime values the smaller g + h comes first, and among equal g + h the greater g; its value is the one that was published, and the next best is published, infinity if none is left |
| `OpenLists.PQOpenList.SeeUpdate` | src/pq_open_list.h:190-198 | order and published value are right again after one key has changed |
| `OpenLists.PQOpenList.Remove` | src/pq_open_list.h:203-216 | exactly the node leaves; order and published value are right |
| `OpenLists.PQOpenList.Resort` | src/pq_open_list.h:221-232 | order and published value are right after all keys may have changed |
| `OpenLists.PQOpenList.States` | src/pq_open_list.h:241-245 | every node of the list once |
| `FixedPoint.FPrimeBound` | src/state.cc:43-55 | f <= f' and fp_one \* f' <= weight \* f, integer division included |
| `Interference.Collect` | src/pbnf/nblock.cc:45-56 | the collected ids without the block itself are its interference scope, and the slots counted are those of the successors and their predecessors only |
| `Interference.WriteScope` | src/pbnf/nblock.cc:60-71 | the array holds the scope in ascending order, each block once, without overrunning |
| `Interference.BuildScope` | src/pbnf/nblock.cc:38-72 | the constructed array is the interference scope |
| `Interference.ScopeSymmetric` | src/pbnf/nblock.cc:45-56 | with inverse neighbour lists interference is symmetric |
| `Interference.SharedBlockInterferes` | src/pbnf/nblock.cc:45-56 | two blocks that may touch a common block interfere |
| `Interference.ScopeIsSharing` | src/pbnf/nblock.cc:45-56 | two different blocks interfere if and only if some block belongs to what both may touch, themselves and their successors |
| `Interference.SymmetricGraphFits` | src/pbnf/nblock.cc:46-60 | if every predecessor is also a successor the allocated array suffices |
| `Interference.FitsIff` | src/pbnf/nblock.cc:46-69 | exactly when the array suffices: the predecessors that no successor brings in are no more than the slots that were counted twice |
| `Interference.NoSuccessorsFits` | src/pbnf/nblock.cc:46-69 | a block without successors fits if and only if nothing but itself leads to it |
| `Interference.OneWayGraphOverruns` | src/pbnf/nblock.cc:46-60 | a concrete graph with a one-way edge for which the allocated array is too short |
| `NBlockGraphs.BeforeIsStrictWeakOrder` | src/pbnf/nblock.h:43-68 | the free list's predecessor operator, with its never assigned f values, is a strict weak order |
| `NBlockGraphs.IdleIsFree` | src/pbnf/nblock_graph.cc:342-348 | on exact counters `is_free` tells whether no block of the scope is in use or hot and the block is neither and not empty |
| `NBlockGraphs.NBlockGraph.constructor` | src/pbnf/nblock_graph.cc:38-70 | all counters exact, only the initial block free and listed |
| `NBlockGraphs.NBlockGraph.RaiseScopeSigmas` | src/pbnf/nblock_graph.cc:306-314 | sigma rises by one exactly on the scope, whose blocks leave the free list; num_sigma_zero stays exact |
| `NBlockGraphs.NBlockGraph.SetCold` | src/pbnf/nblock_graph.cc:396-412 | sigma_hot falls by one exactly on the scope; exactly the blocks that become free are listed; broadcast if and only if there is one |
| `NBlockGraphs.NBlockGraph.ReleaseBlock` | src/pbnf/nblock_graph.cc:129-143 | the incremental release computes the set-level release: a hot block of the scope goes cold if and only if its sigma was one, no other flag changes, and precisely what became free is listed; one signal if and only if the block has open nodes and no hot block in its scope, a broadcast if and only if another block is listed |
| `NBlockGraphs.NBlockGraph.TakeBlock` | src/pbnf/nblock_graph.cc:169-182 | the listed block with the least best value, and among equal ones with the greatest g in front, is put in use and its scope unlisted, counters exact |
| `NBlockGraphs.NBlockGraph.PruneFreeList` | src/pbnf/nblock_graph.cc:227-230 | the list is emptied and nothing else changes |
| `NBlockGraphs.NBlockGraph.EndOrWait` | src/pbnf/nblock_graph.cc:145-159 | with an empty list the search ends exactly when every sigma counter is zero, otherwise the thread waits |
| `NBlockGraphs.NBlockGraph.TakeOrPrune` | src/pbnf/nblock_graph.cc:164-182 | the front block is taken only with a best value below bound times weight; otherwise every listed block has reached it, the whole list is pruned and the loop starts over |
| `NBlockGraphs.NBlockGraph.NextNBlock` | src/pbnf/nblock_graph.cc:103-194 | the whole critical section is one release followed by one choice of the abstract scheduler, with the signals of the release and a broadcast when the end is reached; the block taken is first in the order of the list and below the bound, and a thread waits only if no listed block is; a busy lock lets the thread keep a block that is not empty |
| `NBlockGraphs.NBlockGraph.Resume` | src/pbnf/nblock_graph.cc:151-182 | a woken thread chooses again, past the test for the end: with an empty list it goes back to sleep and nothing changes |
| `NBlockGraphs.NBlockGraph.SetHot` | src/pbnf/nblock_graph.cc:356-390 | with the lock free and a cold block with sigma > 0 the block is hot afterwards if and only if no hot block of the scope has a best value below its own; then exactly the hot blocks of its scope go cold, none of them better; a broadcast if and only if a block made cold in its turn frees another |
| `NBlockGraphs.NBlockGraph.WontRelease` | src/pbnf/nblock_graph.cc:418-441 | exactly the hot blocks of the scope go cold and what becomes free is listed; a broadcast if and only if anything is |
| `NBlockGraphs.NBlockGraph.NothingHot` | src/pbnf/nblock_graph.cc:422-424 | returning early at sigma_hot = 0 is what the full treatment would come to |
| `NBlockGraphs.NBlockGraph.SetOpen` | src/pbnf_search.cc:117-141 | a searching thread may change the open lists it touches without disturbing the order of the free list |
| `PbnfScheduler.StepInv` | src/pbnf/nblock_graph.cc:103-441 | every step of every thread keeps the scheduler's invariant: what is listed is free, held blocks do not interfere, hot blocks wait for a used one |
| `PbnfScheduler.NothingInUse` | src/pbnf/nblock_graph.cc:146-149 | when every sigma is zero no block is in use and none is hot, because every block interferes with another |
| `PbnfScheduler.SearchTouchesNoFreeBlock` | src/pbnf_search.cc:117-141 | no listed and no free block is among those a searching thread touches |
| `PbnfTheorems.RunKeepsInv` | src/pbnf/nblock_graph.cc:103-441 | the invariant holds in every reachable state of every interleaving |
| `PbnfTheorems.ProjectionIsValid` | src/pbnf/nblock.cc:41-71 | inverse in-range neighbour lists without isolated blocks are all that the scheduler's theorems need, for the scaled and the unscaled weight |
| `PbnfTheorems.NoSharedLists` | src/pbnf_search.cc:117-141 | two threads never hold blocks that share an open or closed list |
| `PbnfTheorems.ListedKeysFrozen` | src/pbnf/nblock.h:43-68 | no search changes the key of a block on the free list |
| `PbnfTheorems.HotBlocksWait` | src/pbnf/nblock_graph.cc:364-382 | hot blocks are pairwise non-interfering, not in use, and have sigma > 0 |
| `PbnfTheorems.HotOnlyShrinks` | src/pbnf/nblock_graph.cc:306-324 | while a block stays hot the set of used blocks it waits for only shrinks: livelock freedom |
| `PbnfTheorems.ReleaseServesHot` | src/pbnf/nblock_graph.cc:314-323 | each interfering release lowers a hot block's sigma by one; at zero it goes cold and, if not empty, is listed in that same step |
| `PbnfTheorems.HopelessNode` | src/pbnf/nblock_graph.cc:164-166 | every node of a pruned block has f >= the bound |
| `PbnfTheorems.WeightedBound` | src/pbnf_search.cc:232-233 | the pruning arithmetic holds for the weight still scaled by fp_one and for the unscaled one |
| `PbnfTheorems.DoneIsSound` | src/pbnf/nblock_graph.cc:145-167 | when the search is declared over no block is in use or hot and every node left in any open list has f >= the current bound |
| `PbnfTheorems.DoneIsFinal` | src/pbnf/nblock_graph.cc:333-337 | afterwards no open list changes any more |
| `PbnfTheorems.ExitMeansDone` | src/pbnf/nblock_graph.cc:145-162 | no thread is sent away before the search is over |
| `PbnfTheorems.NeverAllAsleep` | src/pbnf/nblock_graph.cc:151-159 | until the end some thread holds a block or has not asked yet, and at the end nobody is asleep |
| `PbnfTheorems.NoLostWakeUp` | src/pbnf/nblock_graph.cc:129-182 | no lost wake-up: a thread that waits and has not been signalled since it fell asleep has nothing to wake up for, no listed block and no end of the search |
| `PbnfTheorems.SignalWakesOne` | src/pbnf/nblock_graph.cc:129-138 | the single signal of a release reaches a waiting thread if there is one |
| `PbnfTheorems.BroadcastWakesAll` | src/pbnf/nblock_graph.cc:306-329 | a release that lists another block wakes every waiting thread |
| `PbnfTheorems.CoolingWakesAll` | src/pbnf/nblock_graph.cc:418-441 | a thread that keeps its block and so frees others wakes every waiting thread |
| `NBlockRuns.Search.constructor` | src/pbnf_search.cc:232-239 | the threads and the new graph are an initial state of the scheduler |
| `NBlockRuns.Search.Ask` | src/pbnf/nblock_graph.cc:145-194 | a first call, or a wake-up, extends the run of the state machine by one step |
| `NBlockRuns.Search.GiveBack` | src/pbnf/nblock_graph.cc:103-194 | giving a block back, with its signal, its broadcast and the next choice, is one step of the run, or nothing when the lock is busy |
| `NBlockRuns.Search.WakeUp` | src/pbnf/nblock_graph.cc:151-159 | a wake-up without a signal is one step of the run |
| `NBlockRuns.Search.SetBound` | src/pbnf_search.cc:281-287 | a thread that lowers the shared bound makes one step of the run |
| `NBlockRuns.Search.Change` | src/pbnf_search.cc:117-141 | a change of an open list during a search is one step of the run |
| `NBlockRuns.Search.Want` | src/pbnf/nblock_graph.cc:356-390 | asking for a block is one step of the run, or nothing |
| `NBlockRuns.Search.Keep` | src/pbnf/nblock_graph.cc:418-441 | keeping a block is one step of the run, or nothing |
| `NBlockRuns.Search.HoldersApart` | src/pbnf_search.cc:117-141 | after any calls of the graph in any order, two threads hold no blocks that share a list |
| `NBlockRuns.Search.NobodyOversleeps` | src/pbnf/nblock_graph.cc:151-159 | after any calls in any order, an unsignalled waiting thread has nothing to wake up for |
| `FreeListTheorems.Create` | src/lockfree/src/mem.c:60-116 | all nodes chained from the head, unreferenced, with the claim bit set, exactly if the arguments are valid and memory lasts; on running out the nodes are freed but the array of links of every finished node stays allocated |
| `FreeLists.StepInv` | src/lockfree/src/mem.c:145-391 | every load, store, addition and compare-and-swap of every task keeps the invariant |
| `FreeListTheorems.RunKeepsInv` | src/lockfree/src/mem.c:145-391 | the invariant holds in every state of every interleaving, and no count is ever zero |
| `FreeListTheorems.Accounting` | src/lockfree/src/mem.c:204-264 | refct_claim = 2 \* references + claim bit in every reachable state, stale readers included |
| `FreeListTheorems.LastReleaserWins` | src/lockfree/src/mem.c:249-264 | a release whose swap succeeds claims the node if and only if it gives up the only reference to a node in use |
| `FreeLists.LastReference` | src/lockfree/src/mem.c:254-263 | a count of two seen by a holder means that it is the last |
| `FreeListTheorems.LifeCycle` | src/lockfree/src/mem.c:145-264 | nodes go round free, popped, blank, in use, claimed, swept, one stage at a time, and are claimed only by the winning swap |
| `FreeListTheorems.OneWinnerPerLife` | src/lockfree/src/mem.c:352-391 | between two claims of a node it was taken off the list again: exactly one releaser reclaims per lifetime |
| `FreeListTheorems.NotPutBack` | src/lockfree/src/mem.c:172-186 | no ABA: a node taken while a reader had it validated at the head is not put back before that reader lets go |
| `FreeLists.SwingHead` | src/lockfree/src/mem.c:158-160 | if the head is still the node read, the link read earlier is the true second node |
| `FreeListTheorems.PopInstallsTrueNext` | src/lockfree/src/mem.c:158-160 | a successful swap of the head installs the true next node |
| `FreeListTheorems.FreeNodesDistinct` | src/lockfree/src/mem.c:224-237 | the list holds no node twice and only free ones |
| `FreeListTheorems.NoDanglingReference` | src/lockfree/src/mem.c:172-186 | whatever a client holds or a cell points to is in use and not on the list |
| `FreeListTheorems.NothingLost` | src/lockfree/src/mem.c:352-391 | every node is on the list, or in the hands of one task on its way to or from it, or referred to |
| `FreeListTheorems.NewNodeIsPrivate` | src/lockfree/src/mem.c:161-165 | a new node has empty links and no other pointer leads to it |
| `FreeListTheorems.SweptLinkIsAlive` | src/lockfree/src/mem.c:363-373 | a claimed node does not link to itself and its links are to nodes in use |
| `FreeListTheorems.SweepReleasesAll` | src/lockfree/src/mem.c:363-383 | the loop that ends at the first empty link releases all links if and only if no set link follows an empty one |
| `FreeListTheorems.HoleLeavesReference` | src/lockfree/src/mem.c:363-383 | a link list with a hole from which a reference stays behind |
| `FreeListService.AllocatesFirst` | src/lockfree/src/mem.c:145-170 | an allocation that is left alone, whatever other tasks are in the middle of, takes the first node of the list and hands it out with one reference and empty links; nothing else changes |
| `FreeListService.ReadsPointer` | src/lockfree/src/mem.c:172-186 | a safe read that is left alone comes back with the node that the cell points to, counted once more |
| `FreeListService.ReadsNothing` | src/lockfree/src/mem.c:145-186 | a read of an empty cell, or an allocation from an empty list, comes back with nothing and has changed nothing |
| `FreeListService.NothingMeansEmpty` | src/lockfree/src/mem.c:172-186 | in every run, a read that comes back with nothing found its cell empty |
| `FreeListService.LoadIsCounted` | src/lockfree/src/mem.c:177-183 | a read of a cell with a pointer goes on to count exactly that pointer |
| `FreeListService.AttemptEnds` | src/lockfree/src/mem.c:145-186 | whatever the others do, an attempt to read or allocate goes on until it has found its cell empty or has got its node |
| `FreeListService.NewListAllocates` | src/lockfree/src/mem.c:60-165 | from every newly built list with nodes there is a run in which an allocation comes back with the first one |
| `FreeListService.ReleasesShared` | src/lockfree/src/mem.c:249-264 | letting go of a node with other references only lowers its count |
| `FreeListService.ReleasesLast` | src/lockfree/src/mem.c:352-391 | letting go of the only reference puts the node back on the list, and whatever only it led to in front of it; the list that was there follows, and no task is left over |
| `FreeListService.Drains` | src/lockfree/src/mem.c:305-391 | any number of releases and all that they set off come to an end |
| `OrderedLists.StepInv` | src/lockfree/src/ordlist_harris.c:58-310 | every load and compare-and-swap of every thread keeps the list invariant |
| `OrderedListTheorems.RunKeepsInv` | src/lockfree/src/ordlist_harris.c:58-310 | the invariant holds in every state of every interleaving |
| `OrderedListTheorems.ListIsSorted` | src/lockfree/src/ordlist_harris.c:58-170 | the links from head lead strictly ascending to tail, over every unmarked node |
| `OrderedLists.UnlinksMarked` | src/lockfree/src/ordlist_harris.c:140-157 | an unlinking swap that succeeds skips marked nodes only |
| `OrderedListTheorems.OnlyMarkedLeave` | src/lockfree/src/ordlist_harris.c:140-157 | a node leaves the chain only when marked, and only by an unlinking swap |
| `OrderedListTheorems.SetChanges` | src/lockfree/src/ordlist_harris.c:193-310 | the set of keys changes exactly at the inserting swap, by an absent key, and at the marking swap, by a present one |
| `OrderedListTheorems.StepKeepsMarks` | src/lockfree/src/ordlist_harris.c:206-214 | marks and the links of marked nodes never change in a step |
| `OrderedListTheorems.MarksArePermanent` | src/lockfree/src/ordlist_harris.c:206-214 | nor over any run |
| `OrderedListTheorems.LeftIsNode` | src/lockfree/src/ordlist_harris.c:139-157 | the left node of a finished search is a list node before the key and never the tail |
| `OrderedListTheorems.KnowledgeIsTrue` | src/lockfree/src/ordlist_harris.c:65-170 | what a search has learned about its key was true at some moment of that search |
| `OrderedListTheorems.AnswerWasTrue` | src/lockfree/src/ordlist_harris.c:177-204 | linearizability of the answers: what an operation reports about its key held at some moment between its search's start and end |
| `OrderedListService.Searches` | src/lockfree/src/ordlist_harris.c:58-170 | a search that is left alone, whatever other threads are in the middle of, comes to an end between neighbours, and its right node has the key if and only if the key is in the set |
| `OrderedListService.FindAnswers` | src/lockfree/src/ordlist_harris.c:177-190 | a find that is left alone ends with the right answer and leaves the set as it is |
| `OrderedListService.InsertAdds` | src/lockfree/src/ordlist_harris.c:246-310 | an insertion that is left alone ends with exactly its key added |
| `OrderedListService.RemoveDeletes` | src/lockfree/src/ordlist_harris.c:193-243 | a removal that is left alone ends with exactly its key gone |
| `OrderedListService.LeavesWithAnswer` | src/lockfree/src/ordlist_harris.c:177-310 | whatever the others do, an operation ends only with an answer of its search, by adding its key, or with its marked node off the list |
| `OrderedListService.GoesOnCleaning` | src/lockfree/src/ordlist_harris.c:221-233 | a removal that cannot unlink its node goes on to a search for it |
| `HdaQuiescence.StepInv` | src/prastar.cc:71-273 | every access to shared memory by every thread keeps the protocol invariant |
| `HdaQuiescence.FullMeansQuiet` | src/util/completion_counter.cc:44-59 | the counter never exceeds the number of threads flagged completed; full means all are, with nothing open, queued, buffered or half sent |
| `HdaQuiescence.FullStaysFull` | src/prastar.cc:71-79 | no step lowers a full counter |
| `HdaQuiescence.FullCounterMeansQuiescent` | src/prastar.cc:106-141 | in every reachable state a full counter, or the done flag, means no work and no message anywhere |
| `HdaQuiescence.QuiescenceIsFinal` | src/prastar.cc:254-265 | once full the counter stays full over the rest of every run |
| `HdaProgress.FullCanStep` | src/prastar.cc:131-141 | with a full counter no thread has to wait, neither for a message nor for a lock, until it has left |
| `HdaProgress.FullStep` | src/prastar.cc:131-141 | with a full counter every step of every thread brings it one step nearer to its end |
| `HdaProgress.FullCountsDown` | src/prastar.cc:254-265 | once the counter is full a run has at most seven more steps for each thread |
| `HdaProgress.FullCounterEnds` | src/prastar.cc:254-265 | a full counter ends the search: all threads leave and the search is declared over |
| `HdaProgress.ExitMeansDone` | src/prastar.cc:278-284 | no thread leaves before the search has been declared over |
| `HdaLiveness.CanGoOn` | src/prastar.cc:106-309 | in every reachable state a thread that waits neither for a taken lock nor, idle, for messages can go on |
| `HdaLiveness.SomeoneGoesOn` | src/prastar.cc:106-309 | no deadlock: until all threads have left some thread can go on |
| `HdaService.HandsOver` | src/util/msg_buffer.h:37-76 | a sender that has the lock hands over its whole buffer in order, takes the receiver off the counter if it was on it, and tells it of the messages |
| `HdaService.FlushHandsOver` | src/prastar.cc:81-101 | flushing hands over every buffer whose receiver is not locked |
| `HdaService.DeliveryHandsOver` | src/prastar.cc:180-202 | a child of another thread is handed over at once if that thread is not locked |
| `HdaService.BusyOwner` | src/prastar.cc:180-202 | otherwise it stays in the buffer and the thread goes on, or the thread waits for the lock when sends are synchronous |
| `HdaService.ReceivesAll` | src/prastar.cc:149-178 | every queued state is treated once, in order: those with f below the bound lower the recorded costs to the least received, and exactly the states whose cost is new or lower are opened |
| `HdaService.IdleIsCounted` | src/prastar.cc:106-132 | a thread with nothing to search, to read or to send gets itself counted and waits |
| `HdaService.MessagesWake` | src/prastar.cc:131-141 | messages end the wait |
| `HdaService.MessagesFirst` | src/prastar.cc:244-252 | a searching thread works off its messages before it takes its next state |
| `HdaService.TakenIsWeighed` | src/prastar.cc:285-298 | a taken state is dropped if and only if its f is not below the bound |
| `HdaService.ChildIsWeighed` | src/prastar.cc:303-309 | a child goes on its way if and only if its f is below the bound |
| `HdaService.SolutionLowersBound` | src/prastar.cc:360-376 | a goal is entered, the bound falls to the best solution, and the goal is expanded like any other state |
| `HdaMessages.StepRefines` | src/util/msg_buffer.h:37-102 | every step of the locks, flags, buffers and queues is a step of the plain message picture or invisible in it |
| `HdaTheorems.FifoStep` | src/util/msg_buffer.h:37-45 | a step of the picture keeps the order of messages between every two threads |
| `HdaTheorems.MessagesConserved` | src/util/msg_buffer.h:37-102 | for each pair of threads what was treated, then queued, then buffered is exactly what was sent, in order: none lost, duplicated or reordered |
| `HdaTheorems.AllMessagesTreated` | src/prastar.cc:149-178 | when the search is over every message ever sent has been treated, in order |
| `HdaTheorems.BestIsRead` | src/prastar.cc:366-367 | between entering a solution and reading the best one others may enter better ones; what is read is the best of all entered so far |
| `HdaTheorems.SettledBounds` | src/prastar.cc:288-309 | a settled state bounds every solution through it: dropped states had f >= a bound that only falls |
| `HdaTheorems.ResultIsOptimal` | src/prastar.cc:278-376 | at completion, for an admissible heuristic, the bound is at most the cost of every solution and is its initial value or the cost of a solution |
| `SearchNodes.RelinkKeeps` | src/state.cc:77-84 | recording a strictly better way keeps the parent links acyclic, zero-cost edges included, with g(parent) + c <= g(child) |
| `SearchNodes.GetPath` | src/state.cc:120-138 | following the parent links ends at the start and yields a real path that costs at most the recorded g |
| `SearchNodes.Frontier` | src/astar.cc:44-62 | along every solution there is an open node, or a goal, reached at no greater cost |
| `SearchNodes.CheapEnough` | src/state.cc:43-55 | a node of least f' costs at most the weight times any solution through a listed node, in fixed-point arithmetic |
| `AStarSearch.AStar.EnterChild` | src/astar.cc:45-61 | the lists become those that the three cases prescribe (new, improved with or without reopening, dropped); the links stay sound and the lexicographic measure falls or nothing changed |
| `AStarSearch.AStar.Expand` | src/astar.cc:44-63 | after expansion every node not open has been expanded at its current g |
| `AStarSearch.AStar.GoalIsCheap` | src/astar.cc:36-42 | the first goal taken costs at most the weight times the cheapest solution |
| `AStarSearch.AStar.NoneLeft` | src/astar.cc:36 | an empty open list means that no solution exists |
| `AStarSearch.AStar.Search` | src/astar.cc:29-67 | on every finite graph, dd or not, the loop terminates and returns a real path to a goal, none only if no solution exists, and its lists have gone through the rounds of the relation; g \* fp_one <= W \* cost of every solution if nodes are reopened or the heuristic is consistent |
| `DupDropping.TakenWithin` | src/state.h:58-73 | a node that is taken before another costs no more than the weight allows for the way through that other one, in spite of the rounding in f-prime, because ties go to the smaller f |
| `DupDropping.ExpansionIsKnown` | src/astar.cc:44-56 | with a consistent heuristic expanding a node once, never again, makes all ways over its state known within the weight |
| `DupDropping.GoalWithin` | src/astar.cc:36-42 | the first goal that the search without reopening takes is within the weight of every solution |
| `AStarRuns.ReopeningNeeded` | src/astar.cc:49-55 | for every weight an admissible, not consistent heuristic with which every search that drops duplicates exceeds the bound, in the recorded g and in the true cost of the returned path |
| `OptimisticSearch.Optimistic.GetNextState` | src/optimistic.cc:38-52 | a node leaves both queues: without an incumbent, or while the best f-prime is below the incumbent cost in the mixed units, one that is least by f-prime and among those by f; otherwise one that is least by f |
| `OptimisticSearch.Optimistic.FillOpenF` | src/optimistic.cc:86-95 | after the first incumbent both queues hold the same states |
| `OptimisticSearch.Optimistic.SetIncumbent` | src/optimistic.cc:81-99 | the new incumbent is the path to the goal at its g, with both queues equal |
| `OptimisticSearch.Optimistic.Round` | src/optimistic.cc:122-149 | one round treats the node so chosen: a goal becomes the incumbent with its g, anything else leaves the incumbent and is expanded; all invariants are kept, the termination measure falls, and any overwritten incumbent is replaced by a strictly cheaper one |
| `OptimisticSearch.Optimistic.Search` | src/optimistic.cc:115-152 | for a bound >= 1 the search terminates with a path of cost at most bound \* C\*, or none if there is no solution |
| `OptimisticSearch.Optimistic.Proved` | src/optimistic.cc:104-113 | when the loop ends the incumbent is within the bound of every solution |
| `OptimisticSearch.Cheaper` | src/optimistic.cc:38-52 | a goal taken while the incumbent is not yet proved is cheaper, although costs are never compared |
| `IdaStar.CostBoundDFS.IsCycle` | src/cost_bound_dfs.cc:76-85 | true exactly for a state among its own ancestors |
| `IdaStar.CostBoundDFS.Search` | src/cost_bound_dfs.cc:22-60 | terminates; a result is a solution within the bound; without one no simple solution lies inside it and min_pruned is the exact least f of the fringe, 0 if there is none |
| `IdaStar.MakeSimple` | src/cost_bound_dfs.cc:45-48 | skipping cycles loses nothing: every solution has a simple one that costs no more |
| `IdaStar.InsideOrFringe` | src/cost_bound_dfs.cc:27-32 | every simple solution lies inside the bound or leaves it at an f not above its cost |
| `IdaStar.NextBelow` | src/ida_star.cc:76-78 | the next bound never passes the cost of a solution, and 0 means that there is none |
| `IdaStar.NextGrows` | src/ida_star.cc:76-78 | the next bound is strictly greater, and bounded, so the iteration ends |
| `IdaStar.IterativeDeepening` | src/ida_star.cc:39-83 | the path is optimal, none means no solution, and the bounds strictly increase without passing C\* |
| `HashTables.LookupExact` | src/util/hash_table.h:85-96 | in a sorted chain the early exit at a greater hash misses nothing |
| `HashTables.AddSets` | src/util/hash_table.h:98-113 | adding keeps the chain sorted and sets exactly the new element's key, replacing an equal one |
| `HashTables.RemoveAt` | src/util/hash_table.h:174-190 | unlinking removes exactly one key |
| `HashTables.HashTable.constructor` | src/util/hash_table.h:115-133 | an empty map, the array not yet allocated |
| `HashTables.HashTable.NewTable` | src/util/hash_table.h:144-149 | the array appears on first use without changing the map |
| `HashTables.HashTable.DoAdd` | src/util/hash_table.h:233-242 | the map is updated at the element's hash |
| `HashTables.HashTable.Resize` | src/util/hash_table.h:198-219 | ten times the size; the map is kept as far as the chains' indices lie below the old size truncated to 32 bits |
| `HashTables.GrowthIsSafeIff` | src/util/hash_table.h:203-211 | growing loses no entry of any map if and only if the old size is below 2 to the power 32 |
| `HashTables.DefaultSizeOutgrown` | src/util/hash_table.h:123-127 | the default size grown four times is 10000000000, kept as 1410065408, and the key of that number is lost by the next growth |
| `HashTables.HashTable.Add` | src/util/hash_table.h:155-164 | the map is updated at the element's hash, through growth too, and fill rises by one |
| `HashTables.HashTable.Remove` | src/util/hash_table.h:166-193 | exactly the element's key is removed, and fill falls by one only if it was present |
| `HashTables.HashTable.Lookup` | src/util/hash_table.h:249-259 | the result is the map's entry, or none |
| `HashTables.HashTable.Prune` | src/util/hash_table.h:288-309 | the map is empty and so is the count |
| `HashTables.HashTable.DeleteAll` | src/util/hash_table.h:264-283 | the map is empty; the count is left as it was |
| `HashTables.HashTable.Empty` | src/util/hash_table.h:314-318 | the answer is right if and only if fill is zero or the table holds something |
| `HashTables.FreedIsNotEmpty` | src/util/hash_table.h:264-283 | an add followed by delete_all leaves a table that holds nothing and does not call itself empty |
| `HashTables.FillCounts` | src/util/hash_table.h:159-163 | after any sequence of adds fill is the number of entries if and only if no present key was added again |
| `TilesRank.OnesTable` | src/tiles/tiles.cc:56-70 | entry v is the number of ones of v |
| `TilesRank.FactorialTable` | src/tiles/tiles.cc:104-108 | entry i is i! |
| `TilesRank.ComputeHash` | src/tiles/tiles_state.cc:28-43 | masking, counting and setting bits from behind computes the factorial-base rank |
| `TilesRank.DigitFromBehind` | src/tiles/tiles_state.cc:36-41 | the digit computed from later positions is the number of smaller tiles at earlier ones |
| `TilesRank.DigitAtMost` | src/tiles/tiles_state.cc:39 | digit i is at most i |
| `TilesRank.RankBelow` | src/tiles/tiles_state.cc:40 | the rank of n tiles is below n! |
| `TilesRank.UnrankIsPerm` | src/tiles/tiles_state.cc:28-43 | every number below n! is the rank of a permutation |
| `TilesRank.UnrankRank` | src/tiles/tiles_state.cc:28-43 | the permutation is recovered from its rank: with UnrankIsPerm, a bijection |
| `TilesRank.RankInjective` | src/tiles/tiles_state.cc:102-110 | two boards have equal hashes if and only if they are equal |
| `TilesRank.RankFits` | src/tiles/tiles_state.cc:34-40 | all ranks fit into 64 bits if and only if there are at most 20 tiles |
| `TilesBoards.ChildIsBoard` | src/tiles/tiles.cc:163-169 | a move keeps the board a permutation with the blank where it moved to |
| `TilesBoards.NeighboursAreAdjacent` | src/tiles/tiles.cc:204-227 | the positions tried are exactly the adjacent ones on the board |
| `TilesBoards.Expand` | src/tiles/tiles.cc:178-230 | exactly the legal moves other than the one back, each once; each child a board with its blank, its full heuristic value, the cost of the move and its g recorded |
| `TilesBoards.DistanceTable` | src/tiles/tiles.cc:286-314 | the table holds the weighted distances |
| `TilesBoards.ComputeFull` | src/tiles/tiles.cc:356-365 | the loop over the table computes the full sum |
| `TilesBoards.IncrementalIsFull` | src/tiles/tiles.cc:371-380 | the incremental value equals the full sum for every move of every board |
| `TilesBoards.MoveChangesByCost` | src/tiles/tiles.cc:371-380 | a move changes the estimate by exactly plus or minus the moved tile's cost |
| `TilesBoards.ManhattanIsConsistent` | src/tiles/tiles.cc:336-380 | on the state space of ranked boards the estimate falls by at most a move's cost, for any cost function |
| `TilesBoards.ManhattanSuitsDropping` | src/tiles/tiles.cc:336-380 | the state space meets the consistency that a search without reopening needs |
| `TilesBoards.ManhattanIsAdmissible` | src/tiles/tiles.cc:336-380 | the estimate never exceeds the cost of a solution |
| `GridWorlds.Expand4` | src/grid/grid_world.cc:128-160 | from a cell of the grid one child for every cell that is inside, free and at distance one, no other and none twice, at the cost of leaving the cell |
| `GridWorlds.MovesAreLegal` | src/grid/grid_world.cc:138-157 | a cell is among the moves if and only if it is inside the grid, not an obstacle and at distance one, each once |
| `GridWorlds.CostFromIsSum` | src/grid/grid_world.cc:432-442 | the closed form is the sum of the rows left on the way |
| `GridWorlds.ClosedForms` | src/grid/grid_world.cc:450-472 | the two closed forms are the costs of crossing in the upper of both rows and in row 0 |
| `GridWorlds.Concave` | src/grid/grid_world.cc:490-496 | crossing costs are concave in the row: no crossing beats the minimum of the two |
| `GridWorlds.Consistent` | src/grid/grid_world.cc:477-498 | no move lowers the estimate by more than it costs, for any obstacles and both cost types |
| `GridWorlds.GoalIsZero` | src/grid/grid_world.cc:477-498 | zero at the goal |
| `GridWorlds.HeuristicIsAdmissible` | src/grid/grid_world.cc:477-498 | the estimate never exceeds the cost of a solution, whatever the obstacles |
| `GridWorlds.HeuristicIsConsistent` | src/grid/grid_world.cc:477-498 | the state space meets the consistency that a search without reopening needs |
| `GridWorlds.ExactWithoutObstacles` | src/grid/grid_world.cc:477-498 | without obstacles some path costs exactly the estimate |
| `Projections.SymmetricServes` | src/projection.h:22-51 | a symmetric neighbour relation gives inverse lists for which the scope array is long enough |
| `Projections.ScopeIffNeighbour` | src/pbnf/nblock.cc:45-69 | a block interferes with another if and only if it has a neighbour other than itself |
| `Projections.SchedulerAccepts` | src/pbnf/nblock.cc:41-71 | such a projection meets all preconditions of the scheduler's theorems |
| `Projections.MergedList` | src/div_merge_project.cc:33-79 | the loops list in order exactly the other merged blocks that a member leads to |
| `Projections.DivMerge` | src/div_merge_project.cc:28-79 | all merged lists |
| `Projections.MergeInRangeIff` | src/div_merge_project.cc:23-31 | every base block has a merged block if and only if the divisor divides their number |
| `Projections.MergeServes` | src/div_merge_project.cc:23-79 | merging keeps the lists in range and inverse and covers every step that the base projection covers |
| `Projections.MergedScope` | src/div_merge_project.cc:33-79 | a merged block is isolated if and only if no member leads to or from another merged block |
| `GridProjections.RowModServes` | src/grid/grid_world.cc:576-629 | the row projection's neighbours are in range and symmetric |
| `GridProjections.RowModSound` | src/grid/grid_world.cc:576-629 | every step stays in its block or goes to a neighbour, for any number of rows |
| `GridProjections.RowModInterferes` | src/grid/grid_world.cc:617-629 | a block has a neighbour other than itself if and only if the modulus is at least two |
| `GridProjections.CoarseInRangeIff` | src/grid/grid_world.cc:640-702 | all cells fall into existing blocks if and only if each axis is divided by the requested count or the next one |
| `GridProjections.TenByThreeFails` | src/grid/grid_world.cc:648-657 | ten columns in three: a cell whose block does not exist |
| `GridProjections.NeighboursAreSteps` | src/grid/grid_world.cc:736-763 | the listed blocks are exactly those one four-way or eight-way step away |
| `GridProjections.CoarseServes` | src/grid/grid_world.cc:718-763 | in range and symmetric |
| `GridProjections.EvenGridIsSound` | src/grid/grid_world.cc:674-702 | with an even division every legal move is covered |
| `GridProjections.CoarseInterferes` | src/grid/grid_world.cc:708-763 | a block has a neighbour if and only if there are two blocks |
| `GridProjections.WorldIsCovered` | src/grid/grid_world.cc:576-763 | both grid projections cover every move of the four-way world |
| `TilesProjections.NumberPairs` | src/tiles/tiles.cc:384-405 | the loops number all pairs of distinct positions |
| `TilesProjections.NumberTriples` | src/tiles/tiles.cc:495-526 | the loops number all triples of distinct positions |
| `TilesProjections.NumberQuadruples` | src/tiles/tiles.cc:868-903 | the loops number all quadruples of distinct positions |
| `TilesProjections.NumberingIsBijective` | src/tiles/tiles.cc:384-405 | proj and unproj are mutual inverses between the tuples of distinct positions and 0..nnblocks-1, nnblocks being the falling product |
| `TilesProjections.SortThree` | src/tiles/tiles.cc:661-673 | the three tiles in ascending order |
| `TilesBlocks.FindTracked` | src/tiles/tiles.cc:909-936 | one pass over the board finds every tracked tile |
| `TilesBlocks.NeighbourIffStep` | src/tiles/tiles.cc:560-608 | the listed neighbours are exactly the blocks one step away, with or without the blank among the tracked tiles |
| `TilesBlocks.TargetsHaveNumbers` | src/tiles/tiles.cc:943-989 | every neighbour that the loops look up has a number |
| `TilesBlocks.TilesServe` | src/tiles/tiles.cc:730-846 | neighbours are in range and symmetric |
| `TilesBlocks.TilesSound` | src/tiles/tiles.cc:411-473 | every move of every board stays in its block or goes to a listed neighbour |
| `TilesBlocks.BlankBlocksInterfere` | src/tiles/tiles.cc:434-473 | with the blank tracked no block is isolated |
| `TilesBlocks.TileBlocksInterfere` | src/tiles/tiles.cc:730-846 | without the blank no block is isolated either: some tracked tile is next to a free position |

## Left out

- The scheduler variants `wpbnf`, `opbnf`, `arpbnf`, `psdd`, `bfpsdd` and `wbfpsdd`, and the searches `wprastar`, `pastar`, `lpastar`, `kbfs`, `multi_a_star` and `sync_wastar`: repeats of what is proved here, or termination tests that rest on unlocked races.
- `src/lockfree/src/prio_queue.c`, `ordlist_valois.c`, the other lock-free containers and `LF_ClosedList`.
- Optimality of PBNF: a thread that generates a goal abandons the remaining siblings (src/pbnf_search.cc:136-140), so it is not claimed; what is claimed is that no node left in an open list could have improved the bound.
- `should_switch` and `best_in_scope` (src/pbnf_search.cc:158-189, src/pbnf/nblock_graph.cc:200-218): they only decide, from unlocked reads, which of the modelled steps is taken next, and every choice is covered.
- Lazy creation of blocks: all blocks exist from the start, with empty lists.
- NBlockGraphs.NBlockGraph.SetHot: `val`, which the program reads before it has the lock, is a parameter, and may be stale.
- NBlockGraphs.NBlockGraph: the fields of a block are split between the sequences `blocks` and `open`, which the methods reassign; aliasing of block objects is not captured, and the condition variable appears as the results of the methods, which say who is signalled, and as steps of the state machine.
- FreeLists: mark bits of links and the counter `nfreed` are not modelled; a client fills the links of a node from the front and empties them from the back; releases of the links of a claimed node are separate tasks, which covers the recursive and the iterative release in any order, but not the depth limit that switches between them.
- OrderedLists: nodes are not reused while referenced, which is what the free list guarantees; keys are integers, so `cmp` is a total order on them; the in-place replacement of a value and the conditional update's predicate are not modelled.
- HdaStar: the owner of a state is a function of the state, the order in which an open list yields states is arbitrary, the solution stream keeps the cheapest solution only; distribution hashes are not modelled.
- HdaProgress.FullCounterEnds: that a search comes to a full counter at all depends on the graph and on a fair scheduler, and is not claimed.
- FreeListService, OrderedListService: an operation that is left alone finishes; that under steady interference some operation always does is not proved.
- AStarSearch.AStar.Search: the closed list is a map from states to nodes, as the hash table's theorems justify, and not the hash table itself; a domain's omission of the move back to the parent's parent is not modelled.
- OptimisticSearch.Optimistic.Search: the comparison of a fixed-point value with a plain cost in `get_next_state` is kept as it is; floating-point rounding is not modelled.
- IdaStar.IterativeDeepening: of the statistics of the iterations only the bounds are kept; the depth-first search passes the chain of ancestors as a sequence instead of following parent pointers.
- HashTables.HashTable: chains are sequences in the array's slots instead of linked buckets, so pointer updates within a chain are not captured; the buckets' unused size field, freeing of memory, `for_each` and 64-bit overflow of the size are left out.
- TilesRank.ComputeHash: machine words are numbers, shifting is multiplication by powers of two, masking is a remainder.
- TilesBoards.DistanceTable: the 32-bit width of the table's entries is not modelled.
- TilesBlocks.NeighbourIffStep: the four neighbour functions of the tile projections are one function over the list of tracked tiles; the nested vectors `proj` are a map from tuples.
- GridWorlds.HeuristicIsAdmissible: four-way moves only; the eight-way life-cost heuristic is not modelled.
- GridProjections.CoarseInRangeIff: a count above the number of columns or rows is excluded, because the program then divides by zero.
- OpenLists.PQOpenList.Add: the open flag of a node is set by the search that owns the nodes, whose invariant ties it to membership in the list; the size counter is not modelled.
- `PQOpenList::prune`, `delete_all_states` and the heap's comparison by `PQOpsFPrimeGreaterFTieBreaking`, which is not a strict order.
- 64-bit overflow of f', parsing, timers, statistics, operating-system signals, output, and the atomic instructions themselves.
