# tibeecompare: critical paths, call-stack profiles and the structures below them

tibeecompare reads a kernel and user trace, cuts it into executions, explains the duration of each
execution by a critical path through the threads that it waited for, and attributes that time to call
stacks. This project models that core and proves what the pieces promise each other:

* **Critical graph and critical path.** `CriticalGraph.dfy` is the graph as a value and `GraphStore.dfy` the
  object that holds it. `CriticalBlockSpec.dfy` gives the event handlers as a state machine,
  `CriticalBlock.dfy` the object that performs them, `CriticalBlockInvariant.dfy` and
  `CriticalBlockRun.dfy` what every run keeps; `EventLog.dfy` and `EventLogGraph.dfy` read types, interrupts, packets,
  nodes, edges and disk waits off the log of events alone, and prove that every run leaves just those. `PathSpec.dfy`
  says what a critical-path query denotes, with
  the measure under which its mutual recursion ends; `CriticalPath.dfy` computes it with loops and
  recursion. `PathCoverage.dfy` and `PathCoverageExact.dfy` say, window by window, when the path tiles its window
  and that it is faithful to the graph; `PathMeaning.dfy` says at each instant of the window which thread it shows, in
  terms of nodes and links; `PathCausality.dfy` when what it shows led to the moment it explains;
  `CriticalBlockPaths.dfy` and `CriticalBlockCausality.dfy` say the same of the graphs that runs of events build.
  `GraphCleanupSpec.dfy`, `GraphCleanupPaths.dfy` and `CriticalBlockCleanup.dfy` are about removing the old part of a
  graph. `PathExample.dfy`, `PacketExample.dfy`, `PathCausalityExample.dfy` and `CriticalBlockExamples.dfy` are
  concrete graphs and runs: those that meet the hypotheses, and those on which a property fails.
* **Interval tree.** `IntervalTree.dfy` is the left-leaning red-black tree on heap nodes,
  `IntervalTreeSpec.dfy` and `IntervalTreeQuery.dfy` its invariant and what a query reports;
  `DiskRequests.dfy` is its client, which trims it by rebuilding it.
* **Timelines.** `StateHistory.dfy` over `StateHistorySpec.dfy` and `PerfCounterSpec.dfy` (attribute
  histories and the merge of two hardware counters), and `StacksBuilder.dfy` over `StackTimelineSpec.dfy` and
  `StackLogSpec.dfy` (the stacks of each thread, and what the log of their settings says of them).
* **Hash-consed stacks.** `Database.dfy` over `HashConsSpec.dfy`, `ExtractStacks.dfy` (from critical paths to
  samples) over `StackChargesSpec.dfy` (which stacks a path is charged to, as lists of functions) and
  `StackCredits.dfy` (that the identifiers credited are theirs), `ExtractMetrics.dfy`, `BuildBlock.dfy` (one execution from window to samples), `WriteExecutions.dfy`
  over `InclusiveCountsSpec.dfy` (inclusive counts) and `MetricReportSpec.dfy` (names of metrics), and
  `Serialization.dfy` over `SerializationSpec.dfy`.

Objects whose methods update them are classes, with one function giving the value of the object; each method
is proved against a function of the old value, and the properties are proved of those functions.

Graph nodes are named by creation index, as edges are named by edge id in the source. Where a query needs to
end, a ghost `Context` carries a rank that witnesses that the graph is acyclic; for graphs built by the event
handlers creation order is such a rank (`RunIsWellFormed`).

Some behaviour worth knowing, with the member that states it:

* A path tiles its window exactly if the window may end where it does (`WindowIsTiledIff`): its thread lives then,
  and if it is in a wait then, the thread that will end the wait lives too, and so on. Otherwise the path runs past
  the window (`QueryOvershoots`) or stops where the thread did (`EndedThread`). The statement is made window by
  window, for queries whose way is unbroken (`Unbroken`): they meet no gap, and each wait that a packet ended has the
  packet sent within it and received at its end. Windows that no gap and no packet's wake-up meets are among them
  (`MetIsUnbroken`), and so is the window of a wait for a packet (`DeliveryIsExplained`).
* Such a path shows at each instant whom the end of the window waited for then (`PathShows`): the thread itself, from
  the start or else from its earliest wake-up in the window, unless it is in a wait that something ended; then whom
  the thread that ended it shows, and for a packet whom its sender shows until it was sent, and the network from there.
* A gap is a node that is not the last of its thread and has no link out. A window that opens on one gets an empty
  path (`GapIsNotCovered`). In a built graph the gaps are exactly the exits of threads whose id is used again
  (`GapsAreReuses`); three thread statuses make one (`ReturningIsNotCovered`). Without packets all windows are
  covered if and only if every exit is final (`RunAlwaysCoversIff`). A thread's exit while its type is `Unknown` is
  ignored by the status handler, because both compare equal (`OnThreadStatus`).
* A wait that a packet ended is not clipped to the window: it is explained from the time the packet was sent until
  it arrived (`HopIsUnclamped`), so it fits exactly if both are within the wait (`HopTilesIff`); a packet that was sent
  before overlaps what the path already shows, unnoticed exactly where both are segments of the network
  (`EarlyHopTilesIff`).
* What paths show of the time before a thread wakes another led to that wake-up, for all such threads, if and only if
  none of them begins, or goes on with, a wait for a packet at that time (`WakersExplainIff`). Where none does, all of
  a window's path is the thread's own or led to what the thread did by the window's end, if and only if the thread
  itself has no such wait there (`PathIsCausal`). A thread that is recorded as waiting may still wake another; then
  the path of the woken thread shows the packet that will end that wait, neither tiling its window nor explaining it
  (`WaitingWakerMisleads`). Runs in which no thread wakes or sends while it is recorded as waiting are free of this
  (`CalmWakersResume`).
* The documentation of the interval tree says that a query reports all the intervals that intersect it. An
  interval that only touches the low end of the query is reported only if another with the same low bound
  reaches further (`OverlapsAreFound`).
* A query of the disk requests answers from all intervals ever added, whatever the run, exactly if it starts
  strictly after the latest cleanup, or both are at the last representable time (`CleanupsInvisibleIff`). An interval
  that ends at the cleanup's own time can be lost to a query at that time (`CleanupShowsAtItsOwnTime`).
* The base and CPU counter handlers call each other for ever exactly on an unseen attribute whose reading is
  the mark for invalid values (`HandlersStopExactly`).
* Stack durations wrap around exactly for windows that open after the timeline's end (`UnderflowsExactly`).
* Slots and edge table of the critical graph agree both ways exactly as long as no packet's node is linked to
  a second wake-up (`AgreesIffNeverOverwrites`); `Cleanup` relies on that agreement. One interrupt that received a
  packet and wakes two blocked threads breaks it (`TwoWakeUpsOverwrite`).
* The database stays consistent exactly until the identifier after the last of 32 bits is given out
  (`ConsistentUntilWrap`).

## Model

| member | source | states |
|---|---|---|
| CriticalGraphs.Graph.StartingAfter | src/critical/CriticalGraph.cpp:154-172 | the answer is a node of the thread strictly after the time, and no node of the thread in between is missed |
| CriticalGraphs.Graph.SearchFindsLast | src/critical/CriticalGraph.cpp:137-143 | the binary search lands on a latest node at or before the time, or the thread has none |
| CriticalGraphs.Graph.IntersectingIsLast | src/critical/CriticalGraph.cpp:131-152 | the intersecting node, said without the search: the last node up to the time whose link reaches it; none exactly if no such node does |
| CriticalGraphs.Graph.LastIsIntersecting | src/critical/CriticalGraph.cpp:131-152 | every last node whose link reaches the time is the one found |
| CriticalGraphs.Graph.ReachingThreadIntersects | src/critical/CriticalGraph.cpp:131-152 | a thread that has a node before the time and whose last nodes reach it has an intersecting node |
| GraphStore.CriticalGraph.CreateNode | src/critical/CriticalGraph.cpp:110-129 | a fresh unlinked node now, last of its thread; nothing else changes |
| GraphStore.CriticalGraph.CreateHorizontalEdge | src/critical/CriticalGraph.cpp:182-193 | a fresh edge in the table, in the out slot of its source and the in slot of its target |
| GraphStore.CriticalGraph.CreateVerticalEdge | src/critical/CriticalGraph.cpp:195-205 | the same for a wake-up edge in the vertical slots |
| GraphStore.CriticalGraph.CleanNode | src/critical/CriticalGraph.cpp:70-97 | one node's four positions: every edge at it is erased and cleared at its far end; no missing edge id is looked up |
| GraphStore.CriticalGraph.CleanThread | src/critical/CriticalGraph.cpp:64-106 | one thread: its nodes before the cut and all edges at them are gone, the rest is as it was |
| GraphStore.CriticalGraph.Cleanup | src/critical/CriticalGraph.cpp:60-108 | for every order of the threads: exactly the nodes at or after the cut and the edges between two of them survive |
| GraphCleanupSpec.TrimAgrees | src/critical/CriticalGraph.cpp:60-108 | after a cleanup slots and edge table still agree both ways |
| GraphCleanupSpec.TrimThreaded | src/critical/CriticalGraph.cpp:100-106 | after a cleanup threads are still sorted lists of exactly their nodes, and no thread is lost |
| GraphCleanupSpec.NodeIsCutOff | src/critical/CriticalGraph.cpp:70-97 | once its four positions are done no live edge touches the node |
| GraphCleanupPaths.TrimIsWellFormed | src/critical/CriticalGraph.cpp:60-108 | a well-formed graph stays well-formed, so queries on what is left end |
| GraphCleanupPaths.CleanedPathsCover | src/critical/ComputeCriticalPath.cpp:132-223 | coverage survives cleanup: where the query's way is unbroken on what is left, its path is faithful and tiles the window exactly if the window may end there; it is so where no gap after the cut and no packet's wake-up met the window before |
| GraphCleanupPaths.CleanedTypesAgree | src/critical/CriticalGraph.cpp:60-108 | a kept node covers the same instants with the same edge as before the cleanup |
| CriticalPaths.CriticalPath.Insert | src/critical/ComputeCriticalPath.cpp:31-47 | appends a segment or extends the last one of the same thread and type |
| CriticalPaths.ResolveBlockedEdge | src/critical/ComputeCriticalPath.cpp:56-130 | computes what `Resolve` denotes, network hops included, and ends |
| CriticalPaths.ComputeCriticalPathRecursive | src/critical/ComputeCriticalPath.cpp:132-223 | computes what `Query` denotes; both loops and the mutual recursion end by remaining time and waker rank |
| CriticalPaths.StartWithinWindow | src/critical/ComputeCriticalPath.cpp:148-191 | accounts for the time before the thread has a node, by its first waker if there is one, and otherwise by a filler; that it is the earliest wake-up is `ArrivalIs` |
| CriticalPaths.ComputeCriticalPath | src/critical/ComputeCriticalPath.cpp:227-237 | for every well-formed graph, window and thread the path is the query's; where its way is unbroken it is faithful and tiles the window exactly if it may end there, and then shows at every instant whom the window's end waited for; segments that follow each other differ; what it shows of other threads led to the queried one |
| PathMeaning.PathShows | src/critical/ComputeCriticalPath.cpp:132-223 | on an unbroken way whose path tiles the window, each segment shows at every instant the thread and type that the nodes and links give: the thread itself from its earliest wake-up on, or whoever ended its wait, followed back to that instant |
| PathMeaning.QueryShows | src/critical/ComputeCriticalPath.cpp:132-223 | the inductive form: a query adds exactly that to what the path showed before |
| PathMeaning.ResolveShows | src/critical/ComputeCriticalPath.cpp:56-130 | a wait shows itself if nothing ended it, else whom the thread that ended it shows, and for a packet the sender until it was sent and the network until it arrived |
| PathMeaning.ArrivalIs | src/critical/ComputeCriticalPath.cpp:154-173 | the search along the links of an absent thread finds its earliest wake-up of all in the window, and nothing exactly if there is none |
| PathMeaning.OwnRunsAreShown | src/critical/ComputeCriticalPath.cpp:148-222 | from that wake-up on, or from the start if the thread is there, every instant at which the thread's own link is not a wait is shown as its own |
| PathMeaning.ArrivalIsExplained | src/critical/ComputeCriticalPath.cpp:154-167 | before that wake-up the path shows whatever the thread that woke it shows |
| PathMeaning.QueryMerges | src/critical/ComputeCriticalPath.cpp:31-47 | no two segments that follow each other agree in thread and type |
| PathSpec.Context.StepMeasure | src/critical/ComputeCriticalPath.cpp:195-222 | a step of the walk moves forward in time, and a blocked edge that began before the window leads to a node ranked no higher than the waker |
| PathSpec.Context.RankBelowWaker | src/critical/ComputeCriticalPath.cpp:154-173 | why the search for a first waker may recurse: nodes of the thread up to the window's end rank no higher than the node that led here |
| PathSpec.Context.QueryBeforeThread | src/critical/ComputeCriticalPath.cpp:148-191 | the two ways a query starts on a thread that does not exist yet |
| PathCoverageExact.WindowIsTiledIff | src/critical/ComputeCriticalPath.cpp:132-223 | coverage, exactly and window by window, packets included: where the query's way is unbroken, its path is faithful, and it tiles the window, equivalently accounts for exactly its duration, if and only if the window may end where it does |
| PathCoverage.MetIsUnbroken | src/critical/ComputeCriticalPath.cpp:132-223 | the way is unbroken for every window that no gap of any thread and no packet's wake-up meets |
| PathCoverageExact.PathReaches | src/critical/ComputeCriticalPath.cpp:132-223 | on an unbroken way the path tiles from the window's start up to some time, which is its end if and only if the window may end there |
| PathCoverageExact.QueryOvershoots | src/critical/ComputeCriticalPath.cpp:132-223 | if it may not, and its thread has a node at or after its end, the path runs past the end |
| PathCoverageExact.EndedThread | src/critical/ComputeCriticalPath.cpp:195-222 | a window that outlasts its thread is tiled up to the thread's last node |
| PathCoverageExact.SilentThread | src/critical/ComputeCriticalPath.cpp:175-190 | a window that opens after its thread's last node is filled, as a wait, up to its end |
| PathCoverageExact.CoverageIffGapless | src/critical/ComputeCriticalPath.cpp:132-223 | without packets, all windows that may end where they do are tiled if and only if no thread has a gap |
| PathCoverage.GapIsNotCovered | src/critical/ComputeCriticalPath.cpp:195-197 | the failing family: a window that opens on an unlinked node and closes at a later one of its thread gets no path |
| PathCoverage.QueryIsGood | src/critical/ComputeCriticalPath.cpp:132-223 | the inductive form: a query of a window that may end where it does extends a tiling, faithful path over it |
| PathCoverage.WalkIsGood | src/critical/ComputeCriticalPath.cpp:195-222 | the walk along a thread keeps the path tiling and faithful up to the window's end |
| PathCoverage.StepIsGood | src/critical/ComputeCriticalPath.cpp:198-222 | one link of it, also a wait over the end of the window |
| PathCoverage.ResolveIsGood | src/critical/ComputeCriticalPath.cpp:56-130 | so does explaining a blocked edge, clipped to the window, by the thread that ended the wait |
| PathCoverage.CrossingEndsWell | src/critical/ComputeCriticalPath.cpp:119-129 | a wait over the window's end is ended by a thread on which the clipped window may end as well |
| PathCoverage.NodeEndsWell | src/critical/ComputeCriticalPath.cpp:132-223 | a window may always end at a node of its thread, however the waits before it were ended |
| PathCoverage.InsertKeepsGood | src/critical/ComputeCriticalPath.cpp:31-47 | merging segments keeps the tiling and the type of every instant |
| PathCoverage.CoverIsUnique | src/critical/CriticalGraph.cpp:131-152 | an instant of a thread is covered by one edge, so faithfulness pins its type |
| PathCoverage.TiledTime | src/execution/ExtractMetrics.cpp:44-56 | a tiling, faithful path accounts for exactly its window |
| PathExample.HypothesesHold | src/critical/ComputeCriticalPath.cpp:132-223 | the hypotheses of coverage can be met: a concrete graph in which one thread wakes another, with a window that ends after the wait and one that ends within it |
| PathExample.WaitIsExplained | src/critical/ComputeCriticalPath.cpp:56-223 | its path, segment by segment: the change of thread, the run of the waker, the run of the woken thread |
| PathExample.WaitIsCut | src/critical/ComputeCriticalPath.cpp:56-223 | the path of the window that ends within the wait: the change of thread and the run of the waker until then |
| PathCoverage.QueryBeforeNext | src/critical/ComputeCriticalPath.cpp:175-190 | a thread with no node yet is filled, as a wait, up to its next node even where that is after the window, or up to the window's end if there is none |
| PathCoverageExact.HopIsUnclamped | src/critical/ComputeCriticalPath.cpp:82-109 | a network hop ends when the packet arrived, however early the window ends, and begins when it was sent, where that is before the window |
| PathCoverageExact.HopTilesIff | src/critical/ComputeCriticalPath.cpp:82-109 | a wait is tiled by a hop if and only if the packet was sent within it and arrived at its end |
| PathCoverageExact.EarlyHopTilesIff | src/critical/ComputeCriticalPath.cpp:31-47 | a packet sent before the wait that it ended breaks the tiling if and only if the segment before is not one of the network of the same type, with which it merges |
| PathCausality.WakersExplainIff | src/critical/ComputeCriticalPath.cpp:56-223 | causality, exactly: everything that paths show of the time before threads wake others led to those wake-ups, by thread order, wake-ups and packets' links, if and only if no such thread begins or goes on with a wait for a packet there |
| PathCausality.PathIsCausal | src/critical/ComputeCriticalPath.cpp:132-223 | for windows: all segments are the thread's own within the window or led to a node of it no later than its first at or after the window's end, if and only if the thread does not begin or go on with a wait for a packet there |
| PathCausality.QueryIsCausal | src/critical/ComputeCriticalPath.cpp:132-223 | the inductive form: a query up to a node shows what led to that node |
| PathCausality.OverrunIsShown | src/critical/ComputeCriticalPath.cpp:82-109 | a window that ends where a wait for a packet begins, or goes on, is given the packet's way beyond its end |
| PathCausalityExample.WaitingWakerMisleads | src/critical_blocks/CriticalBlock.cpp:278-332 | a run of eight events on which a path neither tiles its window nor explains it: a thread recorded as waiting wakes another, and a packet ends its own wait later |
| CriticalBlocks.CriticalBlock.CutThread | src/critical_blocks/CriticalBlock.cpp:412-439 | ends the thread's current edge at a new node, or does nothing without a last node or type |
| CriticalBlocks.CriticalBlock.OnTTWUBetweenThreads | src/critical_blocks/CriticalBlock.cpp:278-301 | records the disk wait, cuts both threads and joins the cuts, stopping where the source returns |
| CriticalBlocks.CriticalBlock.OnWakeupFromInterrupt | src/critical_blocks/CriticalBlock.cpp:303-346 | network wake-ups grow the network thread; others replace the type of a blocked thread, and disk interrupts record its wait (over runs: `RunFollows`) |
| CriticalBlocks.CriticalBlock.OnTTWU | src/critical_blocks/CriticalBlock.cpp:133-149 | dispatch on the interrupt context of the CPU |
| CriticalBlocks.CriticalBlock.EnterInterrupt | src/critical_blocks/CriticalBlock.cpp:151-158 | pushes an interrupt context with no packet |
| CriticalBlocks.CriticalBlock.LeaveInterrupt | src/critical_blocks/CriticalBlock.cpp:160-173 | pops a matching context, leaves any other |
| CriticalBlocks.CriticalBlock.OnInetSockLocalIn | src/critical_blocks/CriticalBlock.cpp:220-246 | moves a packet's node to the context on top, and forgets the packet |
| CriticalBlocks.CriticalBlock.OnInetSockLocalOut | src/critical_blocks/CriticalBlock.cpp:248-276 | outside interrupts, joins the cut sender to a new network node and remembers it |
| CriticalBlocks.CriticalBlock.OnThreadStatus | src/critical_blocks/CriticalBlock.cpp:348-396 | a changed status makes a new node, linked by the old type if there is one; an exit drops the type |
| CriticalBlocks.CriticalBlock.OnThreadName | src/critical_blocks/CriticalBlock.cpp:398-410 | threads whose name starts with jbd2, other than 0, are disk threads |
| CriticalBlocks.CriticalBlock.Process | src/critical_blocks/CriticalBlock.cpp:118-131 | any run of events leaves the state that `Run` says, and its invariant |
| CriticalBlockInvariant.HandleInv | src/critical_blocks/CriticalBlock.cpp:133-439 | every handler keeps the invariant: edges go from older to newer nodes, wake-ups take no time, slots resolve, neighbours are linked unless the first is an exit node |
| CriticalBlockInvariant.CutThreadInv | src/critical_blocks/CriticalBlock.cpp:412-439 | cutting a thread keeps the invariant and the new node is the thread's last |
| CriticalBlockInvariant.OnThreadStatusInv | src/critical_blocks/CriticalBlock.cpp:348-396 | so does a change of status, which alone makes exit nodes and unlinked ones |
| CriticalBlockInvariant.OnInetSockLocalOutInv | src/critical_blocks/CriticalBlock.cpp:248-276 | so does sending a packet |
| CriticalBlockInvariant.NetworkWakeUpInv | src/critical_blocks/CriticalBlock.cpp:312-332 | so does a wake-up by a received packet |
| CriticalBlockRun.Run | src/critical_blocks/CriticalBlock.cpp:133-439 | every run of events with nondecreasing timestamps satisfies the invariant |
| EventLogs.RunFollows | src/critical_blocks/CriticalBlock.cpp:133-439 | after every run each thread's type is the one of its last status, or of the interrupt that woke it since from a blocked wait without a packet; interrupts, packets, last nodes, disk threads and the recorded disk waits, bounds included, are what the log says |
| EventLogs.RunAdds | src/critical_blocks/CriticalBlock.cpp:133-439 | the last event of a run adds to the graph exactly the nodes, links and wake-ups that the log before it gives, in that order |
| EventLogGraphs.RunIsOfLog | src/critical_blocks/CriticalBlock.cpp:133-439 | in every run each node is of a thread its event marks, at its time; each link of a thread has the type that the log gave the thread when the node it leads to was made, a link of the network is a run; each wake-up is by the event that made both its nodes, from the thread that wakes, or the network for an interrupt, to the one woken |
| EventLogs.TypesStandFor | src/critical_blocks/CriticalBlock.cpp:36-86 | which software interrupts and lines, by name, and which statuses give each type |
| CriticalBlockRun.RunIsAcyclic | src/critical_blocks/CriticalBlock.cpp:133-439 | no chain of edges of a built graph returns: it ends at a younger node than it started from |
| CriticalBlockRun.ConsecutiveNodesAreLinked | src/critical_blocks/CriticalBlock.cpp:379-395 | consecutive nodes of a thread are linked to each other unless the first is an exit node |
| CriticalBlockRun.RunIsWellFormed | src/critical_blocks/CriticalBlock.cpp:133-439 | with distinct times per thread, a built graph meets every hypothesis of the path queries, ranked by creation order |
| CriticalBlockRun.RunOffline | src/critical_blocks/CriticalBlock.cpp:248-346 | a run that sends no packet never creates a network node |
| CriticalBlockPaths.RunExits | src/critical_blocks/CriticalBlock.cpp:348-396 | in every run exit nodes never get a link out |
| CriticalBlockPaths.GapsAreReuses | src/critical_blocks/CriticalBlock.cpp:348-396 | the gaps of a built graph are the threads that return after an exit, in every window and in the whole graph |
| CriticalBlockPaths.RunsAreCovered | src/critical_blocks/CriticalBlock.cpp:133-439 | from events to paths, window by window: on an unbroken way through a built graph the path is faithful and tiles the window exactly if it may end where it does; the way is unbroken where no exit and return of one thread and no packet's wake-up meets the window |
| CriticalBlockPaths.RunAlwaysCoversIff | src/critical_blocks/CriticalBlock.cpp:133-439 | a run without packets covers all windows that may end where they do if and only if every exit is final |
| CriticalBlockCausality.CalmWakersResume | src/critical_blocks/CriticalBlock.cpp:248-346 | in a run in which no thread wakes another or sends while its type is a wait, no waker begins or goes on with a wait for a packet |
| CriticalBlockCausality.CalmRunsAreCausal | src/critical_blocks/CriticalBlock.cpp:133-439 | so the paths of its windows, packets included, show what led to their threads, unless the window ends in a wait for a packet |
| PacketExample.DeliveryIsExplained | src/critical_blocks/CriticalBlock.cpp:220-332 | a run with a packet that meets all of these hypotheses: the path of the wait is the sender's run and the packet's way |
| CriticalBlockExamples.ReturningIsNotCovered | src/critical_blocks/CriticalBlock.cpp:348-396 | three statuses of one thread whose graph has a window that may end where it does and gets no path |
| CriticalBlockExamples.TwoWakeUpsOverwrite | src/critical_blocks/CriticalBlock.cpp:312-332 | a run after which slots and table disagree: one interrupt receives a packet and wakes two waiting threads |
| CriticalBlockExamples.SecondWakeUpOverwrites | src/critical_blocks/CriticalBlock.cpp:312-332 | the reason: after a wake-up by a packet the interrupt's node is linked, and the next blocked thread links it again |
| CriticalBlockCleanup.HandleTable | src/critical_blocks/CriticalBlock.cpp:133-439 | an event keeps slots and table in agreement unless it links a packet's node a second time |
| CriticalBlockCleanup.AgreesIffNeverOverwrites | src/critical_blocks/CriticalBlock.cpp:312-332 | a run leaves slots and table in agreement if and only if none of its events does that |
| CriticalBlockCleanup.RunMayBeCleaned | src/critical/CriticalGraph.cpp:60-108 | such a run may be cleaned up at any time, and the result agrees and is well-formed |
| CriticalBlockCleanup.OfflineNeverOverwrites | src/critical_blocks/CriticalBlock.cpp:312-332 | runs without packets are such runs |
| ExtractMetrics.ExtractTimingMetrics | src/execution/ExtractMetrics.cpp:32-63 | per-type times, modulo the word size, and the mismatch report exactly when they do not add up to the duration |
| ExtractMetrics.TypeTimesAddUp | src/execution/ExtractMetrics.cpp:44-56 | the time of a path is the sum of the times of its types |
| ExtractMetrics.TypeTimeCounts | src/execution/ExtractMetrics.cpp:44-56 | the time of a type is the number of instants of the window at which a tiling path shows it |
| ExtractMetrics.StatusNames | src/critical/GetStatusString.cpp:27-30 | the name under which each type is shown on stacks, so that codes and names go together |
| ExtractMetrics.CoveredPathMatches | src/execution/ExtractMetrics.cpp:58-62 | a path that tiles the execution's window never raises the mismatch report |
| BuildBlocks.SaveExecution | src/build_blocks/BuildBlock.cpp:158-172 | the mismatch is reported exactly if the path does not account for the execution's duration, which on an unbroken way is exactly if the window may not end where it does; otherwise path, metrics and samples all account for the duration; the samples are exactly the charges of the path |
| IntervalTreeSpec.InsertKeepsValid | src/containers/RedBlackIntervalTree.hpp:225-266 | insertion keeps search order, sorted elements, cached maxima, black heights and colours, and adds exactly the element |
| IntervalTreeSpec.InsertAllContents | src/containers/RedBlackIntervalTree.hpp:225-266 | so does every sequence of insertions |
| IntervalTreeSpec.InsertBelowKeepsSearch | src/containers/RedBlackIntervalTree.hpp:238-266 | search order, contents and cached maxima through flips and rotations |
| IntervalTreeSpec.InsertBelowKeepsColours | src/containers/RedBlackIntervalTree.hpp:238-266 | equal black heights, no two reds in a row, a red right child only beside a red left one |
| IntervalTreeSpec.MaxHighIsMaximum | src/containers/RedBlackIntervalTree.hpp:400-406 | the cached maximum bounds every element of the subtree and is attained |
| IntervalTreeSpec.AddElementOk | src/containers/RedBlackIntervalTree.hpp:374-380 | the elements of a node stay sorted by high bound, on one low bound |
| IntervalTreeSpec.AddElementContents | src/containers/RedBlackIntervalTree.hpp:374-380 | exactly one element is added to the node |
| IntervalTreeSpec.RotateLeftKeepsSearch | src/containers/RedBlackIntervalTree.hpp:306-320 | a left rotation keeps order, contents and cached maxima |
| IntervalTreeSpec.RotateRightKeepsSearch | src/containers/RedBlackIntervalTree.hpp:322-337 | so does a right rotation |
| IntervalTreeQuery.EnumerateIsExact | src/containers/RedBlackIntervalTree.hpp:268-304 | a query reports exactly the elements that meet it and share their low bound with one reaching past its start, each as often as inserted, ascending by low and descending by high bound |
| IntervalTreeQuery.EnumerateSelects | src/containers/RedBlackIntervalTree.hpp:268-304 | the pruned traversal equals a plain filter of the ordered listing |
| IntervalTreeQuery.QueryOfInsertions | src/containers/RedBlackIntervalTree.hpp:225-304 | what is reported depends on what was inserted, not on the shape of the tree |
| IntervalTreeQuery.OverlapsAreFound | src/containers/RedBlackIntervalTree.hpp:268-304 | every strict overlap is found, nothing that misses is reported, and a touching element exactly if a longer sibling exists |
| IntervalTreeQuery.HeightByBlackHeight | src/containers/RedBlackIntervalTree.hpp:225-266 | n nodes of black height b: n is at least 2^b - 1, and the height at most 2b |
| IntervalTreeQuery.HeightIsLogarithmic | src/containers/RedBlackIntervalTree.hpp:225-266 | the height is at most twice the logarithm of the number of nodes plus one |
| IntervalTrees.TreeNode.SetLeft | src/containers/RedBlackIntervalTree.hpp:138-141 | relinks the left child in place and refreshes the cached maximum |
| IntervalTrees.TreeNode.SetRight | src/containers/RedBlackIntervalTree.hpp:150-153 | the same on the right |
| IntervalTrees.TreeNode.Add | src/containers/RedBlackIntervalTree.hpp:374-380 | adds an element in place, sorted, and refreshes the cached maximum |
| IntervalTrees.FlipNode | src/containers/RedBlackIntervalTree.hpp:339-351 | flips the colours of a node and its children in place |
| IntervalTrees.RotateNodeLeft | src/containers/RedBlackIntervalTree.hpp:306-320 | the rotation on heap nodes, within its footprint |
| IntervalTrees.RotateNodeRight | src/containers/RedBlackIntervalTree.hpp:322-337 | the rotation on heap nodes, within its footprint |
| IntervalTrees.InsertInternal | src/containers/RedBlackIntervalTree.hpp:238-266 | the recursive insertion on heap nodes refines the insertion on trees; all new nodes are fresh |
| IntervalTrees.RedBlackIntervalTree.Insert | src/containers/RedBlackIntervalTree.hpp:224-229 | a tree in order stays in order with exactly that element more |
| IntervalTrees.RedBlackIntervalTree.EnumerateIntersection | src/containers/RedBlackIntervalTree.hpp:231-236 | the calls to the callback, in order |
| IntervalTrees.EnumerateIntersectionInternal | src/containers/RedBlackIntervalTree.hpp:268-304 | the traversal on heap nodes with its three prunings |
| DiskRequestsSpec.CleanIsTransparent | src/disk/DiskRequests.cpp:63-74 | right after a cleanup, queries from its time on return the elements they did before |
| DiskRequestsSpec.RunKeepsLive | src/disk/DiskRequests.cpp:63-79 | a run keeps nothing that was not added, and everything that ends after all its cleanups |
| DiskRequestsSpec.CleanupsAreInvisible | src/disk/DiskRequests.cpp:63-99 | over any interleaving, queries strictly after all cleanups answer as if nothing had been cleaned |
| DiskRequestsSpec.CleanupShowsAtItsOwnTime | src/disk/DiskRequests.cpp:63-74 | a query at a cleanup's own time may miss an interval that ended then |
| DiskRequestsSpec.CleanupShowsBefore | src/disk/DiskRequests.cpp:63-74 | a query before a cleanup misses every interval that ended by then |
| DiskRequestsSpec.CleanupsInvisibleIff | src/disk/DiskRequests.cpp:63-99 | all runs with a given latest cleanup answer a query from all intervals ever added if and only if it starts after that cleanup, or both are at the last representable time |
| DiskRequestsStore.DiskRequests.AddInterval | src/disk/DiskRequests.cpp:76-79 | one more insertion in the tree |
| DiskRequestsStore.DiskRequests.CleanupBefore | src/disk/DiskRequests.cpp:63-74 | the tree rebuilt from what a query from the cut on reports |
| DiskRequestsStore.DiskRequests.GetIntervals | src/disk/DiskRequests.cpp:90-99 | strictly after all cleanups, the answer over all intervals ever added |
| StateHistorySpec.LookupRefinesLog | src/state/StateHistory.cpp:44-109 | lookups at or after all cleanup times return the last logged write at or before their time, and fail exactly if there is none |
| StateHistorySpec.LoggedLookup | src/state/StateHistory.cpp:44-177 | the same of the histories of all attributes together and one log of their writes and cleanups |
| StateHistories.StateHistory.GetUIntegerValue | src/state/StateHistory.cpp:87-109 | at or after all cleanups made, the last value written to the attribute up to the time, and none exactly if there is none |
| StateHistories.StateHistory.GetULongValue | src/state/StateHistory.cpp:155-177 | the same for long values, hardware counters included |
| StateHistorySpec.LookupRecord | src/state/StateHistory.cpp:75-85 | a write, even a deduplicated one, answers later lookups and does not affect earlier ones |
| StateHistorySpec.LookupTruncate | src/state/StateHistory.cpp:44-73 | a cleanup does not change lookups from its time on |
| StateHistorySpec.EnumerateTiles | src/state/StateHistory.cpp:111-141 | the callbacks tile the covered part of the window, none if that is empty, each with the value looked up at its instants |
| StateHistorySpec.EnumerateTruncate | src/state/StateHistory.cpp:44-141 | a cleanup at or before the start of a window changes nothing of its enumeration |
| PerfCounterSpec.MergeIsExact | src/state/StateHistory.cpp:179-248 | over every run of readings for which the handlers return, the merged value is exactly what the readings give: each thread reading, and each CPU reading that is neither a first one nor a restart, makes it the larger of itself and the value stored after that counter's previous reading plus the increase since; any other leaves it |
| PerfCounterSpec.MergedLookup | src/state/StateHistory.cpp:179-258 | a lookup at any time answers that value after the readings taken by then, and nothing before the first |
| PerfCounterSpec.MergedCounterBounds | src/state/StateHistory.cpp:179-258 | over any interleaving the merged value is between the larger count and the sum of both |
| PerfCounterSpec.StoredNeverDecreases | src/state/StateHistory.cpp:179-248 | stored values never decrease, wrap-around included |
| PerfCounterSpec.HandlersStopExactly | src/state/StateHistory.cpp:179-198 | when the two handlers stop calling each other, exactly, and with what result |
| PerfCounterSpec.InvalidReadingLoops | src/state/StateHistory.cpp:179-198 | the failing family: they never stop on the invalid reading of an unseen attribute |
| StateHistories.StateHistory.SetUIntegerValue | src/state/StateHistory.cpp:75-85 | records the value now unless it repeats the last one |
| StateHistories.StateHistory.EnumerateUIntegerValues | src/state/StateHistory.cpp:111-141 | the calls made, and their partition of the window |
| StateHistories.StateHistory.SetULongValue | src/state/StateHistory.cpp:143-153 | the same for long values |
| StateHistories.StateHistory.SetPerfCounterCpuBaseValue | src/state/StateHistory.cpp:179-188 | moves the CPU reference point; only that attribute changes |
| StateHistories.StateHistory.SetPerfCounterCpuValue | src/state/StateHistory.cpp:190-214 | advances the merged value by the CPU counter's increase, or restarts it |
| StateHistories.StateHistory.SetPerfCounterThreadValue | src/state/StateHistory.cpp:216-248 | the same for the thread counter (over runs of both: `MergeIsExact`) |
| StateHistories.StateHistory.CleanupBefore | src/state/StateHistory.cpp:44-73 | every history is truncated, in whatever order of the keys |
| HashConsSpec.FunctionsInjective | src/db/Database.cpp:385-433 | one list of functions has at most one identifier |
| HashConsSpec.PushAppends | src/execution/ExtractStacks.cpp:265-273 | pushing functions one by one denotes appending them: every list has an identifier |
| HashConsSpec.PushFindsExisting | src/db/Database.cpp:389-403 | a list that is interned is found again, and nothing is stored |
| HashConsSpec.ConcatUnit | src/execution/ExtractStacks.cpp:244-248 | the empty stack is a unit on both sides |
| HashConsSpec.ConcatAssociative | src/execution/ExtractStacks.cpp:244-279 | concatenation is associative on identifiers |
| HashConsSpec.CacheNeverChangesAnswer | src/execution/ExtractStacks.cpp:250-254 | a remembered answer is the one that would be computed, and computing it would store nothing |
| HashConsSpec.NamesRoundTrip | src/stacks/StacksBuilder.cpp:251-265 | unwinding the identifier of a list of names gives back the list |
| HashConsSpec.AddStackDenotes | src/db/Database.cpp:385-433 | an interned cell denotes its parent's functions and its own on top |
| HashConsSpec.ConsistentUntilWrap | src/db/Database.cpp:611-638 | the records stay consistent exactly until the identifier after the last one is given out |
| Databases.Database.AddFunctionName | src/db/Database.cpp:297-344 | the identifier of the name, a new one exactly if it is not there, also when identifiers wrap around |
| Databases.Database.GetFunctionName | src/db/Database.cpp:267-295 | the name of the identifier, cached or not, absent where the source throws |
| Databases.Database.AddStack | src/db/Database.cpp:385-433 | the identifier of the cell, a new one exactly if it is not there, on any bottom and also when identifiers wrap around |
| Databases.Database.GetStack | src/db/Database.cpp:346-383 | the cell of the identifier, cached or not, absent where the source throws |
| StackTimelineSpec.EnumerateByStack | src/stacks/StacksBuilder.cpp:184-208 | an enumeration credits each stack with exactly the instants of the window at which the thread was on it |
| StackLogSpec.LookupIsSetting | src/stacks/StacksBuilder.cpp:52-228 | over every run of settings, closings, renamed system calls and cleanups, a lookup at a time that no cleanup has passed answers the stack last set by then, until the last closing, and none outside |
| StackLogSpec.PutAnswers | src/stacks/StacksBuilder.cpp:69-88 | setting a stack changes no answer before now, and from now on it is the new stack, with its system-call flag, unless it repeats the current one |
| StackLogSpec.RelabelAnswers | src/stacks/StacksBuilder.cpp:156-166 | renaming a system call changes the answers within its interval only, and keeps its flag |
| StackLogSpec.CallReturns | src/stacks/StacksBuilder.cpp:90-139 | a system call that starts and ends leaves the stack it was made from in force, not as a system call's |
| StackTimelineSpec.SetStackKeepsContiguous | src/stacks/StacksBuilder.cpp:69-88 | each interval ends where the next starts, up to now, and the last is the new stack |
| StackTimelineSpec.EnumerateTotal | src/stacks/StacksBuilder.cpp:184-208 | durations never wrap and add up to the window clipped to the timeline |
| StackTimelineSpec.UnderflowsExactly | src/stacks/StacksBuilder.cpp:203-206 | they wrap exactly if the window opens after the timeline ends |
| StackTimelineSpec.GetStackIsScan | src/stacks/StacksBuilder.cpp:210-228 | the binary search finds what a scan of all intervals finds |
| StackTimelineSpec.TruncateKeepsLookups | src/stacks/StacksBuilder.cpp:52-67 | a cleanup does not change lookups from its time on |
| StackTimelineSpec.TruncateDropsEnded | src/stacks/StacksBuilder.cpp:52-67 | it drops only intervals that have ended |
| StackTimelineSpec.RunSegmentIsAccounted | src/execution/ExtractStacks.cpp:84-101 | sampled and unexplained time of a run segment are exactly its duration |
| StacksBuilders.StacksBuilder.SetStack | src/stacks/StacksBuilder.cpp:69-88 | ends the current interval now and starts another if the stack differs; the log of settings grows by that one, and all timelines still answer as the log does |
| StacksBuilders.StacksBuilder.GetStackIdentifier | src/stacks/StacksBuilder.cpp:251-265 | the stack of the names, or of "empty"; its names are the ones given |
| StacksBuilders.StacksBuilder.EndSystemCall | src/stacks/StacksBuilder.cpp:113-139 | only inside a system call: sets the stack that was in force, by the log, before the current one was set, or the stack named "No Stack" if there was none |
| StacksBuilders.LongSyscallIsLatest | src/stacks/StacksBuilder.cpp:148-175 | the search finds the latest system call of at least the minimum duration among the intervals it may look at, and nothing exactly if there is none |
| StacksBuilders.StacksBuilder.SetLastSystemCallStack | src/stacks/StacksBuilder.cpp:141-176 | relabels the last long system call within 20 intervals, once, with its call on the user stack |
| StacksBuilders.StacksBuilder.EnumerateStacks | src/stacks/StacksBuilder.cpp:184-208 | the calls made add up to the overlap of window and timeline |
| StacksBuilders.StacksBuilder.GetStack | src/stacks/StacksBuilder.cpp:210-228 | agrees with a scan of the thread's intervals, and at times that no cleanup has passed is the stack in force by the log of settings |
| StacksBuilders.StacksBuilder.Terminate | src/stacks/StacksBuilder.cpp:242-249 | the last interval of every thread ends now |
| StacksBuilders.StacksBuilder.Cleanup | src/stacks/StacksBuilder.cpp:52-67 | every timeline is truncated, in whatever order of the threads |
| Executions.Execution.IncrementSample | src/execution/Execution.hpp:102-104 | adds to the sample of a stack |
| Executions.IncrementAdds | src/execution/Execution.hpp:102-104 | the total of the samples grows by exactly what was added |
| ExtractStacks.StacksExtractor.PushOnStack | src/execution/ExtractStacks.cpp:235-242 | one named function on top of a stack |
| ExtractStacks.StacksExtractor.ConcatenateStacks | src/execution/ExtractStacks.cpp:244-279 | with its cache, computes the identifier whose functions are those of both stacks in order |
| ExtractStacks.StacksExtractor.SampleCallback | src/execution/ExtractStacks.cpp:281-296 | credits a sample to its stack on top of the thread's clean stack |
| ExtractStacks.StacksExtractor.CreditCalls | src/execution/ExtractStacks.cpp:86-92 | the callbacks of an enumeration, in order, and their total |
| StackCredits.CreditAdds | src/execution/ExtractStacks.cpp:281-296 | crediting a timeline conserves its time |
| ExtractStacks.StacksExtractor.AddRunSegment | src/execution/ExtractStacks.cpp:84-101 | samples of a run segment grow by exactly its duration, the rest being credited to "No stack" |
| StackCredits.OnTopMeans | src/execution/ExtractStacks.cpp:319-352 | each thread is on the stack of threads at most once, and the current one ends on top |
| ExtractStacks.StacksExtractor.EnsureCurrentThreadIsOnThreadsStack | src/execution/ExtractStacks.cpp:319-358 | raises a known thread, or puts a new one on the full stack of the last, and refills its stack |
| ExtractStacks.StacksExtractor.AddBlockedSegment | src/execution/ExtractStacks.cpp:102-119 | credits a wait to its status on the full stack of the thread |
| ExtractStacks.StacksExtractor.AddSegment | src/execution/ExtractStacks.cpp:83-213 | any segment but disk and CPU waits: the samples grow by exactly its charges, on what its own thread was put on, which total its duration |
| ExtractStacks.StacksExtractor.ExtractSegment | src/execution/ExtractStacks.cpp:74-219 | one round: brings the segment's thread to the top, charges the segment, refills the stack; the identifiers kept stand for the frames |
| ExtractStacks.StacksExtractor.ExtractStacks | src/execution/ExtractStacks.cpp:64-220 | over a whole path without disk and CPU waits the samples grow by exactly the charges of its segments, and in total by exactly the time of the path |
| StackChargesSpec.ComesOnTop | src/execution/ExtractStacks.cpp:319-347 | a thread that the path comes to is put, under its label, on the stack that the thread before it has at the end of that one's segment, and the first on the base |
| StackChargesSpec.GoesBack | src/execution/ExtractStacks.cpp:348-352 | a thread that the path goes back to is on what it was put on before |
| StackChargesSpec.FramesNest | src/execution/ExtractStacks.cpp:328-353 | going back to a thread leaves the threads that came after it; another comes on top of all |
| StackChargesSpec.SegmentIsCharged | src/execution/ExtractStacks.cpp:83-213 | a segment is charged for exactly its duration, to stacks that all stand on what its own thread was put on |
| StackChargesSpec.RunIsCharged | src/execution/ExtractStacks.cpp:84-101 | a run charges each stack for exactly the instants at which its thread was on it |
| StackChargesSpec.WaitIsCharged | src/execution/ExtractStacks.cpp:102-119 | any other segment is charged whole to its status: waits on the thread's own stack at their end, or if there is none at their start |
| StackChargesSpec.DenotesOne | src/db/Database.cpp:385-433 | one list of labels and functions has one identifier, so the samples say which list each charge went to |
| StackCredits.CallsAreCharged | src/execution/ExtractStacks.cpp:281-296 | the identifiers credited for a timeline stand for the thread's stacks on top of what it was put on |
| WriteExecutions.Report.EnsureStacksInMap | src/report/WriteExecutions.cpp:47-85 | afterwards the maps are closed under parents, list each cell once under its parent, and only stacks below sampled ones were added |
| WriteExecutions.Report.WriteSamples | src/report/WriteExecutions.cpp:87-117 | each count is the sum of the samples of all stacks whose chain contains the stack, written in thousands where not zero |
| WriteExecutions.Report.WriteExecution | src/report/WriteExecutions.cpp:119-165 | every metric is written once under a name of its own; the root's count is the sum of all samples, whatever executions shared the maps before |
| WriteExecutions.WriteMetrics | src/report/WriteExecutions.cpp:134-153 | in whatever order of the metrics: times under a letter in microseconds, counters under an index as they are, and nothing else |
| MetricReportSpec.MetricKeysDiffer | src/report/WriteExecutions.cpp:140-152 | no two metrics are written under one name |
| MetricReportSpec.DecimalIsRead | src/report/WriteExecutions.cpp:149-151 | the index of a counter is written in decimal digits that are read as it |
| InclusiveCountsSpec.AddKeepsMaps | src/report/WriteExecutions.cpp:75-84 | adding a cell under its parent keeps every cell listed exactly once |
| InclusiveCountsSpec.DescendantsSplit | src/report/WriteExecutions.cpp:93-109 | a stack's descendants are itself and those through its children |
| InclusiveCountsSpec.ThroughNext | src/report/WriteExecutions.cpp:99-104 | children of one stack share no descendant, so nothing is counted twice |
| InclusiveCountsSpec.RootCountsAll | src/report/WriteExecutions.cpp:161 | the root counts every sample |
| SerializationSpec.RoundTrip | src/db/Database.cpp:120-244 | reading back what was written for any execution, in any iteration order of its maps and whatever follows, restores every field and stops at the end |
| SerializationSpec.PrefixIsRejected | src/db/Database.cpp:164-244 | no strict prefix of what was written is accepted |
| SerializationSpec.RecordIsLocal | src/db/ReadBuffer.hpp:29-37 | what a reader accepts in a prefix it reads alike in the whole buffer, within the prefix |
| SerializationSpec.DecodeEncode | src/db/WriteBuffer.hpp:28-34 | a value that fits its type survives memory |
| SerializationSpec.ByteIsDigit | src/db/WriteBuffer.hpp:28-34 | each byte of a value is its digit of that weight, least significant first |
| SerializationSpec.FieldsAt | src/db/Database.cpp:120-132 | where each field of the metadata lies, and that nothing else does |
| SerializationSpec.EntriesAreAt | src/db/Database.cpp:134-162 | a map's size comes first, and each entry, key before value, at its place in the order met |
| Serialization.Writer.WriteMetadata | src/db/Database.cpp:120-132 | the six fields, in order |
| Serialization.Writer.WriteMap | src/db/Database.cpp:134-162 | the number of entries and the entries, each key once, in the order met |
| Serialization.Reader.ReadBuffer | src/db/ReadBuffer.hpp:29-37 | reads a value and advances, or fails without moving |
| Serialization.Reader.ReadExecutionMetadata | src/db/Database.cpp:164-192 | fails exactly where a field is cut off, and otherwise sets them all |
| Serialization.Reader.ReadExecutionMetrics | src/db/Database.cpp:194-218 | the entries read replace the metrics of their ids |
| Serialization.Reader.ReadExecutionSamples | src/db/Database.cpp:220-244 | the entries read add to the samples of their stacks |
| Serialization.StoreAndRead | src/db/Database.cpp:530-559 | an execution written and read back is the same, and nothing of the buffer is left |

## Left out

- ComputeCriticalPath: equal timestamps within a thread are excluded (`StrictTimes`), because the recursion need not end on them even in an acyclic graph.
- WindowIsTiledIff: queries whose way is broken. Of these there are the path that opens on a gap (`GapIsNotCovered`), that of one hop (`HopTilesIff`) and a run (`WaitingWakerMisleads`). A segment is merged with one of the same thread and type before it whatever their times, which can hide a break (`EarlyHopTilesIff`); so an unbroken way is sufficient for tiling, and not necessary. PathReaches, QueryOvershoots, EndedThread and the inductive lemmas ask for the same.
- PathShows: windows that the path does not tile, and queries whose way is broken, as WindowIsTiledIff. The inductive lemmas ask for the same.
- LookupIsSetting: times before a cleanup of the thread's intervals.
- CoverageIffGapless: graphs with a wake-up by a packet, as RunAlwaysCoversIff leaves out runs that send one; single windows of these are met by `WindowIsTiledIff`.
- PathIsCausal: a chain of causes may pass over a gap of a thread, and from one packet to a later one where a query does not ask for the packet: where a thread's first wake-up, or one whose packet's sending has been removed, is by the network.
- CleanedPathsCover: speaks of the cleaned graph itself; a window that opens before a thread's first kept node is answered as if the thread began there.
- CriticalBlock: handlers that run after a cleanup of the same graph, where packet tables may name removed nodes. `Process` is a run without cleanup. Thread statuses for the network pseudo-thread are excluded.
- CriticalBlock: the decoding of trace events, the current state (thread on a CPU) and quarks; events carry what the handlers read from them. The fatal and diagnostic messages are not modelled.
- CriticalBlock: its calls to the disk requests are recorded as a sequence of intervals rather than made on the shared object.
- Graph nodes are values in a map named by creation index; pointers into the graph, and their aliasing, are not modelled.
- ExtractStacks: paths with disk waits (each overlapping request is charged the whole segment, and a request of the waiting thread itself ends the extraction) and with CPU waits (which recurse through the current state of the CPUs, with no evident measure). Samples are not conserved on the first.
- AddSegment: excludes the same two types of segment, for the same reasons, as ExtractSegment does.
- SaveExecution: excludes executions whose path has such a segment, as ExtractStacks does.
- ExtractStacks: the concatenation cache is one per extractor; in the source it is shared by all extractors of the process.
- ExtractStacks: thread names are parameters; the bound on new cells that the path method asks for keeps identifiers from running out.
- ExtractMetrics: the performance-counter metrics of a path.
- AddStack: after identifiers have wrapped around, what the records then denote; `ConsistentUntilWrap` says when that is. All methods that intern stacks ask for enough unused identifiers:
- GetStackIdentifier: asks for as many as names are given.
- EndSystemCall: asks for one cell.
- SetLastSystemCallStack: asks for one cell.
- PushOnStack: asks for one name and one cell.
- ConcatenateStacks: asks for the cells of the upper stack.
- SampleCallback: asks for the cells of the sample's stack.
- CreditCalls: asks for the cells of all samples.
- AddRunSegment: asks for the cells of all samples and of "No stack".
- ExtractSegment: asks for the cells that its segment may add.
- EnsureCurrentThreadIsOnThreadsStack: asks for the thread's cell and those of its stack.
- AddBlockedSegment: asks for the cells of the thread's stack and of its status.
- Increment: sums of samples are unbounded, where the source wraps at 64 bits.
- AddElement: elements of equal bounds stay in order of arrival; the source's sort leaves their order open.
- RedBlackIntervalTree: the element type is the thread id of its one client, not a parameter.
- MergeIsExact: runs in which a handler does not return, which is on the invalid mark at an unseen attribute alone (`HandlersStopExactly`).
- MergedCounterBounds: overflow and readings equal to the invalid mark are excluded, and thread readings may not go back.
- EnumerateTiles: windows that are empty or reversed.
- WriteSamples: the counts written are a map from stack to count; their order in the output, and the writer's text, are not modelled.
- WriteExecution: the compile-time threshold, which is off, and the order in which the writer is called.
- RoundTrip: the names of an execution are stored as identifiers; the string table behind them is not modelled. Sizes of the platform's types are parameters.
- The database's key order, files and batches: records are maps by kind, and each addition is atomic.
- EnumerateExecutions: the sampling of executions by approximate sizes.
- BuildBlock: only the treatment of one execution; saving intervals, cleanups on a clock and the bookkeeping of active executions are left out.
- Symbol lookup, command line, notification and service plumbing, the profiler's rewind of the clock, and the special-purpose blocks.
