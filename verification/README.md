# Verified core of the LinkFlow workflow platform

LinkFlow runs workflows: graphs of nodes joined by connections. This project models the parts of it that carry the
hard logic and proves what they guarantee, for every input, every run and every interleaving.

| part | files |
|---|---|
| Workflow graphs: cycle checks, topological order, levels, critical path, execution paths, parallel groups | `Workflow`, `Graph`, `CycleCheck`, `Degrees`, `Dag`, `TopologicalOrder`, `Validator`, `Levels`, `CriticalPath`, `ExecutionPaths`, `ParallelGroups` |
| Event-sourced aggregates: the store, the repository, concurrent clients | `EventStore`, `Aggregate`, `Interleavings`, `Coherence`, `Factories` |
| In-memory rate limiter and its cleaner | `RateLimiter`, `RateBounds`, `RateWindows` |
| Orchestrator: run loop and table of pending requests | `QueueOrder`, `RunLoop`, `Precedence`, `RunPrecedence`, `PendingRequests`, `ResponseOrigins` |
| Saga, execution queue, node metrics | `Saga`, `PriorityQueue`, `NodeMetrics` |

`Option.dfy` holds the shared option type. `dafny verify dfyconfig.toml` checks everything.

## How the code is modelled

- Loops stay loops and objects stay classes. Each method is tied to a specification (a path property of the graph, a
  function of the old state, an invariant), and the laws are lemmas about that specification.
- A map is walked in an arbitrary order, as Go walks it, so results hold for every order.
- Node execution, cancellation, database inserts (also of snapshots), new identifiers, the clock and the aggregate's
  own state and encoding are parameters. The clock never goes back.
- Concurrency is a state machine. A store transaction, and a section under a mutex, is one step; anything may happen
  between two steps.
- A *closed* workflow is one whose connections join declared nodes only.

## Where the code does less than its comments say

In each case the model follows the code.

- **Topological order.** The length comparison takes a workflow that is not closed for sorted when undeclared targets
  make up for missing nodes, and exactly then (`GetTopologicalOrder`). For closed workflows the result is exact.
- **Levels and execution paths.** Both end exactly when no cycle is in reach of a start node; otherwise the
  queue never empties (`NeverSettles`) and the recursion does not return (`ReturnsExactly`).
- **Critical path.** A trigger with incoming connections has its distance reset, so a longer path through it can be
  missed (`EntryWithIncoming`, `LongestExactly`).
- **Parallel groups.** The dependency key joins identifiers with commas, so identifiers that contain commas can put a
  node in a group with its own successor (`CommaMisgroups`, `CommasExactly`).
- **Validation.** The checks for end nodes and for unreachable nodes can never fail where they stand (`Dag.Validate`).
- **Full replay.** `Repository.Load` sets the identifier only from a snapshot; after a full replay the aggregate has
  the one that the factory gave it. Loads keep the identifier exactly when the factory knows it (`IdentifiersExactly`).
  Version and state are those of a full replay also when the factory generates identifiers (`GeneratedIdsReplay`),
  though such an aggregate cannot be saved (`NewIdCannotSave`). They go wrong exactly when a replay can end with the
  identifier of another aggregate, whose snapshot is then overwritten (`LoadsExactly`, `ForeignIdCorruptsSnapshot`).
  Versions and conflicts are right in any case (`RunsSequenced`).
- **Rate limiter.** The limit per window is exceeded across windows: `MostIsExact` gives the exact maximum for every
  window, with the cleaner at work. It is one less than twice the limit up to 15 minutes and grows with every further
  15 minutes. The cleaner can lift a block early for windows above 45 minutes (`SweepsUnobservableExactly`), and raises
  the maximum for some windows above an hour.
- **Queue.** `Dequeue` takes the last slot of the heap, not its root (`DequeueIsFifoOnlyForOne`, `QueueIsStack`).
- **Run loop.** A node runs as soon as one predecessor has run (`RunsBeforePredecessor`). All predecessors come first,
  however the workflow is listed, exactly when every connection leads further away from the triggers (`RunsExactly`).
- **Pending requests.** Reusing the identifier of a waiter that has not returned, and only that, can leave a waiter that
  no response reaches (`FreeIdExactly`, `ResponsesFound`).
- **Saga.** A cancelled run whose compensations succeed reports success (`UnfinishedSuccessExactly`).

## Model

| member | source | states |
|---|---|---|
| `Workflows.BuildEdges` | pkg/contracts/workflow/dag.go:42-46 | The adjacency map holds, for every source, its targets in connection order with parallel edges kept, and has a key only for nodes with an outgoing edge. |
| `Workflows.ArrivingAfter` | pkg/contracts/workflow/dag.go:247-252 | Removing one node from the graph lowers the in-degree of every other node by exactly the number of parallel edges between them: the counting law behind the in-degree sort. |
| `Workflows.ArrivingIsZero` | pkg/contracts/workflow/dag.go:231-237 | A remaining in-degree is zero exactly when every predecessor has been taken out. |
| `Workflows.LastNodeStays` | pkg/contracts/workflow/dag.go:32-36 | Of several nodes with one identifier, the node map holds the last. |
| `CycleCheck.CycleSearch.HasCycleDFS` | pkg/contracts/workflow/dag.go:111-128 | The recursive search answers true only when a path from a root closes on itself; answering false, it has ranked every finished node above its successors, restored the recursion stack and marked the node visited. It terminates on every graph. |
| `CycleCheck.CycleSearch.CheckNeighbors` | pkg/contracts/workflow/dag.go:116-124 | After the neighbour loop finds nothing, every neighbour is visited and off the recursion stack. |
| `CycleCheck.RankedNoCycle` | pkg/contracts/workflow/dag.go:107-139 | A ranking that falls along every edge, such as the finishing times of the search, rules out every cycle in reach of the roots: the completeness half of the search. |
| `CycleCheck.HasCycleAnyOrder` | pkg/contracts/workflow/validator.go:128-171 | Whatever order the map of nodes is walked in, the answer is true exactly when a cycle is in reach of the given nodes. |
| `CycleCheck.HasCycleListOrder` | pkg/contracts/workflow/workflow.go:197-238 | The copy that walks the node list answers the same question: true exactly when a cycle is in reach of a declared node. |
| `Dags.Dag.constructor` | pkg/contracts/workflow/dag.go:17-61 | The built graph represents the workflow: adjacency, node map, start nodes (no incoming edge, trigger or webhook) and end nodes (no outgoing edge), each listed once. |
| `Dags.CollectStarts` | pkg/contracts/workflow/dag.go:48-53 | The start nodes are listed without repetition and are exactly the declared nodes with no incoming edge or of an entry type. |
| `Dags.CollectEnds` | pkg/contracts/workflow/dag.go:55-60 | The end nodes are listed without repetition and are exactly the declared nodes with no outgoing edge. |
| `Dags.Dag.HasCycle` | pkg/contracts/workflow/dag.go:107-139 | True exactly when a cycle is in reach of a declared node. |
| `Dags.MarkReachable` | pkg/contracts/workflow/dag.go:145-161 | The breadth-first marking marks exactly the nodes joined to a start by a path, and terminates on cyclic graphs too. |
| `Dags.Dag.FindUnreachableNodes` | pkg/contracts/workflow/dag.go:142-176 | Lists, once each, exactly the enabled declared nodes that no path from a start node reaches. |
| `Dags.Dag.CheckConnections` | pkg/contracts/workflow/dag.go:71-81 | Succeeds exactly when both ends of every connection are declared; an error names an endpoint that is really used and really undeclared. |
| `Dags.Dag.ValidateNodeDependencies` | pkg/contracts/workflow/dag.go:179-215 | Succeeds exactly when every enabled, non-entry node has an incoming edge, every merge at least two and every condition at least two outgoing; each error names a node that breaks that very rule. |
| `Dags.Dag.Validate` | pkg/contracts/workflow/dag.go:64-104 | Accepts exactly the nonempty, acyclic, closed workflows whose nodes have the inputs they need. Without a cycle in reach, a connection error is the answer exactly when the workflow is not closed, and it names an undeclared source or target of a connection. The errors for missing end nodes and for unreachable nodes are never returned, and the one for missing start nodes only for the empty workflow. |
| `Dags.StartsReachAll` | pkg/contracts/workflow/dag.go:84-96 | In every acyclic closed workflow every declared node is reachable from a start node. |
| `Dags.AllReachEnds` | pkg/contracts/workflow/dag.go:55-60 | In every acyclic closed workflow a path leads from every declared node to an end node. |
| `Dags.ClosedFacts` | pkg/contracts/workflow/dag.go:84-96 | A closed workflow that passes the cycle check is acyclic, has start and end nodes unless it is empty, and has no unreachable node. |
| `Degrees.CountFromEdges` | pkg/contracts/workflow/dag.go:220-229 | In-degrees counted over the adjacency map, in any order, are the numbers of connections arriving at each node. |
| `Degrees.CountFromConnections` | pkg/contracts/workflow/validator.go:353-362 | In-degrees counted over the connection list are the same numbers. |
| `TopologicalOrder.SortByDegree` | pkg/contracts/workflow/dag.go:231-260 | On any graph, closed or not: the order holds, once each and with predecessors first, exactly the nodes that no cycle and no unlisted identifier leads to, and the sort succeeds exactly when these are as many as the node count. |
| `TopologicalOrder.LowerDegrees` | pkg/contracts/workflow/dag.go:247-252 | Lowers each neighbour by its number of parallel edges and queues, once, exactly the neighbours that reach zero. |
| `TopologicalOrder.GetTopologicalOrder` | pkg/contracts/workflow/dag.go:218-261 | On a closed workflow it succeeds exactly when the cycle check is negative, and the result is then a permutation of the nodes with every connection pointing forward. If all targets are declared, it succeeds exactly when the workflow is closed and acyclic. On any workflow it succeeds with other nodes than the declared ones exactly when undeclared nodes stand in for declared ones, equally many and at least one. |
| `TopologicalOrder.ClosedSorts` | pkg/contracts/workflow/dag.go:255-258 | The count comparison that decides success is, for closed workflows, equivalent to the absence of a cycle. |
| `TopologicalOrder.RootedIsSorted` | pkg/contracts/workflow/dag.go:240-253 | When the queue is empty no node without a bad ancestor is left out of the order. |
| `TopologicalOrder.SortedIsRooted` | pkg/contracts/workflow/dag.go:240-253 | A node in the order has only finite, repetition-free histories inside the counted nodes. |
| `TopologicalOrder.TargetsSort` | pkg/contracts/workflow/dag.go:255-258 | With all targets declared, the count comparison is equivalent to the workflow being closed and acyclic, so only undeclared targets can mislead it. |
| `TopologicalOrder.OpenWorkflowMissorted` | pkg/contracts/workflow/dag.go:255-258 | For every choice of four identifiers there is an acyclic workflow that is not closed, for which success is reported although an undeclared node is listed and a declared one is missing. |
| `Validators.Validator.BuildNodeMap` | pkg/contracts/workflow/validator.go:83-92 | Succeeds exactly when identifiers are distinct and none is left from an earlier call; on a new validator it then holds the node map. |
| `Validators.Validator.ValidateNoCycles` | pkg/contracts/workflow/validator.go:128-171 | Succeeds exactly when no cycle is in reach of the nodes of the map. |
| `Validators.Validator.GetTopologicalOrder` | pkg/contracts/workflow/validator.go:348-395 | The second copy of the sort meets the same contract as the first, on any workflow and, with the node map built, on closed ones. |
| `Validators.ChecksAgree` | pkg/contracts/workflow/validator.go:128-171 | On every workflow whose node map can be built all three cycle checks give the same answer, and both sorts succeed or fail together with the same nodes; on closed ones they succeed exactly when no cycle is found. |
| `Levels.CalculateLevels` | pkg/contracts/workflow/dag.go:304-334 | Terminates whenever no cycle is in reach of the start nodes, and each level is the number of edges of a longest path from a start node (-1 for a declared node no start reaches). |
| `Levels.NeverSettles` | pkg/contracts/workflow/dag.go:319-331 | When a cycle is in reach of a start node the queue is never empty after any number of turns: the condition on `CalculateLevels` is exact. |
| `Levels.SettledLevels` | pkg/contracts/workflow/dag.go:319-333 | Whenever the queue does run empty the labels are the longest-path levels and no cycle is in reach. |
| `Levels.TurnsLabel` | pkg/contracts/workflow/dag.go:319-331 | Every state the relabelling loop passes through keeps its invariant: labels are lengths of real paths and only queued nodes may have an edge that does not rise. |
| `Levels.DrainQueue` | pkg/contracts/workflow/dag.go:319-331 | The loop empties the queue, keeping that invariant. |
| `Levels.RaiseNeighbors` | pkg/contracts/workflow/dag.go:324-330 | The inner loop raises and queues exactly the neighbours whose level is too low. |
| `Levels.Initialize` | pkg/contracts/workflow/dag.go:305-317 | Every declared node starts at -1, start nodes at 0 and in the queue. |
| `Levels.EdgesGoUp` | pkg/contracts/workflow/dag.go:303-334 | In a closed acyclic workflow every edge goes strictly up in level. |
| `CriticalPath.GetCriticalPath` | pkg/contracts/workflow/dag.go:337-391 | A nonempty result is always a real path to an end node. On every closed acyclic workflow it starts at a node without predecessors and is at least as long as any chain of nodes with no start node after its first; no path of the workflow has more nodes if some longest path is such a chain, as when entries have no incoming connections. |
| `CriticalPath.ScanOrder` | pkg/contracts/workflow/dag.go:344-370 | After the scan each distance is the node count of a longest path with no start node after its first, and each parent is the predecessor that gave it. |
| `CriticalPath.SettledSegment` | pkg/contracts/workflow/dag.go:348-361 | When a node comes up in the order its distance is final and longest. |
| `CriticalPath.RelaxNeighbors` | pkg/contracts/workflow/dag.go:363-369 | The neighbour loop raises exactly the distances that are too small and records the new parent with them. |
| `CriticalPath.FindEnd` | pkg/contracts/workflow/dag.go:372-380 | The chosen end has the greatest distance of all end nodes. |
| `CriticalPath.FollowParents` | pkg/contracts/workflow/dag.go:382-388 | The parent chain is followed to its root; it terminates because parents come earlier in the order. |
| `CriticalPath.ChainIsCritical` | pkg/contracts/workflow/dag.go:372-390 | The parent chain of the chosen end is a critical path. |
| `CriticalPath.UnbrokenIsLongest` | pkg/contracts/workflow/dag.go:336-391 | If some longest path of the workflow meets no start node after its first, every critical path is longest. |
| `CriticalPath.CriticalIsLongest` | pkg/contracts/workflow/dag.go:336-391 | If entry nodes have no incoming connections, a critical path is a longest path of the whole workflow. |
| `CriticalPath.CriticalPathMatchesLevels` | pkg/contracts/workflow/dag.go:303-391 | The critical path has one node more than the greatest level of `CalculateLevels`, and its last node has that level. |
| `CriticalPath.LongestExactly` | pkg/contracts/workflow/dag.go:349-361 | A kind of node may have incoming connections without spoiling the result exactly when it is neither trigger nor webhook: for exactly those kinds is every critical path of every closed acyclic workflow longest, when entries of other kinds have no incoming connection. |
| `CriticalPath.EntryWithIncoming` | pkg/contracts/workflow/dag.go:351-357 | For both entry kinds and every five distinct identifiers there is a closed acyclic workflow whose one critical path has two nodes although a path of three exists. |
| `ExecutionPaths.GetExecutionPaths` | pkg/contracts/workflow/dag.go:264-292 | Every list occurs exactly as often as there are ways to choose connections along it from a start node to a node with none; it terminates whenever no cycle is in reach of a start. |
| `ExecutionPaths.Search` | pkg/contracts/workflow/dag.go:267-284 | The recursion from a prefix adds each continuation exactly as often as it can be walked. |
| `ExecutionPaths.PathsAreComplete` | pkg/contracts/workflow/dag.go:263-292 | The returned lists are exactly the paths from a start node to a node with no outgoing edge; one occurs once exactly when no two connections join the same pair along it. |
| `ExecutionPaths.SomeWay` | pkg/contracts/workflow/dag.go:267-284 | A list can be walked in some way exactly when it is a path that runs out of edges. |
| `ExecutionPaths.OneWay` | pkg/contracts/workflow/dag.go:267-284 | It can be walked in exactly one way exactly when no pair on it is joined twice. |
| `ExecutionPaths.ReturnsExactly` | pkg/contracts/workflow/dag.go:267-290 | The calls of the recursive closure for all start nodes return within some depth exactly when no cycle is in reach of a start node: the condition on `GetExecutionPaths` is exact. |
| `ExecutionPaths.PathNests` | pkg/contracts/workflow/dag.go:267-284 | Calls that return are nested at least as deeply as every path from their node is long. |
| `ExecutionPaths.RecursionUnbounded` | pkg/contracts/workflow/dag.go:267-284 | With a cycle in reach of a start node there are paths longer than any bound. |
| `ParallelGroups.BuildExecutionGraph` | pkg/contracts/workflow/execution.go:178-208 | The groups of a workflow: pairwise disjoint, of two or more members each, and two dependent nodes share a group exactly when their dependency keys are equal. |
| `ParallelGroups.BuildDependencies` | pkg/contracts/workflow/execution.go:191-202 | A node with incoming connections maps to their sources in connection order; no other node has an entry. |
| `ParallelGroups.CreateDependencyKey` | pkg/contracts/workflow/execution.go:236-243 | The accumulated string is the key the grouping laws are about. |
| `ParallelGroups.KeyInjective` | pkg/contracts/workflow/execution.go:236-243 | Comma-free dependency lists with the same key are the same list. |
| `ParallelGroups.GroupByKey` | pkg/contracts/workflow/execution.go:212-221 | Every dependent node is filed once, under its own key. |
| `ParallelGroups.IdentifyParallelGroups` | pkg/contracts/workflow/execution.go:211-233 | Exactly the keys with more than one node become groups, with the size as concurrency. |
| `ParallelGroups.GroupedByDependencies` | pkg/contracts/workflow/execution.go:211-233 | With comma-free sources two nodes share a group exactly when they have the same dependency list. |
| `ParallelGroups.SameDependenciesApart` | pkg/contracts/workflow/execution.go:211-233 | In an acyclic workflow no path joins two nodes with the same dependencies. |
| `ParallelGroups.GroupMembersApart` | pkg/contracts/workflow/execution.go:178-243 | In an acyclic workflow with comma-free sources no path in either direction joins two members of a group. |
| `ParallelGroups.CommasExactly` | pkg/contracts/workflow/execution.go:211-243 | An identifier is harmless exactly when it has no comma: for exactly those are the members of every group of every acyclic workflow unconnected, when all other sources are comma-free. |
| `ParallelGroups.CommaMisgroups` | pkg/contracts/workflow/execution.go:236-243 | For every identifier with a comma there is an acyclic workflow in which that node and its direct successor share a group. |
| `ParallelGroups.WordsSpell` | pkg/contracts/workflow/execution.go:236-243 | Every string followed by a comma is the key of a list of comma-free identifiers, its words: the inverse of the key. |
| `EventStore.EventTable.constructor` | pkg/eventsourcing/store.go:64-69 | A new store has no events and no snapshots. |
| `EventStore.EventTable.Save` | pkg/eventsourcing/store.go:72-118 | All or nothing: succeeds exactly when the versions continue the stored ones without a gap and every insert is accepted, and then appends all events in order, each as given except that an empty identifier is filled in; otherwise the table is as before. |
| `EventStore.EventTable.Load` | pkg/eventsourcing/store.go:121-129 | Returns the rows of the aggregate and no others, each as often as the table holds it, by rising version. |
| `EventStore.EventTable.LoadFromVersion` | pkg/eventsourcing/store.go:132-140 | Returns those with a greater version, each as often as the table holds it, by rising version. |
| `EventStore.EventTable.LoadSnapshot` | pkg/eventsourcing/store.go:143-155 | Returns the stored snapshot of the aggregate, or none. |
| `EventStore.EventTable.SaveSnapshot` | pkg/eventsourcing/store.go:158-177 | If the insert succeeds the aggregate keeps one snapshot, the one just written, and others are untouched; if not, the old one is back. |
| `EventStore.ByVersionSorts` | pkg/eventsourcing/store.go:121-129 | Ordering by version returns the same rows, each as often, with rising versions. |
| `EventStore.ReadAsWritten` | pkg/eventsourcing/store.go:121-129 | A log with versions 1 to n is read in the order in which it was written. |
| `EventStore.OrderIsForced` | pkg/eventsourcing/store.go:121-129 | It is the only arrangement of its rows with rising versions, so the query has no choice. |
| `EventStore.CurrentIsLength` | pkg/eventsourcing/store.go:191-199 | With versions 1 to n the greatest stored version is the number of events. |
| `EventStore.AfterIsSuffix` | pkg/eventsourcing/store.go:132-140 | With versions 1 to n the events after a version are the rest of the log. |
| `Aggregates.AggregateRoot.constructor` | pkg/eventsourcing/aggregate.go:26-37 | A new root is at version 0 with no changes and the initial state. |
| `Aggregates.AggregateRoot.ApplyEvent` | pkg/eventsourcing/aggregate.go:51-65 | Moves to the version of the event, applies it, and records it exactly when it is new. |
| `Aggregates.AggregateRoot.ApplyChange` | pkg/eventsourcing/aggregate.go:40-48 | Records one new event numbered one above the current version, for the own identifier and with the given body, and applies it. |
| `Aggregates.AggregateRoot.LoadFromEvents` | pkg/eventsourcing/aggregate.go:78-82 | Replays events in order without recording them: the version of the last, the state folded over all, identifier and changes as before. |
| `Aggregates.AggregateRoot.MarkChangesAsCommitted` | pkg/eventsourcing/aggregate.go:90-92 | Forgets the recorded changes and nothing else. |
| `Aggregates.LoadedReplays` | pkg/eventsourcing/aggregate.go:78-82 | Loading is a replay: version of the last event, state folded over all of them, identifier and pending changes unchanged. |
| `Aggregates.ReplayConcat` | pkg/eventsourcing/aggregate.go:141-178 | Replaying a log in two parts gives the state of replaying it whole. |
| `Aggregates.ReplayStamped` | pkg/eventsourcing/store.go:93-96 | Row identifiers filled in by the store do not change the replayed state. |
| `Aggregates.Repository.Load` | pkg/eventsourcing/aggregate.go:141-178 | With a snapshot: nothing if it cannot be read, otherwise its aggregate with the later events replayed. Without one: nothing for an empty log, otherwise the whole log replayed on the initial state, under the identifier of the factory. |
| `Aggregates.Repository.Save` | pkg/eventsourcing/aggregate.go:181-224 | Succeeds exactly when there is nothing to save or the store accepts the changes; then the events are stored and the changes forgotten. Snapshots change only if the version is a multiple of 10, and then only the entry of the own identifier; a snapshot that cannot be encoded or stored does not fail the call. On failure nothing moves. |
| `Interleavings.NextSequenced` | pkg/eventsourcing/store.go:72-118 | Every step of every client, whatever identifiers loads leave behind, keeps the stored versions 1 to n, held changes numbered on from the version loaded, and snapshots free of changes. |
| `Interleavings.RunsSequenced` | pkg/eventsourcing/store.go:72-118 | Hence this holds after every run from the empty store, for every interleaving. |
| `Interleavings.TableAppends` | pkg/eventsourcing/store.go:77-107 | In every run the stored events only grow by appending. |
| `Interleavings.VersionsConsecutive` | pkg/eventsourcing/store.go:85-91 | After every run the stored versions of each aggregate are exactly 1, 2, ..., n. |
| `Interleavings.SavesIffCurrent` | pkg/eventsourcing/store.go:77-91 | A save is accepted exactly when the aggregate has changes and the log of its identifier is as long as the version they start from. |
| `Interleavings.OvertakenForever` | pkg/eventsourcing/store.go:77-91 | In every run, a client whose aggregate was overtaken is rejected at every later attempt until it loads again. |
| `Interleavings.AtMostOneSaves` | pkg/eventsourcing/store.go:77-107 | In every run, of two clients at the same version, once one has saved the other is rejected at every later attempt. |
| `Interleavings.SnapshotsAtTenthVersions` | pkg/eventsourcing/aggregate.go:195-197 | After every run, each stored snapshot is under its own identifier and has a version that is a multiple of 10. |
| `Interleavings.RowsOriginate` | pkg/eventsourcing/aggregate.go:40-48 | After every run, each stored row was made by a change step of a client that held the aggregate of the row at the version before, and has the body of that change. |
| `Coherence.NextCoherent` | pkg/eventsourcing/aggregate.go:141-200 | Every step of every client keeps the state invariant, as long as no full replay of an aggregate ends with the identifier of another one: every snapshot equals a replayed prefix of its log, every held aggregate is a replayed prefix plus its own changes or can never be saved, and identifiers that no aggregate was created with have no events and no snapshot. |
| `Coherence.RunsCoherent` | pkg/eventsourcing/aggregate.go:141-200 | Hence it holds after every run, for every interleaving, whether the factory restores identifiers or generates new ones. |
| `Coherence.LoadMatchesReplay` | pkg/eventsourcing/aggregate.go:141-178 | After every such run, a load whose two reads may be separated by steps of other clients yields the version and state of replaying the whole current log, with no pending changes, or nothing if there are no events. |
| `Coherence.SavesCreated` | pkg/eventsourcing/aggregate.go:181-191 | A save is accepted only for an aggregate that is grounded in the log of its own identifier. |
| `Coherence.CompletedIsReplay` | pkg/eventsourcing/aggregate.go:141-178 | Completing a load from any earlier snapshot, or from none, gives the version and state of a full replay and no pending changes; the identifier comes from the snapshot, and without one from the factory. |
| `Coherence.TailReplayed` | pkg/eventsourcing/aggregate.go:150-162 | A snapshot state carried on by the later events is the state of the whole log. |
| `Coherence.NewIdCannotSave` | pkg/eventsourcing/aggregate.go:141-178 | An aggregate loaded by full replay that keeps a new identifier cannot save a change. |
| `Factories.LoadsExactly` | pkg/eventsourcing/aggregate.go:114-200 | For kinds of aggregates whose states tell histories apart: all loads of all runs have the version and state of a full replay and no pending changes exactly when no full replay of a created aggregate ends with the identifier of another one. |
| `Factories.GeneratedIdsReplay` | pkg/eventsourcing/aggregate.go:26-37 | In particular they do with a factory that generates identifiers, the default of a new aggregate root. |
| `Factories.FixedIdHarmless` | pkg/eventsourcing/aggregate.go:120-121 | A factory that always gives the same identifier meets the condition exactly when no aggregate is created with it, or no other. |
| `Factories.ForeignIdCorruptsSnapshot` | pkg/eventsourcing/aggregate.go:141-200 | Otherwise a run from the empty store saves an aggregate into the log of another one and leaves a snapshot there whose state the log does not lead to. |
| `Factories.WrongSnapshotLoads` | pkg/eventsourcing/aggregate.go:150-162 | From every state with such a snapshot a load is reached that yields the wrong state. |
| `Factories.IdentifiersExactly` | pkg/eventsourcing/aggregate.go:141-178 | All loads of all runs keep the identifier that was asked for exactly when every full replay of a created aggregate ends with it. |
| `RateLimiter.InMemoryRateLimiter.constructor` | pkg/ratelimit/ratelimit.go:333-344 | No attempts are recorded at first. |
| `RateLimiter.InMemoryRateLimiter.Allow` | pkg/ratelimit/ratelimit.go:346-393 | The in-place updates compute the decision on the entry of the key, and no other entry changes. An allowed call leaves the key unblocked, with a new window or one more attempt within the limit; a denied call leaves it blocked, since at most 15 minutes, from this call on if it was not blocked before. |
| `RateLimiter.InMemoryRateLimiter.Reset` | pkg/ratelimit/ratelimit.go:404-408 | Forgets exactly the one key. |
| `RateLimiter.InMemoryRateLimiter.Sweep` | pkg/ratelimit/ratelimit.go:410-425 | Deletes exactly the entries first used more than 60 minutes ago, in any order, and changes no other. |
| `RateLimiter.AgreeDecide` | pkg/ratelimit/ratelimit.go:361-392 | Two entries that differ only in what has expired give the same answer and stay indistinguishable. |
| `RateLimiter.RunsAgree` | pkg/ratelimit/ratelimit.go:346-425 | After every run, the state with sweeps is indistinguishable from the state without them. |
| `RateLimiter.SweepsUnobservable` | pkg/ratelimit/ratelimit.go:410-425 | With a window of at most 45 minutes, sweeps at arbitrary times never change an answer. |
| `RateBounds.MostIsExact` | pkg/ratelimit/ratelimit.go:333-425 | For every configuration, the most calls that any run without a reset lets through in a closed interval of the length of the window, with sweeps at arbitrary times. With the limit b and a pause of 15 minutes and a nanosecond that fits q times into the window it is b(q+1) if the pause fits exactly and the window is at most an hour, and b(q+2)-1 otherwise. No run exceeds it and some run reaches it. |
| `RateBounds.AtMostMost` | pkg/ratelimit/ratelimit.go:346-393 | The upper half: no run without a reset of the key exceeds it. |
| `RateBounds.MostReached` | pkg/ratelimit/ratelimit.go:361-392 | The lower half: for every configuration a run reaches it. |
| `RateBounds.ShortOfTwoBurstsExactly` | pkg/ratelimit/ratelimit.go:346-393 | One call less than twice the limit is a bound over all runs exactly when the window is at most 15 minutes. |
| `RateBounds.TwoBurstsExactly` | pkg/ratelimit/ratelimit.go:346-393 | Twice the limit is a bound over all runs exactly when the window is at most 15 minutes and a nanosecond, or the limit is one and the window at most 30 minutes and a nanosecond. |
| `RateBounds.TallyNext` | pkg/ratelimit/ratelimit.go:361-392 | One call keeps the bound that relates the entry to the number of calls allowed so far in the interval. |
| `RateBounds.TallySwept` | pkg/ratelimit/ratelimit.go:414-422 | Sweeping an entry keeps that bound: the next window opens a pause later. |
| `RateBounds.RunTallies` | pkg/ratelimit/ratelimit.go:346-425 | That bound holds after every run. |
| `RateBounds.SweepsUnobservableExactly` | pkg/ratelimit/ratelimit.go:410-425 | Sweeps are unobservable over all runs exactly when the window is at most 45 minutes. |
| `RateBounds.SweepObserved` | pkg/ratelimit/ratelimit.go:410-425 | For every longer window a run exists in which a sweep lifts a block early. |
| `RateWindows.BlockLastsFifteenMinutes` | pkg/ratelimit/ratelimit.go:361-390 | In every ordered run, once a call for a key at time t is denied after an allowed one, the calls for it are denied up to t plus 15 minutes and the first one after that is allowed, if the key is not reset in between and no sweep comes or the window is at most 45 minutes. |
| `RateWindows.CallsFallIntoWindows` | pkg/ratelimit/ratelimit.go:346-393 | From any state without an entry for the key, and until a reset of it or a sweep, its calls fall into windows, whatever is done with other keys: the burst of each window is allowed and the rest denied, and a new window opens at exactly the first call after the window, or after 15 minutes from the first call beyond the burst. |
| `RateWindows.SweptCallsFallIntoWindows` | pkg/ratelimit/ratelimit.go:346-425 | With a window of at most 45 minutes the same holds in every ordered run without a reset of the key, with sweeps at arbitrary times. |
| `RateWindows.WindowsDetermined` | pkg/ratelimit/ratelimit.go:346-393 | The times of the calls determine the windows and all answers. |
| `RateWindows.StartsOver` | pkg/ratelimit/ratelimit.go:352-359 | Without an entry for a key, everything that follows is answered as in a new run. |
| `RunLoop.ExecuteNodes` | internal/execution/app/orchestrator/orchestrator.go:254-307 | Terminates on every workflow. Nodes are attempted once each, in nondecreasing distance from the triggers, never before a nearer one, and each is the next new one among the triggers and the targets of the nodes before it; a finished run attempts exactly the nodes in reach. With continue-on-fail the errors name exactly the attempted nodes that fail, in order; otherwise the run fails exactly when an attempted node fails, which is the last, and no earlier one failed. Every turn takes one node from the queue; no turn it completes finds the context cancelled, and it is cancelled exactly at a turn it begins that does. |
| `RunLoop.FindStartNodes` | internal/execution/app/orchestrator/orchestrator.go:501-509 | The start nodes are the trigger nodes, all of them and no others, in list order. |
| `RunLoop.ExecuteNode` | internal/execution/app/orchestrator/orchestrator.go:309-326 | An attempt fails exactly when no node has the identifier, or the first node that has it is enabled and its execution fails. |
| `RunLoop.EnqueueTargets` | internal/execution/app/orchestrator/orchestrator.go:298-303 | Appends the targets of the node in connection order, without those already executed. |
| `RunLoop.ExecuteFront` | internal/execution/app/orchestrator/orchestrator.go:280-303 | Executing the node at the front keeps the breadth-first invariant. |
| `RunLoop.DropExecuted` | internal/execution/app/orchestrator/orchestrator.go:273-278 | Dropping a node that was executed meanwhile keeps it too. |
| `RunLoop.NearerIsDone` | internal/execution/app/orchestrator/orchestrator.go:258-304 | At every turn all nodes nearer than the front of the queue have been executed. |
| `RunLoop.Completable` | internal/execution/app/orchestrator/orchestrator.go:254-307 | Every breadth-first list, such as the attempts of an aborted run, is a prefix of one that lists all nodes in reach. |
| `QueueOrder.HandedNext` | internal/execution/app/orchestrator/orchestrator.go:273-303 | Taking a new node from the queue and adding its unexecuted targets keeps the queue order: leaving out executed targets makes no difference to it. |
| `QueueOrder.OneOrder` | internal/execution/app/orchestrator/orchestrator.go:261-304 | The order is determined by the triggers and the connections: of two lists in queue order one continues the other. |
| `QueueOrder.OneExhausted` | internal/execution/app/orchestrator/orchestrator.go:261-304 | The attempts of every run are a prefix of those of a finished run. |
| `RunPrecedence.RunsExactly` | internal/execution/app/orchestrator/orchestrator.go:254-307 | In the finished runs of a workflow, however its nodes and connections are listed, every node comes after all its predecessors in reach exactly when every connection between nodes in reach leads strictly further away from the triggers. |
| `RunPrecedence.FinishedListsAll` | internal/execution/app/orchestrator/orchestrator.go:254-307 | Every exhausted queue order is breadth first and lists exactly what is in reach. |
| `RunPrecedence.PreferRuns` | internal/execution/app/orchestrator/orchestrator.go:254-307 | For every node in reach the workflow can be listed so that its finished run executes that node before all others as far away. |
| `RunPrecedence.RunsBeforePredecessor` | internal/execution/app/orchestrator/orchestrator.go:298-303 | If the only trigger leads to one node first and to another next, every finished run executes the first before the second, also when the second leads to the first. |
| `Precedence.ListsExactly` | internal/execution/app/orchestrator/orchestrator.go:254-307 | Breadth-first lists of all that is in reach put predecessors first exactly under the same condition. |
| `RunPrecedence.NearerTargetFirst` | internal/execution/app/orchestrator/orchestrator.go:254-307 | Every run, finished or not, attempts a node after all nearer ones, also after a nearer one that it leads to. |
| `PendingRequests.PendingTable.constructor` | internal/execution/app/orchestrator/orchestrator.go:59-69 | No request is pending at first. |
| `PendingRequests.PendingTable.RegisterPending` | internal/execution/app/orchestrator/orchestrator.go:71-78 | A new empty channel becomes the entry of the request. |
| `PendingRequests.PendingTable.TakePending` | internal/execution/app/orchestrator/orchestrator.go:80-90 | Takes the entry out of the table, if there is one, and returns its channel. |
| `PendingRequests.PendingTable.Offer` | internal/execution/app/orchestrator/orchestrator.go:92-95 | If the buffer is empty it then holds exactly the response, and one more is counted as sent; otherwise the buffer stays and one more is counted as dropped. No other channel and no entry changes. |
| `PendingRequests.PendingTable.RejectPending` | internal/execution/app/orchestrator/orchestrator.go:98-102 | No entry of the request remains; channels are untouched. |
| `PendingRequests.NextSound` | internal/execution/app/orchestrator/orchestrator.go:71-102 | Every step of registering, resolving, sending, receiving, timing out and rejecting keeps the protocol invariant, whatever identifiers are used. |
| `PendingRequests.RunsSound` | internal/execution/app/orchestrator/orchestrator.go:71-102 | The invariant holds after every interleaving. |
| `PendingRequests.ProtocolSafe` | internal/execution/app/orchestrator/orchestrator.go:459-491 | In every interleaving at most one response is placed on a channel, none is dropped, a placed one is in the buffer or with its waiter, a waiter gets only a response to its own request, and no entry leads to a waiter that has returned. |
| `ResponseOrigins.ResponsesOriginate` | internal/execution/app/orchestrator/orchestrator.go:80-96 | In every interleaving, what a waiter has received or returned is the response, identifier and body, of the lookup that found its entry. |
| `ResponseOrigins.FoundOnce` | internal/execution/app/orchestrator/orchestrator.go:80-86 | In every interleaving, the entry of a waiter is found by at most one lookup. |
| `PendingRequests.ResponsesFound` | internal/execution/app/orchestrator/orchestrator.go:459-491 | If no identifier is used while a waiter with it has not returned, as with generated ones, then in every interleaving a response for a waiter that has not returned has been sent, is in flight, or will find its entry. |
| `PendingRequests.FreeIdExactly` | internal/execution/app/orchestrator/orchestrator.go:71-102 | Using an identifier for a new request keeps all waiters answerable, whatever follows, exactly when no waiter that has not returned uses it. |
| `PendingRequests.ReusedIdLosesResponse` | internal/execution/app/orchestrator/orchestrator.go:71-102 | In every state, reusing the identifier of such a waiter can be followed by its return, which takes the new entry with it, so that every response for the new waiter is ignored. |
| `Saga.Orchestrator.AddStep` | pkg/saga/saga.go:32-36 | Steps are kept in the order they are added. |
| `Saga.Orchestrator.Execute` | pkg/saga/saga.go:39-72 | Every run performs all actions in order and no compensation, or a prefix of them followed by exactly the compensations of the completed steps, last first; data, trace, result and completed steps are determined. |
| `Saga.Orchestrator.RunCompensations` | pkg/saga/saga.go:75-95 | Runs every compensation of the completed steps, last first and even after one fails, each on the data that the one before left, and reports a failure exactly when some compensation fails on the data it is given. |
| `Saga.RunUnfolds` | pkg/saga/saga.go:39-95 | Of every run, step by step: each action gets the data that the one before left, the compensations start from what the last action left and hand the data on in reverse, and the result names the failed action and says whether some compensation failed on the data it was given. |
| `Saga.CompensationsComplete` | pkg/saga/saga.go:79-88 | A step is compensated exactly when it completed and has a compensation. |
| `Saga.CompensationsReverse` | pkg/saga/saga.go:79-88 | Compensations run in strictly descending step order, hence once each. |
| `Saga.BackwardUndoes` | pkg/saga/saga.go:75-95 | If each compensation undoes its action, compensating after a prefix restores the initial data. |
| `Saga.UnfinishedRunRestores` | pkg/saga/saga.go:39-95 | Every run that stops early, by failure or cancellation, then ends with the initial data. |
| `Saga.UnfinishedSuccessExactly` | pkg/saga/saga.go:46-54 | An unfinished run reports success exactly when it was cancelled before a step that it reaches and no compensation fails. |
| `Saga.CancelledReportsSuccess` | pkg/saga/saga.go:48-54 | If compensations undo their actions and do not fail, every cancelled run reports success although it leaves the initial data. |
| `PriorityQueue.Queue.Swap` | internal/execution/app/queue/priority_queue.go:133-137 | Exchanges two slots; if index fields were equal to positions they stay so. |
| `PriorityQueue.Queue.Fix` | internal/execution/app/queue/priority_queue.go:44-50 | Restores heap order around one slot, keeping items and indices. |
| `PriorityQueue.Queue.Up` | internal/execution/app/queue/priority_queue.go:128-137 | Moves an item up until heap order holds, keeping items and indices. |
| `PriorityQueue.Queue.Down` | internal/execution/app/queue/priority_queue.go:128-137 | Moves an item down until heap order holds; it reports whether it moved, and otherwise changes nothing. |
| `PriorityQueue.Queue.Enqueue` | internal/execution/app/queue/priority_queue.go:44-50 | Keeps heap order and adds exactly the item; an item no earlier than all others lands in the last slot; index fields stay equal to positions if they were and the item was not queued already. |
| `PriorityQueue.Queue.Dequeue` | internal/execution/app/queue/priority_queue.go:53-62 | Keeps heap order and indices and takes exactly the item of the last slot; nothing for the empty queue. |
| `PriorityQueue.Queue.Pop` | internal/execution/app/queue/priority_queue.go:148-156 | Takes the last slot, marks the item as removed and keeps the heap order of the rest. |
| `PriorityQueue.Queue.Peek` | internal/execution/app/queue/priority_queue.go:64-74 | Returns an item no other item is earlier than, or nothing for the empty queue. |
| `PriorityQueue.Queue.Remove` | internal/execution/app/queue/priority_queue.go:100-112 | Finds a request exactly when it is queued, and then removes exactly its first item, keeping heap order and indices. |
| `PriorityQueue.Queue.RemoveAt` | internal/execution/app/queue/priority_queue.go:104-108 | Removing any slot keeps heap order and indices and removes exactly that item. |
| `PriorityQueue.Queue.Clear` | internal/execution/app/queue/priority_queue.go:115-120 | Leaves a valid empty queue. |
| `PriorityQueue.RootIsEarliest` | internal/execution/app/queue/priority_queue.go:128-131 | The root of a heap is an earliest item. |
| `PriorityQueue.LastIsEarliest` | internal/execution/app/queue/priority_queue.go:52-62 | Dequeue returns an earliest item exactly when the last slot ties with the root. |
| `PriorityQueue.DequeueIsFifoOnlyForOne` | internal/execution/app/queue/priority_queue.go:52-62 | With distinct times dequeue returns the earliest item exactly when the queue has one item. |
| `PriorityQueue.QueueIsStack` | internal/execution/app/queue/priority_queue.go:44-62 | Over any run of enqueues whose times never fall and dequeues, the queue holds and hands out exactly what a stack does: last in, first out. |
| `NodeMetrics.Collector.UpdateNodeMetrics` | internal/execution/app/metrics/collector.go:337-381 | One sample updates the record of its node, with 64-bit wrap-around and truncating division in the average, and no other record. |
| `NodeMetrics.CollectedHistories` | internal/execution/app/metrics/collector.go:337-381 | However updates for different nodes interleave, a node has a record exactly when it had samples, and the record is the history of its own samples. |
| `NodeMetrics.HistoryLabelled` | internal/execution/app/metrics/collector.go:341-351 | The type of a record is that of the first sample and its time that of the last. |
| `NodeMetrics.HistoryRate` | internal/execution/app/metrics/collector.go:375-378 | The error rate is the share of the samples that failed. |
| `NodeMetrics.HistoryTruthful` | internal/execution/app/metrics/collector.go:341-366 | After any samples the counts add up to their number, and minimum and maximum are attained bounds. |
| `NodeMetrics.HistoryAverages` | internal/execution/app/metrics/collector.go:368-373 | If the durations times their number stay within 64 bits, the running average lies between minimum and maximum and its accumulated truncation error is at most n(n-1)/2 in total, and never negative for nonnegative durations. |
| `NodeMetrics.AverageFits` | internal/execution/app/metrics/collector.go:368-373 | Under that condition neither the product nor the sum wraps around. |
| `NodeMetrics.AverageWraps` | internal/execution/app/metrics/collector.go:368-373 | For any values, the sum that is divided is the exact one modulo 2 to the 64, as a signed integer. |
| `NodeMetrics.OneMore` | internal/execution/app/metrics/collector.go:368-373 | One further sample keeps the average between the bounds and adds less than n to the accumulated error. |

## Left out

- Levels.CalculateLevels: requires that no cycle is in reach of a start node, because the source does not terminate otherwise (`NeverSettles`).
- ExecutionPaths.GetExecutionPaths: requires the same, for the same reason (`ReturnsExactly`); the slice `currentPath` is a value here, so the sharing of its backing array is not captured.
- CriticalPath.GetCriticalPath: that the path is longest is stated for entries without incoming connections and when no node is named by the empty string, which the source uses for "no end found". `LongestExactly` gives the exact condition by kind of node; a single workflow outside it may still get a longest path.
- ParallelGroups.GroupMembersApart: stated for comma-free sources. `CommasExactly` gives the exact condition by identifier; a single workflow outside it may still be grouped well. Group identifiers, which hold a timestamp, are not modelled.
- Coherence.RunsCoherent: assumes that no full replay of an aggregate ends with the identifier of another one (`Factories.LoadsExactly` shows that this is the exact condition for kinds that tell histories apart), that handlers do not read the row identifier of an event, and that an encoded aggregate decodes to itself; encoding may fail. What factory and handlers make of the identifier is a relation between the one asked for and the one given.
- EventStore.EventTable.Load: rows with the same version, which no run stores, come in the order of insertion; the database leaves it open.
- NodeMetrics.HistoryAverages: the bound on durations keeps the arithmetic within 64 bits; for samples that exceed it only the update itself, with wrap-around, is stated (`AverageWraps`).
- PriorityQueue.Queue.Fix: the heap operations are those of Go's container/heap, which is not part of the repository; the rows cite the lines that call them.
- RunLoop.ExecuteNodes: the execution of a node and its retries are an oracle.
- NodeMetrics.Collector.UpdateNodeMetrics: the error rate is a fraction, without the rounding of floating point; the counters do not wrap around.
- Isolation below serialisable: two store transactions that read the same greatest version at the same time.
- Event type, payload, metadata, user and timestamp are one field, `body`; the marker for a needed snapshot is not modelled.
- The ticker period of the cleaner: sweeps come at arbitrary times.
- Mutexes, goroutines and memory sharing between the collector's record and its readers.
- Connection identifiers, ports and data; node names, positions and parameters; the validator's checks of nodes, ports and settings.
- `GetNodeLevel`, `IsConnected`, `GetAncestors`, `GetDescendants`: they follow from reachability and the levels.
- `Activate`, `Deactivate`, cloning and version bookkeeping of workflows.
- The Redis, sliding-window, token-bucket and dynamic rate limiters.
- The execution state machine, two-phase commit, saga coordinator, worker pool, archiver, queue manager and dead-letter queue.
- The collector's other averages and rates, and the cost calculator: floating point over counters.
- HTTP, authentication, configuration, telemetry, messaging, persistence and the websocket hub.
