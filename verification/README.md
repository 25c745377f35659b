# Verification model of the agent platform's logic

A Dafny model of the platform's validators, run scheduling, streaming, versioned store, rate limiter and page
algorithms, with proofs of what they keep. `dafny verify dfyconfig.toml` checks it.

| module | models |
|---|---|
| `Graphs`, `DepthFirst` | walks, closed walks and topological orders over adjacency lists; the depth-first search that both cycle finders run |
| `Topology`, `TreeTheorem` | `validate_topology` with its breadth-first search and cycle check, and the counting theorem that ties SEQUENTIAL to TREE |
| `Chains` | which accepted SEQUENTIAL topologies are sequences |
| `WorkflowValidation`, `LaterReports` | `detect_cycles` and `validate_workflow` of the visual builder; what is reported after the first cycle |
| `AnyOrder`, `ReportOrders` | the graphs on which all reports are cycles in every order of the connections |
| `WorkflowRegistry` | the registry's two-edge check |
| `RunSlots` | admission of runs: the per-workflow semaphore and the active and waiting counters |
| `EventStream` | `stream_message`: generator, queue, getter task and run task in any interleaving |
| `ChatSession` | one session under typed and spoken turns with a turn limit |
| `ConfigLog`, `VersionedStore` | the versioned configuration store, refining an append-only log |
| `RateLimiting` | the sliding-window limiter and its two chained windows |
| `MicCapture` | the microphone resampler and chunker |
| `Escaping`, `Markdown` | `escapeHtml` and the line pass of `renderMarkdown` |
| `Contrast`, `Luminance`, `Palette` | WCAG 2.1 contrast ratio and relative luminance, `_readable_on`, `harmonize_brand` |
| `Prompts`, `PromptNesting` | `get_prompt_text` |
| `ConfigMerge` | `_deep_merge` |
| `Commons` | option type, dictionary lookup |

Code that updates variables is modelled by classes and loops whose postconditions equate the new state with a
function of the old one; the theorems are about those functions. Concurrent code is a step relation: one step is
what a task does between two awaits, and the theorems quantify over all finite sequences of steps.

## Where the code and its documentation part

- Snapshot retention. The class promises to keep the last `max_snapshots` snapshots, but the session factory sets
  `autoflush=False` (src/infrastructure/database/connection.py:74), so the policy does not see the row just added
  and one more is kept. The model takes `autoflush` as a parameter; `VersionedStore.StoredCount` says exactly when
  the documented number holds, and `VersionedStore.OneTooMany` is the smallest case.
- Optimistic locking. An update of a configuration that does not exist never looks at its token
  (`ConfigLog.SameVersionTwice`, `ConfigLog.CreationIgnoresToken`). A token of decimal digits only is read as a
  version number, so an etag that happens to be one is compared with the version (`ConfigLog.CurrentEtagAccepted`).
- Cycle reports. After a hit neither the path nor the recursion stack of `detect_cycles` is unwound, so later
  reports may contain steps that are no edges (`LaterReports.LaterReportNeedNotBeCycle`);
  `LaterReports.ReportIsCycleIff` says exactly which, `LaterReports.UniqueSourcesReportCycles` when none, and
  `ReportOrders.GoodInEveryOrderIffMutual` exactly on which graphs none in any order of the connections.
- Node ids. Nothing makes them distinct, and the SEQUENTIAL and TREE rules agree exactly when they are
  (`TreeTheorem.AgreementIffDistinct`, `TreeTheorem.DuplicateIdsDisagree`).
- A branching tree passes as SEQUENTIAL (`Chains.BranchingTreeAccepted`); an accepted topology is a sequence exactly
  when no node has two outgoing edges (`Chains.SequentialIsChainIff`).
- The registry reads `source` and `target` of an edge where the topology reads `from_node` and `to_node`, and any
  difference can make it reject an acyclic graph (`WorkflowRegistry.AgreementIsExact`).
- Readable text. `_readable_on` says it returns a colour that clears the minimum; on mid-tones such as #777777 it
  cannot at 4.5:1 (`Contrast.ReadableIff`, `Luminance.MidGreyUnreachable`). `harmonize_brand` corrects pair by pair,
  so a later pair of a foreground can undo an earlier one (`Palette.EarlierPairLost`, `Palette.CorrectAllSettles`).
- Named colours. `sanitize_brand` lets them and hsl() through, `_parse_color` reads neither, and every contrast with
  them is 0: the corrected text is #111111 on any of them, black included (`Palette.UnparsedTurnsDark`,
  `Palette.UnparsedPage`), although something legible is promised always.
- Streams. A cancelled run ends its stream with no closing frame (`EventStream.StoppedStream`,
  `EventStream.CancelledRunStops`).
- Rate limits. Requests at equal times share one entry, so the limits bound distinct instants
  (`RateLimiting.ForwardedInstantsRespectLimits`); a window bounds requests under any clock that does not go back
  exactly when its limit is at most one (`RateLimiting.BoundedIffAtMostOne`), and with both limits above one a burst
  at one instant passes whole (`RateLimiting.BurstForwarded`).
- Rate-limit names. The reads of one id share their windows with the writes of an id ending in ":read"
  (`RateLimiting.ClassesCollideIff`).

## Assumptions

- `asyncio.Semaphore` is that of CPython 3.12, the version the image is built on: a queue of futures, a permit
  handed over when a future is resolved, returned by a task that is cancelled before it resumes, and a resumed task
  that wakes others in a loop. The project also admits 3.11 (pyproject.toml:9), whose resumed task wakes at most one
  waiter, and none if its future was cancelled; that version is not modelled.
- Calls to the configuration store are serialised; primary keys of inserted rows are fresh. `Content` is the
  canonical JSON text and `hash` any function of it.
- Clock readings of the requests of one caller class do not go back (`ClockSteady`), and strictly increase where a
  theorem says `ClockAdvances`.
- Floating-point numbers are reals. The power 2.4 is any function with `pow(x)^5 = x^12`; `_parse_color` and
  `_shift` are parameters, and parsed channels are non-negative.
- The worklet's `chunk` is at least 1 and its `ratio` positive: with a zero chunk the posting loop of the source
  does not end.
- At least one snapshot survives a write, `max(0, max_snapshots) + (0 if autoflush else 1) >= 1`.

## Model

| member | source | states |
|---|---|---|
| `Topology.ReachableNodes` | src/config/topology_models.py:256-268 | the search returns exactly the nodes to which a walk leads from the start, and puts each of them on the queue once |
| `Topology.EnqueueNew` | src/config/topology_models.py:263-266 | one node's neighbours: the unseen ones are visited and queued behind what was queued, the others leave no trace |
| `Topology.CycleCheck.constructor` | src/config/topology_models.py:272-273 | nothing is visited and the recursion stack is empty |
| `Topology.CycleCheck.Dfs` | src/config/topology_models.py:275-287 | the two mutable sets and the answer after a call are those of the specification search |
| `Topology.HasCycle` | src/config/topology_models.py:270-294 | true exactly when the graph has a closed walk, self-loops and parallel edges included |
| `Topology.AcyclicIffOrdered` | src/config/topology_models.py:270-294 | no closed walk exactly when a topological order exists; with `HasCycle`, false exactly when nodes can be ordered |
| `DepthFirst.SearchDecides` | src/config/topology_models.py:270-294 | for any graph and any order of its keys the search reports nothing iff there is no closed walk iff there is a topological order, and its first report is a simple cycle |
| `DepthFirst.VisitClean` | src/config/topology_models.py:275-287 | one call from a state with no hit: it either reports a simple cycle, or ends with a longer order whose every member precedes its successors |
| `Topology.BuildAdjacency` | src/config/topology_models.py:206-209 | the dict holds, for every declared node, the targets of its edges in edge order |
| `Topology.CountParents` | src/config/topology_models.py:237-239 | the dict holds the number of edges into each node |
| `Topology.CheckParents` | src/config/topology_models.py:236-244 | one error per non-entry node whose in-degree is not 1, in dict order |
| `Topology.CheckReachable` | src/config/topology_models.py:211-216 | an error naming exactly the nodes to which no walk leads from the entry, and none for a SINGLE topology |
| `Topology.CheckKind` | src/config/topology_models.py:218-252 | the errors of the topology's own rule set, in order, with closed walks in place of the search |
| `Topology.KindHolds` | src/config/topology_models.py:218-252 | each error the kind's own rules give, told from counts, in-degrees, closed walks and the presence of termination conditions, without the function that lists them |
| `Topology.VerdictMeans` | src/config/topology_models.py:197-254 | no error exactly when the rule of the kind is met: SINGLE one node and no edge; SEQUENTIAL all reached, n - 1 edges, no closed walk; TREE all reached, no closed walk, one parent each but the entry; GRAPH all reached, and a closed walk only with termination conditions |
| `Topology.ValidateTopology` | src/config/topology_models.py:197-254 | the error list is empty exactly when the rule of its kind is met, and holds exactly the errors deserved, each told from reachability, closed walks, counts and degrees |
| `TreeTheorem.TotalIsEdgeCount` | src/config/topology_models.py:237-239 | over distinct ids the in-degrees add up to the number of edges, parallel edges counted |
| `TreeTheorem.EdgeCountIffDegrees` | src/config/topology_models.py:228-244 | with every node reached, n - 1 edges hold exactly when the entry has in-degree 0 and every other node 1 |
| `TreeTheorem.DegreesExcludeCycle` | src/config/topology_models.py:228-244 | with every node reached, those in-degrees leave no closed walk, so the SEQUENTIAL cycle check adds nothing |
| `TreeTheorem.SequentialMeans` | src/config/topology_models.py:228-233 | SEQUENTIAL accepts exactly when all is reached, there are n - 1 edges and no closed walk |
| `TreeTheorem.SingleMeans` | src/config/topology_models.py:218-223 | SINGLE accepts exactly one node without edges |
| `TreeTheorem.GraphMeans` | src/config/topology_models.py:248-252 | GRAPH accepts exactly when all is reached and a closed walk comes with termination conditions |
| `TreeTheorem.TreeAcceptsIffDegrees` | src/config/topology_models.py:235-244 | TREE accepts exactly when all is reached and the in-degrees are those of a rooted tree, the entry's included |
| `TreeTheorem.SequentialIffTree` | src/config/topology_models.py:211-247 | over distinct ids SEQUENTIAL and TREE accept the same configurations: those reached everywhere with n - 1 edges |
| `TreeTheorem.AgreementIffDistinct` | src/config/topology_models.py:211-247 | of a configuration that one of the two accepts, both accept it exactly when its node ids are distinct, which nothing enforces |
| `TreeTheorem.DuplicateIdsDisagree` | src/config/topology_models.py:211-247 | one id declared twice, without edges, is accepted as TREE and not as SEQUENTIAL |
| `TreeTheorem.ExactlyOnePath` | src/config/topology_models.py:211-247 | every node of an accepted TREE, or distinct-id SEQUENTIAL, topology ends exactly one walk from the entry |
| `Chains.SequentialIsChainIff` | src/config/topology_models.py:228-233 | an accepted distinct-id SEQUENTIAL topology has one walk through all its nodes exactly when no node has two outgoing edges |
| `Chains.BranchingTreeAccepted` | src/config/topology_models.py:228-233 | a root with two children is accepted as SEQUENTIAL and has no such walk |
| `WorkflowValidation.GraphIsSequentialPart` | src/api/workflow_validation.py:38-45 | the adjacency dict has a step exactly where a connection of type sequential leads, whatever else the list holds |
| `WorkflowValidation.CycleDetector.constructor` | src/api/workflow_validation.py:46-49 | the four variables the inner function closes over start empty |
| `WorkflowValidation.CycleDetector.Dfs` | src/api/workflow_validation.py:51-70 | visited set, recursion stack, path and reports after a call are those of the specification search, hit or miss |
| `WorkflowValidation.DetectCycles` | src/api/workflow_validation.py:28-77 | no report exactly when the sequential connections have no closed walk, and the first report is a simple cycle of them |
| `LaterReports.ReportIsCycleIff` | src/api/workflow_validation.py:51-77 | exactly which reports are simple cycles: those that do not begin on the path an earlier hit left behind, and those for which that path, from where they begin, and the step from its end to the new root are real edges |
| `LaterReports.VisitReportsExactly` | src/api/workflow_validation.py:51-70 | the same for one call of `dfs` from any state: the report it adds is a simple cycle iff it is honest about the path it found |
| `LaterReports.VisitLands` | src/api/workflow_validation.py:51-70 | a hit continues the path it started on by a real walk from its root and closes on some node of the whole path by a real edge |
| `LaterReports.UniqueSourcesReportCycles` | src/api/workflow_validation.py:51-77 | if no node has two distinct sequential predecessors, every report is a simple cycle, however many there are |
| `LaterReports.UniqueLands` | src/api/workflow_validation.py:51-70 | under that condition a hit never lands on the stale path: it closes on its root |
| `LaterReports.ReportsAreShaped` | src/api/workflow_validation.py:51-77 | every report closes on its first node by a real edge and repeats no other; its only false steps enter a node from which the outer loop restarted with a stale path |
| `LaterReports.DisjointLoopsReported` | src/api/workflow_validation.py:51-77 | a run with two reports, the second made on top of the first one's stale path, both simple cycles |
| `ReportOrders.GoodInEveryOrderIffMutual` | src/api/workflow_validation.py:38-77 | every report is a simple cycle in every order of the connections exactly when each node that leads onto some cycle it is not on is led to by every node of every cycle it is not on |
| `AnyOrder.MutualReportsCycles` | src/api/workflow_validation.py:51-77 | on such a graph every report is a simple cycle, whatever the order |
| `AnyOrder.MutualHit` | src/api/workflow_validation.py:51-70 | because every hit is honest about a stale path all of whose nodes are on cycles within it |
| `ReportOrders.LastAnswers` | src/api/workflow_validation.py:38-77 | conversely, an order that puts one or two rings first and then a step back onto them makes the search report the path from there on, so in a graph good in every order its end must lead to the node that stepped back |
| `ReportOrders.FollowChain` | src/api/workflow_validation.py:51-66 | a search whose nodes have unseen first neighbours runs along them and reports where the chain closes |
| `AnyOrder.RingIsSimpleCycle` | src/api/workflow_validation.py:38-77 | the rings of that condition are the simple cycles |
| `LaterReports.LaterReportNeedNotBeCycle` | src/api/workflow_validation.py:51-77 | on a->b, b->a, c->a the second report is [a, b, c, a], which is no walk |
| `WorkflowValidation.ValidateAgentReferences` | src/api/workflow_validation.py:80-105 | the errors of the nodes, in node order |
| `WorkflowValidation.AgentErrorsMean` | src/api/workflow_validation.py:80-105 | an error for exactly the nodes whose agent is unknown |
| `WorkflowValidation.ValidateConnections` | src/api/workflow_validation.py:108-155 | the errors of the connections in order, ends before types |
| `WorkflowValidation.ConnectionErrorsMean` | src/api/workflow_validation.py:108-155 | an error for exactly the missing ends and unknown types, with the index of the connection |
| `WorkflowValidation.NoConnectionErrors` | src/api/workflow_validation.py:108-155 | no error exactly when every connection joins known nodes and has a known type |
| `WorkflowValidation.CycleErrors` | src/api/workflow_validation.py:183-192 | one error per report, in order |
| `WorkflowValidation.DisconnectedNodes` | src/api/workflow_validation.py:195-200 | the warning lists exactly the ids that no connection of either type touches |
| `WorkflowValidation.ValidateWorkflow` | src/api/workflow_validation.py:158-204 | valid exactly when agents and connections resolve and the sequential part has no closed walk; the report lists agents, connections and cycles in order; disconnected nodes never invalidate |
| `WorkflowValidation.ReportIsDeserved` | src/api/workflow_validation.py:158-204 | the report holds exactly the errors that the nodes, connections and found cycles deserve |
| `WorkflowValidation.EmptyReport` | src/api/workflow_validation.py:158-204 | it is empty exactly when all references resolve and the sequential part has no closed walk |
| `WorkflowRegistry.CheckCircularDependencies` | src/config/workflow_registry.py:237-268 | passes iff the pattern is not sequential, or no edge is a self-loop or reverses an earlier one, and otherwise names the first that is and which of the two; an edge leads by its canvas keys where these are present and not empty, and by its declared ends elsewhere |
| `WorkflowRegistry.RejectsShortCycles` | src/config/workflow_registry.py:254-268 | rejection is exactly the existence of a closed walk of at most two edges in the graph the check reads |
| `WorkflowRegistry.RejectedIsCyclic` | src/config/workflow_registry.py:254-268 | where canvas keys agree with `from_node` and `to_node`, whatever the registry rejects has a cycle for `_has_cycle` and fails both SEQUENTIAL and TREE |
| `WorkflowRegistry.DisagreementMisjudges` | src/config/workflow_registry.py:254-268 | any edge whose canvas keys read otherwise, unless it is declared as a loop, makes the registry reject an acyclic declared graph: alone, or with the reverse of what it reads |
| `WorkflowRegistry.AgreementIsExact` | src/config/workflow_registry.py:254-268 | edge by edge, agreement of the keys is exactly what the soundness of a rejection needs, declared self-loops apart |
| `RunSlots.SessionManager.Arrive` | src/api/session_manager.py:322-331 | a task is in at once exactly when a permit is free and every waiter is cancelled, and otherwise at the end of the queue; the counters follow, other workflows stay |
| `RunSlots.SessionManager.AcquireNow` | src/api/session_manager.py:328 | a permit is taken exactly when one is free and no live waiter is ahead |
| `RunSlots.SessionManager.Cancel` | src/api/session_manager.py:327-330 | cancelling a queued task marks its future cancelled, or doomed when it already holds a permit, and nothing else |
| `RunSlots.SessionManager.WakeUpNext` | src/api/session_manager.py:336 | a permit goes to the first unresolved future, or stays |
| `RunSlots.SessionManager.Resume` | src/api/session_manager.py:327-333 | a resumed task leaves the queue, gives back a permit it cannot use, settles the counters, and is inside exactly when its permit was not cancelled; others are woken until no permit is left or nobody waits for one |
| `RunSlots.SessionManager.Leave` | src/api/session_manager.py:334-336 | however a run ends, the task is out, active drops by one and its permit is passed on |
| `RunSlots.SessionManager.RunStatus` | src/api/session_manager.py:338-344 | reports the two counters of that workflow and the maximum |
| `RunSlots.EveryRunKeepsInv` | src/api/session_manager.py:322-336 | in every state of every interleaving of arrivals, cancellations, resumptions and departures: permits + in transit + running = max, active and waiting exact, no task in two places, permits handed out in order of arrival, and none idle past a waiter unless a hand-over is under way |
| `RunSlots.ArriveKeeps` | src/api/session_manager.py:322-331 | an arrival keeps those facts |
| `RunSlots.CancelKeeps` | src/api/session_manager.py:327-330 | a cancellation keeps them, before or after the permit was granted |
| `RunSlots.ResumeKeeps` | src/api/session_manager.py:327-333 | a resumption keeps them, whether it enters or unwinds |
| `RunSlots.LeaveKeeps` | src/api/session_manager.py:334-336 | a departure keeps them |
| `RunSlots.WorkflowsIndependent` | src/api/session_manager.py:324-336 | a workflow's slot is what its own events alone would have made it |
| `RunSlots.AdmissionBound` | src/api/session_manager.py:322-344 | active never exceeds the maximum; an empty slot is as at the start; if all queued tasks are still blocked, exactly max runs are active |
| `RunSlots.TaskMovesOn` | src/api/session_manager.py:322-336 | every step in a reachable state moves the task it names from nowhere to inside or waiting, from waiting to inside or out, or out, as the step and its ticket say, and leaves every other task where it is, but for a permit |
| `RunSlots.CancelledStaysOut` | src/api/session_manager.py:327-333 | over every interleaving, a task cancelled while it waited, with or without a permit, is not inside until it arrives anew, and once it has resumed it has left the queue |
| `RunSlots.UncancelledGetsIn` | src/api/session_manager.py:322-336 | and one that is not cancelled is inside or still waits, enters when it resumes with a permit, and is out when it leaves |
| `EventStream.StreamEventBuilder.BuildDelta` | src/core/events.py:54-72 | each delta takes the next number |
| `EventStream.MessageStream.constructor` | src/api/session_manager.py:362-395 | START is yielded with number 0 before anything else |
| `EventStream.MessageStream.Push` | src/api/session_manager.py:371-377 | a pushed event goes to the end of the queue |
| `EventStream.MessageStream.GetterTakes` | src/api/session_manager.py:400-405 | the getter task takes the oldest event |
| `EventStream.MessageStream.RunEnds` | src/api/session_manager.py:388-395 | the run task ends with a response, an exception or a cancellation |
| `EventStream.MessageStream.Resume` | src/api/session_manager.py:397-438 | the generator from one suspension to the next: live loop, cancelled getter, drain, closing frames |
| `EventStream.EveryScheduleKeepsInv` | src/api/session_manager.py:362-438 | in every schedule, what was yielded is START, the first events pushed and the closing frames so far, numbered without gaps, and the rest is with the getter or on the queue |
| `EventStream.ConsumedStream` | src/api/session_manager.py:397-438 | a fully consumed stream is START, then the events pushed, in push order, event k as number k + 1 with its payload, its agent and the type it names, all pushed before the run ended among them; then TOKEN (unless the response is empty) and DONE, or one ERROR with the text of the exception |
| `EventStream.StoppedStream` | src/api/session_manager.py:397-438 | a stopped stream has closing frames exactly when its run was not cancelled; otherwise START and the live frames are all |
| `EventStream.TypeIsNamed` | src/api/session_manager.py:379-386 | an event's type is the one spelled like its name, and a reasoning delta exactly if none of the thirteen is |
| `EventStream.HistoryIsTold` | src/api/session_manager.py:362-438 | what was pushed, how the run ended and what had been pushed by then, told from the schedule alone |
| `EventStream.NextIsRelayed` | src/api/session_manager.py:397-410 | from anywhere in the live loop the next event pushed is yielded within three steps, the run still going or not |
| `EventStream.CancelledRunStops` | src/api/session_manager.py:397-438 | a schedule in which a cancelled run leaves a stopped stream of START alone |
| `EventStream.AnsweredStream` | src/api/session_manager.py:416-427 | for every response that `process_message` can return the closing frames are TOKEN with that response, then DONE |
| `EventStream.PartialStream` | src/api/session_manager.py:397-438 | at every moment the stream so far is START and the first events pushed, each as it was pushed, and no event is lost or doubled, the one held by a cancelled getter included |
| `EventStream.StreamTerminates` | src/api/session_manager.py:397-438 | after the run has ended the generator is never stuck and each step but a late push brings it closer to its end |
| `EventStream.ResumeKeeps` | src/api/session_manager.py:397-438 | each resumption of the generator keeps the conservation facts |
| `ChatSession.ConversationState.AddMessage` | src/memory/models.py:64-69 | one message is appended |
| `ChatSession.ConversationState.IncrementTurn` | src/memory/models.py:82-85 | the counter grows by one |
| `ChatSession.ConversationState.BeginMessage` | src/api/session_manager.py:145-166 | refused without a trace when the session is inactive or its workflow unknown, and otherwise recorded as the user's and answered with the limit notice past the limit, or handed to the runtime |
| `ChatSession.ConversationState.FinishMessage` | src/api/session_manager.py:217-227 | a run that returned adds its response verbatim as the assistant's, or the default text for an empty one |
| `ChatSession.ConversationState.RecordVoiceTurn` | src/api/session_manager.py:479-516 | up to two messages and one turn, or nothing when both texts are empty |
| `ChatSession.EveryRun` | src/api/session_manager.py:145-227 | over every interleaving of typed and voice turns with a limit k > 0 at most k messages reach the runtime, the turn counter is the messages let in plus the voice turns recorded, the session is active until one was limited, and each message let in owns exactly its own exchange: user and assistant if its run returned, user alone if it failed |
| `ChatSession.WhatIsSaid` | src/api/session_manager.py:145-227 | after any history, what each event adds to the transcript, text by text and role by role, that an unknown workflow or an inactive session refuses, and that a message let in stays in flight until its own run is over |
| `ChatSession.LimitedIffReached` | src/api/session_manager.py:154-166 | a message typed into an active session is limited exactly when the messages let in and the voice turns recorded before it have reached the limit |
| `ChatSession.LimitIsExact` | src/api/session_manager.py:157-166 | of n messages typed into a fresh session exactly the first k reach the runtime and one more gets the notice; an absent or zero limit is none |
| `ChatSession.LimitIsFinal` | src/api/session_manager.py:145-166 | the first message past the limit makes the session inactive, and whatever follows, each later message is refused and changes nothing |
| `VersionedStore.VersionedConfigService.GetConfig` | src/config/versioned_service.py:88-144 | returns the newest log entry with its version number and etag, and nothing exactly for a configuration never written |
| `VersionedStore.VersionedConfigService.ApplyRetention` | src/config/versioned_service.py:452-486 | deletes exactly the oldest visible rows beyond the maximum; other configurations stay |
| `VersionedStore.VersionedConfigService.AddAndRetain` | src/config/versioned_service.py:259-279 | after the insert and the policy the rows are the newest ones of the longer log; whether the policy saw the insert decides how many |
| `VersionedStore.VersionedConfigService.UpdateConfig` | src/config/versioned_service.py:146-295 | succeeds always on a new configuration or without a token, with a number exactly when it is the current version, and with any other token exactly when it is the etag of the newest entry; then appends that content and returns its etag; a conflict changes nothing and reports the current version, etag and content |
| `VersionedStore.VersionedConfigService.RollbackConfig` | src/config/versioned_service.py:350-419 | succeeds exactly when the target is one of the newest versions, as many as the maximum and one more when autoflush is off; then appends its content as the next version; otherwise nothing changes |
| `VersionedStore.VersionedConfigService.GetConfigHistory` | src/config/versioned_service.py:297-348 | the newest min(limit, stored) entries of the log, newest first |
| `VersionedStore.SpanSize` | src/config/versioned_service.py:452-486 | rows whose versions run from lo + 1 to hi, once each, are hi - lo rows |
| `VersionedStore.RetentionKeepsNewest` | src/config/versioned_service.py:461-480 | deleting the versions up to a cut leaves exactly the newest contiguous versions |
| `VersionedStore.StoredCount` | src/config/versioned_service.py:259-279 | the number of stored snapshots, and that it respects `max_snapshots` exactly when sessions autoflush or no more versions were ever written |
| `VersionedStore.OneTooMany` | src/config/versioned_service.py:259-279 | with autoflush off, as the session factory has it, a maximum of one keeps two snapshots |
| `ConfigLog.LogsOnlyGrow` | src/config/versioned_service.py:259-279 | over every serial run a later log extends an earlier one |
| `ConfigLog.HeldEtagDecides` | src/config/versioned_service.py:234-257 | over every serial run, a writer that holds the etag of the entry it found appends exactly when the entry current by then has the same etag, and changes nothing otherwise |
| `ConfigLog.NumberIsDecimal` | src/config/versioned_service.py:205-210 | a numeric token is read in base ten |
| `ConfigLog.SameVersionTwice` | src/config/versioned_service.py:205-257 | two writers with the same numeric token both succeed exactly when the first of them created the configuration, its token unread, and the second came at that version |
| `ConfigLog.AtMostOneWriterPerVersion` | src/config/versioned_service.py:205-257 | so on an existing configuration at most one writer per version number succeeds, whatever runs in between |
| `ConfigLog.CreationIgnoresToken` | src/config/versioned_service.py:205-257 | the exception exists: two writes holding version 1 to a configuration that does not exist both succeed |
| `ConfigLog.RollbackRevivesEtag` | src/config/versioned_service.py:205-257 | hence after A, B and a rollback to A, a writer holding A's etag succeeds |
| `RateLimiting.RateLimitingMiddleware.IsRateLimited` | src/api/rate_limiting.py:77-103 | the answer and the new log of that key; the logs of other keys stay |
| `RateLimiting.RateLimitingMiddleware.CheckWindows` | src/api/rate_limiting.py:162-205 | the hour window is asked only after the minute window let the request through |
| `RateLimiting.RateLimitingMiddleware.Handle` | src/api/rate_limiting.py:139-205 | /health, /metrics and paths under /static leave no trace; a read is held to the read limits, any other request to those for API keys iff it has one and to the regular ones otherwise, under the name of its key id, else user id, else address; it is decided by how many recorded times lie within the last 60 and 3600 seconds |
| `RateLimiting.RateLimitingMiddleware.Count` | src/api/rate_limiting.py:167-205 | the two checks, the outcome told from the recorded times, and the history under that name longer by the request |
| `RateLimiting.ClassesCollideIff` | src/api/rate_limiting.py:21-43 | two caller classes are spelled alike exactly when they are the same, or the reads of one id meet the writes of an id ending in ":read" |
| `RateLimiting.UniformIsPlay` | src/api/rate_limiting.py:147-205 | a name whose requests are all held to the same limits is decided as the run under fixed limits that the results below are about |
| `RateLimiting.CheckCountsWindow` | src/api/rate_limiting.py:83-97 | under a clock that does not go back what a check counts is the instants of the admitted history in its own trailing window, as many as its requests where no two share one |
| `RateLimiting.AdmitBounded` | src/api/rate_limiting.py:96-103 | admitting keeps every half-open interval of the window's length, wherever it starts and on whichever side it is open, within the limit of distinct instants |
| `RateLimiting.LogsRecord` | src/api/rate_limiting.py:147-205 | the hour window has recorded exactly the forwarded requests, the minute window those and the ones the hour window refused |
| `RateLimiting.WindowsHold` | src/api/rate_limiting.py:147-205 | over every run under a clock that does not go back both windows equal their history and stay within their limit of distinct instants |
| `RateLimiting.ForwardedInstantsRespectLimits` | src/api/rate_limiting.py:147-205 | in every minute and in every hour, wherever they start, requests are forwarded at no more distinct instants than the limits allow, if the clock does not go back |
| `RateLimiting.ForwardedRespectLimits` | src/api/rate_limiting.py:147-205 | and no more requests are forwarded than that, if no two readings of the window's clock are equal or its limit is at most one |
| `RateLimiting.RefusalsHaveCause` | src/api/rate_limiting.py:96-97 | under a clock that does not go back the minute window refuses exactly when its trailing minute already holds the limit of instants, hour-refused requests included, and the hour window exactly when its trailing hour holds the limit of forwarding instants |
| `RateLimiting.RefusalsCountRequests` | src/api/rate_limiting.py:96-97 | and under a strictly increasing one exactly when they hold as many requests |
| `RateLimiting.BoundedIffAtMostOne` | src/api/rate_limiting.py:77-103 | a window bounds its requests under every clock that does not go back exactly when its limit is at most one |
| `RateLimiting.SameInstantEscapes` | src/api/rate_limiting.py:99-101 | a window with a limit above one admits any number of requests made at one instant |
| `RateLimiting.BurstForwarded` | src/api/rate_limiting.py:147-205 | with both limits above one any number of requests at one instant is forwarded |
| `MicCapture.MicCapture.Process` | src/api/chatbot_page.py:306-330 | one audio block, possibly absent: posts and leftover stay the chunks and leftover of the resampled stream |
| `MicCapture.MicCapture.CopyAll` | src/api/chatbot_page.py:311-312 | at equal rates every sample is kept and the position stays |
| `MicCapture.MicCapture.Decimate` | src/api/chatbot_page.py:314-318 | at other rates the samples under the accumulated positions are taken and the position is carried into the next block |
| `MicCapture.MicCapture.Flush` | src/api/chatbot_page.py:320-328 | full chunks are cut off the front, the rest stays |
| `MicCapture.MicCapture.Convert` | src/api/chatbot_page.py:322-326 | samples are clamped and scaled, by 0x8000 below zero and 0x7FFF above |
| `MicCapture.ToPcm` | src/api/chatbot_page.py:324-325 | the result fits a signed 16-bit integer |
| `MicCapture.ToPcmQuantises` | src/api/chatbot_page.py:324-325 | less than one step from 32768 x below zero and from 32767 x above, toward zero, and the ends of the range for what lies beyond -1 and 1 |
| `MicCapture.SampleIndex` | src/api/chatbot_page.py:314-318 | sample k is the stream at index floor(k * ratio) |
| `MicCapture.ExactlyUnique` | src/api/chatbot_page.py:314-318 | how many samples have been taken is determined by the length of the stream |
| `MicCapture.ChunksAppend` | src/api/chatbot_page.py:320-328 | chunking in two goes is chunking at once |
| `MicCapture.ChunksPartition` | src/api/chatbot_page.py:320-328 | chunks and leftover are the whole in order, and each chunk is full and in range |
| `MicCapture.BlocksImmaterial` | src/api/chatbot_page.py:306-330 | two captures that heard the same samples, in whatever blocks, have posted the same and hold the same |
| `MicCapture.NothingLost` | src/api/chatbot_page.py:306-330 | what was posted followed by what is held back is the resampled stream: entry k is the sample at floor(k * ratio), quantised or still as heard, there is one exactly for every such index inside the stream, and fewer than `chunk` are held back |
| `Escaping.EscapeIsCharacterMap` | src/api/chatbot_page.py:700-707 | the five replacements in sequence are one character map |
| `Escaping.FiveEscapes` | src/api/chatbot_page.py:700-707 | the five characters and their escapes; any other character stays |
| `Escaping.EscapeInjective` | src/api/chatbot_page.py:700-707 | distinct texts stay distinct |
| `Escaping.EscapedIsInert` | src/api/chatbot_page.py:700-707 | escaped text contains none of < > " ' and each of its & begins one of the five escapes |
| `Markdown.ReadLine` | src/api/chatbot_page.py:733-754 | one line through the open list or the open fence, never both, so that what was produced and what is still to come stay the same |
| `Markdown.RenderBlocks` | src/api/chatbot_page.py:716-758 | the single pass with its open blocks yields the blocks of the grammar, the one still open at the end of input included |
| `Markdown.EveryLineOnce` | src/api/chatbot_page.py:716-758 | every line is accounted for once and in order: a fence or a blank outside code by nothing, a line in code verbatim, an item under its kind of list, a heading at its level, a quotation or a paragraph, with its text |
| `Markdown.SingleReads` | src/api/chatbot_page.py:749-753 | one to three hashes and a blank make a heading of that level, `> ` a quotation, anything else a paragraph |
| `Markdown.ListIsMaximal` | src/api/chatbot_page.py:742-747 | consecutive items of one kind are one block, which ends only before something else |
| `Markdown.CodeIsMaximal` | src/api/chatbot_page.py:734-739 | a fence and the lines up to the next one, or the end, are one block |
| `Markdown.RunIsMaximal` | src/api/chatbot_page.py:742-747 | a list takes every item of its kind that follows, and stops only at something else |
| `Markdown.FenceIsNext` | src/api/chatbot_page.py:734-738 | a code block runs to the next fence or the end |
| `Markdown.CodeIsInert` | src/api/chatbot_page.py:727-732 | the HTML of a code block is its two tags around inert text |
| `Luminance.SrgbIsGraded` | src/api/chatbot_page.py:854-869 | sRGB luminance is non-negative, 1 for white, and between 0.0055 and 0.0058 for #111111 |
| `Luminance.DarkIsDark` | src/api/chatbot_page.py:854-860 | the bounds for #111111, from powers of rationals |
| `Luminance.Primaries` | src/api/chatbot_page.py:854-860 | full red, green and blue weigh 0.2126, 0.7152 and 0.0722 |
| `Luminance.LuminanceGrows` | src/api/chatbot_page.py:854-860 | on channels from 0 to 255 raising any channel raises the luminance, across the two pieces of the curve |
| `Luminance.MidGreyUnreachable` | src/api/chatbot_page.py:908-918 | on #777777 the corrected colour misses 4.5:1 |
| `Contrast.ReadableOnIsLegible` | src/api/chatbot_page.py:908-918 | on any background that parses the result has the contrast asked for or at least sqrt(1.05 / (L(#111111) + 0.05)) |
| `Contrast.ReadableOn` | src/api/chatbot_page.py:908-918 | the preferred colour if it passes, and otherwise #111111 or #ffffff, whichever has no less contrast |
| `Contrast.ReadableIff` | src/api/chatbot_page.py:908-918 | it has the contrast asked for exactly when the preferred colour does, or the background is light enough for #111111 or dark enough for white |
| `Contrast.ModerateTargetsMet` | src/api/chatbot_page.py:908-918 | so every target up to 4.33, 3:1 among them, is met |
| `Contrast.MiddleUnreachable` | src/api/chatbot_page.py:908-918 | and 4.5:1 is missed on a band of mid-tones |
| `Contrast.NoColourSuitsBoth` | src/api/chatbot_page.py:863-869 | no colour up to white clears 4.5:1 on both #111111 and #ffffff |
| `Palette.OneIsMet` | src/api/chatbot_page.py:953-961 | after the correction of a pair its foreground is legible on a background that parses, and #111111 on one that does not |
| `Palette.Correct` | src/api/chatbot_page.py:953-961 | the loop computes the corrections one after the other |
| `Palette.CorrectAllSettles` | src/api/chatbot_page.py:953-961 | no background changes; every changed colour is noted with its final value; a pair is at the end legible on a background that parses, and #111111 on one that does not, unless a later pair of its foreground was noted as corrected; a design all of whose pairs pass is returned as it came |
| `Palette.LastListedIsMet` | src/api/chatbot_page.py:953-961 | the last-listed pair of each foreground is legible, on backgrounds that parse |
| `Palette.OnceListedEnds` | src/api/chatbot_page.py:953-961 | a foreground listed once ends as the design's colour if that passes, else as the theme's own if that does, else as the better of #111111 and #ffffff |
| `Palette.UnparsedTurnsDark` | src/api/chatbot_page.py:953-961 | on a background that does not parse the last-listed foreground ends as #111111, whatever the design and the theme wanted |
| `Palette.UnparsedPage` | src/api/chatbot_page.py:946-961 | so a page background given by name turns text, muted text and links on its surfaces to #111111 |
| `Palette.EarlierPairLost` | src/api/chatbot_page.py:953-961 | under every theme, a design with a white bubble on a #111111 page, its text and the theme's no brighter than white, ends with less than 4.5:1 for text on the page |
| `Palette.SplitDesignPasses` | src/api/chatbot_page.py:953-961 | although white text passed there to begin with |
| `Palette.DeriveFamily` | src/api/chatbot_page.py:946-951 | stated colours are kept, and exactly the unstated family members are derived from the page background, darker on a light page |
| `Palette.DerivedShades` | src/api/chatbot_page.py:946-951 | the four family members and their amounts, darker where the page's luminance is above one half and lighter elsewhere |
| `Palette.PairsAreSeparate` | src/api/chatbot_page.py:874-884 | no colour is a foreground of one pair and a background of another |
| `Palette.HarmonizeBrand` | src/api/chatbot_page.py:921-963 | the two together, on the real pair list: text on the assistant bubble, muted text on surfaces, text on the accent and links are legible, and the other five pairs are or their text is noted as changed |
| `Prompts.ReplaceIsSubstitute` | src/config/registries.py:300-302 | replacing `{key}` throughout is filling the placeholders of that name |
| `Prompts.SequentialIsSimultaneous` | src/config/registries.py:296-303 | one key at a time equals all at once when no placeholder sits between a stray opening and a stray closing brace |
| `Prompts.OrderImmaterial` | src/config/registries.py:296-303 | and then the order of the keys does not matter |
| `PromptNesting.OrderImmaterialIffUnnested` | src/config/registries.py:296-303 | the order of the keys is immaterial, over all brace-free keys and values, exactly for the templates that meet the condition |
| `Prompts.GetPromptText` | src/config/registries.py:276-303 | the fallback unfilled for an unknown prompt, otherwise the template filled key by key |
| `Prompts.EachPlaceholder` | src/config/registries.py:300-302 | a placeholder with the name of the argument gives way to its value, wherever it stands, and plain text stays |
| `PromptNesting.AlternatingIsUnnested` | src/config/registries.py:296-303 | strictly alternating braces are enough for that condition |
| `PromptNesting.FaithfulIffUnnested` | src/config/registries.py:296-303 | over all brace-free keys and values, one at a time equals all at once exactly for the templates that meet the condition |
| `PromptNesting.NestedFails` | src/config/registries.py:296-303 | every other template goes wrong for some brace-free arguments |
| `ConfigMerge.DeepMerge` | src/config/config_manager.py:49-57 | the copy-and-overwrite loop, in any order of the keys, computes the merge |
| `ConfigMerge.MergeAtPath` | src/config/config_manager.py:49-57 | at every path the merge holds what its arguments say: the override's value over the base's, nothing beyond an override leaf, the base elsewhere |
| `ConfigMerge.OverrideWins` | src/config/config_manager.py:49-57 | whatever the override holds at a path survives, its leaves unchanged |
| `ConfigMerge.EmptyIsIdentity` | src/config/config_manager.py:49-57 | the empty object is a two-sided identity |
| `ConfigMerge.UnchangedIffCovers` | src/config/config_manager.py:49-57 | merging leaves the override unchanged exactly when it covers the base |
| `ConfigMerge.OverrideIdempotent` | src/config/config_manager.py:49-57 | the same override twice is the same override once |
| `ConfigMerge.AssociativeIffNoConflict` | src/config/config_manager.py:49-57 | grouping is immaterial exactly when nowhere an object, a non-object and an object that does not cover the first stand under one path |
| `ConfigMerge.ConflictIsAPath` | src/config/config_manager.py:49-57 | that condition, told path by path |
| `ConfigMerge.NoSandwichAssociates` | src/config/config_manager.py:49-57 | in particular merging is associative when no path holds object, non-object, object |
| `ConfigMerge.GroupingMatters` | src/config/config_manager.py:49-57 | the smallest failure |

## Left out

- The crew runtime: a run is a step that pushes events and then returns, fails or is cancelled.
- Database, ORM, HTTP routing, authentication, audit log, run history, session persistence and deletion of sessions.
- A consumer that closes a stream early: the generator then stops at a yield, and only what `EventStream.PartialStream` says remains.
- Fairness of the event loop: `EventStream.StreamTerminates` says each step is progress, not that steps happen.
- Unserialised writers of the configuration store: the current version is read in a second session, so two of them can take the same version number.
- `created_at`, `updated_by`, `change_summary` and the difference shown in a conflict: copied fields, and a report computed from the two contents.
- Non-ASCII digits: `isdigit` accepts them in a version token; the model's tokens use 0 to 9.
- WorkflowRegistry.CheckCircularDependencies: an edge with no end at all, which the source skips, is not modelled; the edge model requires non-empty `from_node` and `to_node` (src/config/topology_models.py:113-120).
- The optional `slowapi` limiter and the 429 response.
- Regular expressions and trims of `renderMarkdown`: each line carries what they say of it; the tags around blocks other than code, and inline markup, are not modelled.
- The order of keys in a merged configuration, and of disconnected ids in the warning.
- `sanitize_brand`, themes, `_parse_color` and `_shift`: tables and string formats.
- Pydantic field validators other than those `Topology.WellFormed` states, provider and prompt registration, file watching, migration, builder models: field copies and branch-by-branch checks.
- MicCapture.MicCapture.Decimate: positions are exact reals; the source accumulates doubles, and what their rounding does to floor(k * ratio) is not modelled.
- RateLimiting.ForwardedRespectLimits: for a limit above one it needs readings that are all different, because requests at equal times share one entry (`RateLimiting.BoundedIffAtMostOne`).
