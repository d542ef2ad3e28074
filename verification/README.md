# SDN resolver: a verified model

This project models the five parts of the SDN resolver that carry its guarantees, and proves what
they promise. Everything is Dafny; `dafny verify dfyconfig.toml` checks the whole project.

**Segment-routing path engine** (`Network`, `ShortestPathDag`, `Graph`, `Segments`, `MinSegSpec`,
`SegmentEngine`, `SegmentPath`, `UnitTopology`, `ParallelLinks`). A packet's forwarding is given by
a relation: a node segment may be followed along any shortest path, an adjacency segment along its
one link (sections 3.2 and 3.4 of RFC 8402). The search is shown to compute true distances, exactly
the tight predecessors and every shortest path once. The list that `build_segpath` emits is shown to
force the chosen route *if and only if* every hop of the route can be pinned. A hop can be pinned
when it is a shortest path of the metric graph or when its end has several shortest-path
predecessors seen from its start, so that the compiler emits an adjacency segment for it. Line 892
of `graph.c` tests only the number of predecessors: where the sole predecessor is another node, no
list the compiler may emit forces the route. `UnitTopology` builds the graph of the repository's
unit program and runs the builder on it for a flow of least delay from D to E: the only such route
is the direct link, and the list that comes out does not force it. A bandwidth demand narrows the
graph that is searched, but the edges given back are looked up in the whole graph (`graph.c:1097`):
`ParallelLinks` shows a flow that is given an edge without the bandwidth, and proves when that
cannot happen. Metrics are positive and path sums stay below the largest 32-bit value, as the code
takes that value for "not reached".

**Resolver retry engine** (`QueryIndex`, `ResolverState`, `ResolverSteps`, `Resolver`,
`ResolverEvents`, `ResolverRuns`, `CircularList`). The channel is a state machine driven by
submissions, packets, clock ticks, server failures and socket writes. One invariant says that every
accepted query is either answered, exactly once, or linked in exactly its four lists; it is kept
through the mutual recursion of sending and moving on, through relinking a list of the timing wheel
while it is walked, and through stealing the list of a failed server. `CircularList` shows that the
pointer operations are the sequence operations used here. How a packet has gone out can be seen:
over TCP in its server's output queue, over UDP in the list of what was written to the server's
socket. The clock never goes back, there is at least one server and one try, and the timeout is at
least two milliseconds, so that every wait is positive. No query outlives its tries: it times out
less often than there are tries, and the last timeout answers it. The comment at lines 714-717 of
`ares_process.c` promises `nservers * tries` attempts; the code may send twice more, once for the
switch to TCP and once for the retreat from EDNS, and the bound proved is that of the code.

**Search structures** (`RedBlack*`, `Lpm*`, `HashMap`). Memory is a map from addresses to cells, so
that sharing, parent pointers and the sentinel are those of the code, and each structure is shown to
agree with a sorted set, a table searched linearly, or a map with its keys in order. In the prefix
trie the slot of a child that is pushed down under a new node is taken from the new prefix
(`lpm.c:229`), not from the child. The code is kept as it is: `Insert` states that the tree stays
well formed exactly when the insertion is *safe*, a condition on the stored prefixes and on the bit
after the new prefix. Where nothing stored is longer and starts with the new prefix, every insertion
is safe. `LpmRuns` shows ff00::/8, f000::/4, f800::/8, f000::/8 going wrong: the second insertion
breaks the slot rule, and after the fourth every lookup walks past the stored f800::/8. Searches and
changes are stated as relations on any memory, which `Insert` and `Lookup` are shown to follow, so
that the sequence goes on where the tree is not well formed any more.

**Codecs** (`Dns*`, `Ipv6*`). Domain names with compression (sections 3.1 and 4.1.4 of RFC 1035): a
name is accepted exactly when its walk ends, the second pass needs no checks, encoding and decoding
round trip to canonical text, with and without pointers, a query's fields are read back from its
bytes, and taking EDNS out of a query gives the query built without it. The text of IPv6 addresses
(section 2.2 of RFC 4291): every address is read back from its text, and neither the case of letters
nor leading zeros change what is read. The test at `inet_ntop.c:173` can never hold, since word 6 is
inside a run of seven words from word 0; the model has it all the same.

**Bounded buffer and transaction workers** (`RingIndex`, `BoundedBuffer`, `TransactionWorkers`).
Steps of any number of threads interleave in any order. Index masking is right exactly for
capacities that are powers of two. `srdb_new` (`srdb.c:1223`) asks for a queue of twice the number
of workers, and that number comes from the configuration, where only zero is put right
(`sr-ctrl.c:1027-1029`): the queue works exactly when the number of workers is a power of two
(`QueueWorksIff`, and on runs `FilledQueue`), and with three workers transactions get lost
(`ThreeWorkers`). The theorems on whole runs of the workers are for powers of two; there the queue
is the ring itself, with every single step of its threads. The server replies at most once to a
request, and a result buffer, of capacity one, is the list of what was pushed to it: one element at
most, so that no push to it ever waits.

## Model

| member | source | states |
|---|---|---|
| `SegmentPath.BuildSegPath` | sdnres-src/sr-ctrl/graph.c:1010-1100 | A segment list is found exactly when for every stop there is a walk from the stop before it over links that offer the wanted bandwidth; the route is such a walk, each of its links searched by the cheapest edge that offers enough; the list forwards every packet along the route and no other if and only if every hop can be pinned; for a flow without waypoints no list that does so is shorter; the edge path is given exactly for flows without waypoints, and joins the nodes of the route |
| `SegmentEngine.MinSeg` | sdnres-src/sr-ctrl/graph.c:851-936 | Compiling a node path: the emitted list and the node still open satisfy the leg invariant (exact and fewest so far) as long as every hop can be pinned, and adjacency segments are only emitted over hops with several predecessors |
| `SegmentEngine.CompileHop` | sdnres-src/sr-ctrl/graph.c:889-918 | One hop of the compiler: which segments are emitted and where the open node moves, for each combination of predecessor sets |
| `SegmentEngine.CompileLeg` | sdnres-src/sr-ctrl/graph.c:1071-1082 | A leg with its closing node segment forces the leg exactly when its hops can be pinned, and with the fewest segments |
| `SegmentEngine.AddStop` | sdnres-src/sr-ctrl/graph.c:1077-1082 | A stop gets a node segment unless the list already ends there by adjacency |
| `SegmentEngine.SearchGraph` | sdnres-src/sr-ctrl/graph.c:1037-1043 | The path search sees exactly the edges that offer the wanted bandwidth, in their order and as often as they were there; the graph itself keeps all of its edges |
| `SegmentEngine.OpenWalkIsWalk` | sdnres-src/sr-ctrl/graph.c:1039-1043 | The walks the search can find are exactly those whose hops have an edge of finite metric that offers the wanted bandwidth |
| `Graphs.WideEnoughPlaces` | sdnres-src/sr-ctrl/sr-ctrl.c:393-408 | Pruning keeps the places of exactly the edges that offer enough, in order |
| `SegmentEngine.FirstPath` | sdnres-src/sr-ctrl/graph.c:1059-1069 | The chosen path is a shortest one of the search graph, and there is one exactly when the stop can be reached |
| `SegmentEngine.NodesToEdges` | sdnres-src/sr-ctrl/graph.c:938-973 | The edges along a node path, or nothing as soon as two neighbours on it share no minimal edge |
| `MinSegSpec.LegNode` | sdnres-src/sr-ctrl/graph.c:890-917 | Emitting a node segment where the path from the open node stops being the only shortest one keeps exactness and minimality |
| `MinSegSpec.LegNodeAdj` | sdnres-src/sr-ctrl/graph.c:895-913 | Emitting a node and an adjacency segment at a hop with several predecessors keeps exactness and minimality |
| `MinSegSpec.LegEnds` | sdnres-src/sr-ctrl/graph.c:1077-1082 | At the end of a leg the list forces the path, and no list that forces it is shorter once segments naming the current node are dropped |
| `MinSegSpec.UniqueExtends` | sdnres-src/sr-ctrl/graph.c:889-905 | A shortest path prolonged by a hop is the only shortest path exactly when it was before and the hop has one predecessor |
| `MinSegSpec.UnpinnedBreaks` | sdnres-src/sr-ctrl/graph.c:892-894 | A list with adjacency segments only where there are several predecessors never forces a path with a hop that cannot be pinned |
| `SegmentRouting.SlowLinkNeedsAdjacency` | sdnres-src/sr-ctrl/graph.c:698-723 | A link that is no shortest path between its ends is only taken by an adjacency segment for it |
| `SegmentRouting.CompressForwards` | sdnres-src/sr-ctrl/graph.c:680-696 | Dropping node segments that name the node the packet is at changes no forwarding |
| `SegmentRouting.ForcesJoin` | sdnres-src/sr-ctrl/graph.c:1071-1082 | Lists that force the two parts of a path force the path when put one after the other |
| `SegmentRouting.ForcesSplit` | sdnres-src/sr-ctrl/graph.c:1071-1082 | A list in two parts that forces a path forces it in two parts |
| `UnitTopology.DelayFlow` | sdnres-data/sr-ctrl/unit/01_buildseg.c:39-71 | On the graph of the unit program, the segment list built for a flow of least delay from D to E, whose route is the direct link (metric 50, delay 1), does not force that route |
| `UnitTopology.OnlyDelayRoute` | sdnres-src/sr-ctrl/graph.c:1059-1069 | The direct link is the only route of least delay from D to E |
| `UnitTopology.NotPinnable` | sdnres-src/sr-ctrl/graph.c:892-894 | The link D-E is no shortest path, and E has one predecessor seen from D, which is F and not D |
| `ParallelLinks.ThinEdge` | sdnres-src/sr-ctrl/graph.c:1096-1099 | With a cheap thin and a dear wide link between two nodes, a flow that asks for the bandwidth of the wide one is given the thin one as its edge |
| `ParallelLinks.RoutesOfferIff` | sdnres-src/sr-ctrl/graph.c:1096-1099 | The edges given back offer the bandwidth on every route over open links exactly when, between any two nodes where some edge offers it, the minimal edge does |
| `Graphs.Graph.Dijkstra` | sdnres-src/sr-ctrl/graph.c:517-636 | Distances are the true shortest ones, in metrics or, for the least-delay cost, in delays; predecessors are exactly the tight ones without repetition, and every shortest path is listed exactly once |
| `Graphs.Graph.Settle` | sdnres-src/sr-ctrl/graph.c:577-625 | Taking the nearest node off the queue and relaxing its links keeps the search invariant |
| `Graphs.Graph.NearestQueued` | sdnres-src/sr-ctrl/graph.c:564-572 | The queued node with the least finite distance, if there is one |
| `Graphs.Graph.RelaxOne` | sdnres-src/sr-ctrl/graph.c:605-624 | One neighbour: a shorter way replaces the predecessors, an equal one is added, nothing else changes |
| `ShortestPathDag.RelaxStep` | sdnres-src/sr-ctrl/graph.c:613-624 | Looking at one link keeps the invariant of the search |
| `ShortestPathDag.SearchMeetsSpec` | sdnres-src/sr-ctrl/graph.c:558-635 | When the queue holds no reachable node any more, the search result is the shortest-path structure |
| `ShortestPathDag.ChainIsShortest` | sdnres-src/sr-ctrl/graph.c:472-491 | Following predecessors back from a node gives its shortest paths, reversed and without the source |
| `Graphs.ComputePathsFrom` | sdnres-src/sr-ctrl/graph.c:472-491 | The recursion ends because distances fall along predecessors, and adds every chain of predecessors exactly once |
| `Graphs.ComputePaths` | sdnres-src/sr-ctrl/graph.c:493-500 | Lists every chain of predecessors of a node exactly once |
| `Graphs.Graph.GetMinimalEdge` | sdnres-src/sr-ctrl/graph.c:302-323 | An edge from one node to the other is found exactly when one has a metric below the largest; it is of least metric among all that join the two, and the first such in the list |
| `Graphs.Graph.ComputeMinimalEdges` | sdnres-src/sr-ctrl/graph.c:325-348 | A minimal edge for exactly the pairs of nodes that are linked |
| `Graphs.Graph.ComputeNeighbors` | sdnres-src/sr-ctrl/graph.c:350-376 | Exactly the nodes that an edge of a metric below the largest leads to, each once |
| `Graphs.Graph.ComputeAllNeighbors` | sdnres-src/sr-ctrl/graph.c:378-397 | Neighbour lists of all nodes |
| `Graphs.Graph.NeighboursAreLinks` | sdnres-src/sr-ctrl/graph.c:597-603 | The assertion in the search never fires: neighbours and minimal edges of a finalized graph agree |
| `Graphs.Graph.Finalize` | sdnres-src/sr-ctrl/graph.h:180-184 | Minimal edges and neighbours are up to date: a pair of different nodes has a minimal edge exactly when an edge of finite metric joins it, and it is one of least metric |
| `Graphs.MinEdgesMean` | sdnres-src/sr-ctrl/graph.c:302-348 | What it means for minimal edges to be right, in terms of the edges alone |
| `Graphs.Graph.Clone` | sdnres-src/sr-ctrl/graph.c:399-425 | The copy has the same nodes and edges |
| `Graphs.Graph.Prune` | sdnres-src/sr-ctrl/graph.c:658-678 | Exactly the edges with too little bandwidth go, the others stay in order |
| `Graphs.Graph.BuildCacheOne` | sdnres-src/sr-ctrl/graph.c:802-823 | What the cache holds for a node is what the search finds |
| `ResolverRuns.Run` | sdnres-src/lib/c-ares/ares_process.c:486-751 | In every run each accepted query has its callback made exactly once or is in flight and linked in exactly its four lists; it has been sent at most once per try plus two; and it has timed out no more often than it was tried, less often than there are tries |
| `ResolverRuns.Tick` | sdnres-src/lib/c-ares/ares_process.c:127-128 | A query that is due and has timed out as often as there are tries but one is answered by this tick: no query outlives its tries |
| `ResolverRuns.AllAccounted` | sdnres-src/lib/c-ares/ares_process.c:1275-1359 | The channel invariant says of every accepted query: answered once and unlinked, or in flight and in exactly the query-id, timeout, server and all-queries lists |
| `ResolverRuns.ProcessAnswer` | sdnres-src/lib/c-ares/ares_process.c:517-617 | A packet concerns at most one query, one with its query id and questions, and there is none only if no query in flight has both. The query is answered with success exactly when EDNS was not refused (it is off, or the code is none of NOTIMP, FORMERR and SERVFAIL), the packet is complete (neither truncated nor longer than allowed, or it came over TCP, or truncation is ignored) and its code is none of SERVFAIL, NOTIMP and REFUSED (or codes are not checked). Refused EDNS goes off and the query is sent again; an incomplete packet makes a UDP query go over TCP and leaves a TCP query alone; a refusing server is skipped, and left if the query is there |
| `ResolverRuns.FindQuery` | sdnres-src/lib/c-ares/ares_process.c:543-556 | The bucket search finds a query with the query id and the questions of the packet whenever there is one |
| `ResolverRuns.RetreatFrom` | sdnres-src/lib/c-ares/ares_process.c:563-579 | Retreat from EDNS: the query is sent once more at least, by the transport it is for, and armed anew or answered without success, the others stay |
| `ResolverRuns.SwitchOver` | sdnres-src/lib/c-ares/ares_process.c:586-594 | Switch to TCP: the query is sent once more at least, over TCP from now on, and has entered the queue of its server, or is answered without success; the others stay |
| `ResolverRuns.GoElsewhere` | sdnres-src/lib/c-ares/ares_process.c:605-614 | The query is told to skip the server that answered with an error; if it was in flight there it is sent in a later try, to another server if there is one, or answered without success; otherwise nothing else changes |
| `ResolverRuns.Send` | sdnres-src/lib/c-ares/ares_send.c:36-131 | Queries of less than 12 or more than 65535 bytes are refused; others enter the lists and are sent. The query in flight has its id, goes over TCP exactly if that is configured or it is longer than a packet may be, is at the server reached from the first one in as many steps as there were failed tries, and its packet is in that server's queue or was written to its UDP socket; if no server took it, it is answered with a refused connection. The first server rotates if configured |
| `ResolverRuns.FreshTries` | sdnres-src/lib/c-ares/ares_send.c:93-111 | A new query has no tries behind it and may go to every server that is not broken, since no connection has the number that stands for none |
| `ResolverRuns.ProcessBroken` | sdnres-src/lib/c-ares/ares_process.c:620-632 | Every query that was in flight over a broken connection has been sent anew, to another server if there is one, or answered; the others are as they were unless their connection broke meanwhile |
| `ResolverRuns.Flush` | sdnres-src/lib/c-ares/ares_process.c:273-303 | The requests that were written leave the front of the output queue, and nothing else changes |
| `ResolverEvents.ProcessTimeouts` | sdnres-src/lib/c-ares/ares_process.c:486-514 | Afterwards no query in flight is due; exactly those that were due were counted once and sent again in a later try or answered as timed out; all others are untouched |
| `ResolverEvents.LastTimeout` | sdnres-src/lib/c-ares/ares_process.c:711-751 | A due query that has timed out one time less than there are tries is answered |
| `ResolverEvents.ProcessBucket` | sdnres-src/lib/c-ares/ares_process.c:497-511 | Walking a list of the timing wheel while it is relinked leaves nothing due in it |
| `ResolverEvents.TimeOut` | sdnres-src/lib/c-ares/ares_process.c:504-510 | A due query is counted once and moves on; it is sent by the transport it is for to a server that is free for it, or answered as timed out |
| `ResolverEvents.TimeoutsStep` | sdnres-src/lib/c-ares/ares_process.c:502-511 | Each query dealt with leaves the set of due queries, and nothing else changes |
| `ResolverEvents.HandleError` | sdnres-src/lib/c-ares/ares_process.c:659-692 | Every query of the failed server was sent anew in a later try, to another server if there is one, and goes on skipping the failed one, or it was answered; the others are untouched; the failed server is left closed with nothing queued if there are others; the stolen list ends empty |
| `ResolverEvents.ResetServer` | sdnres-src/lib/c-ares/ares_process.c:668-669 | The sockets of the failed server are closed and its output queue is dropped |
| `ResolverEvents.MoveOn` | sdnres-src/lib/c-ares/ares_process.c:684-686 | One stolen query is told to skip the failed server and moves on, by the transport it is for |
| `ResolverEvents.StealList` | sdnres-src/lib/c-ares/ares_process.c:678-679 | The whole server list is taken over, and each query in it was at that server |
| `ResolverEvents.RetryStolen` | sdnres-src/lib/c-ares/ares_process.c:680-687 | Moving a stolen query on takes it off the stolen list even if it comes back to the same server |
| `Resolver.Channel.SendQuery` | sdnres-src/lib/c-ares/ares_process.c:753-842 | The query is filed under a later time and its server, or has been given up; every attempt is counted; the recursion ends; servers the query was told to skip are not used. Over TCP the packet is behind what was queued at its server, which is connected, and the query remembers that connection; over UDP it was written to its server's open socket, and no queue and no connection has changed |
| `Resolver.Channel.NextServer` | sdnres-src/lib/c-ares/ares_process.c:711-751 | The query is sent on exactly when, within the tries that are left, some place further around the ring has a server that is not broken, not to be skipped, and not reached before over the same connection; it is then at such a server, in the try that belongs to that place; otherwise its callback is made with its last error |
| `Resolver.RingIs` | sdnres-src/lib/c-ares/ares_process.c:721-722 | The server reached in k steps is k places further modulo the number of servers |
| `Resolver.AnyUsableIs` | sdnres-src/lib/c-ares/ares_process.c:718-737 | What a usable server is, in terms of its flags and of the tries left |
| `Resolver.Channel.FindServer` | sdnres-src/lib/c-ares/ares_process.c:718-747 | Going around the ring stops at the first usable server, or when the tries run out |
| `Resolver.Channel.Arm` | sdnres-src/lib/c-ares/ares_process.c:823-841 | A new timeout in the future, and new places in the timing wheel and the server list |
| `Resolver.Channel.NextTimeout` | sdnres-src/lib/c-ares/ares_process.c:823-826 | The timeout is now plus the wait for the round and a draw of 0 to 7, to the microsecond, and never due already |
| `Resolver.TryDelayIs` | sdnres-src/lib/c-ares/ares_process.c:823-824 | The longest wait is the configured time in the first round and doubles with every round; a draw leaves nine to sixteen sixteenths of it, rounded down |
| `Resolver.DueIs` | sdnres-src/lib/c-ares/ares_process.c:88-102 | Due is exactly what lies no later than now |
| `Resolver.Channel.EndQuery` | sdnres-src/lib/c-ares/ares_process.c:1275-1343 | One callback with status and timeout count; no list and no output queue refers to the query any more; with the last query all sockets are closed unless they are to stay open, and otherwise the servers have changed only in that the requests of the query were detached |
| `Resolver.Channel.SkipServer` | sdnres-src/lib/c-ares/ares_process.c:694-709 | The server is marked as one to skip if there are others, and nothing else changes |
| `Resolver.Channel.DisownAll` | sdnres-src/lib/c-ares/ares_process.c:1283-1328 | Requests of the query are detached from every output queue; if it ends with an error, exactly the connections it was queued on are marked broken |
| `ResolverState.TimeAdd` | sdnres-src/lib/c-ares/ares_process.c:105-117 | Adds milliseconds with the microseconds normalised |
| `ResolverState.BudgetIs` | sdnres-src/lib/c-ares/ares_process.c:714-718 | The number of tries is servers times tries |
| `ResolverSteps.ResentInv` | sdnres-src/lib/c-ares/ares_process.c:825-841 | Filing a query anew keeps the invariant |
| `ResolverSteps.EndedInv` | sdnres-src/lib/c-ares/ares_process.c:1345-1359 | Freeing a query keeps the invariant |
| `QueryIndex.LinkIndexed` | sdnres-src/lib/c-ares/ares_process.c:831-841 | A bucketed index stays exact when a query is linked |
| `QueryIndex.UnlinkIndexed` | sdnres-src/lib/c-ares/ares_process.c:1348-1351 | A bucketed index stays exact when a query is unlinked |
| `CircularList.Lists.InsertBefore` | sdnres-src/lib/c-ares/ares_llist.c:46-52 | Inserting a node into a circular list inserts it into the sequence; other nodes are not written to |
| `CircularList.Lists.Remove` | sdnres-src/lib/c-ares/ares_llist.c:55-62 | Removing a node from its list removes it from the sequence; a node in no list is left alone |
| `CircularList.Lists.InitHead` | sdnres-src/lib/c-ares/ares_llist.c:27-31 | A new head heads an empty list |
| `CircularList.Lists.IsEmpty` | sdnres-src/lib/c-ares/ares_llist.c:41-43 | A head that points to itself both ways heads an empty list, and only then |
| `CircularList.Lists.SwapLists` | sdnres-src/lib/c-ares/ares_process.c:635-657 | Two lists exchange their nodes, whichever of them is empty |
| `CircularList.SegSplit` | sdnres-src/lib/c-ares/ares_llist.c:46-62 | A linked segment is two segments joined at any of its nodes |
| `RedBlackTree.RedBlack.Insert` | sdnres-src/lib/libredblack-1.3/redblack.c:294-439 | Realises set insertion: keys in order, parent links, no red node with a red child, equal black heights; the node returned holds the key |
| `RedBlackTree.RedBlack.Delete` | sdnres-src/lib/libredblack-1.3/redblack.c:208-230 | Realises set removal and keeps order, links and balance |
| `RedBlackTree.RedBlack.DeleteNode` | sdnres-src/lib/libredblack-1.3/redblack.c:718-756 | Removing a node, or moving the next key into it and removing the node that held it, removes exactly its key |
| `RedBlackTree.RedBlack.Repair` | sdnres-src/lib/libredblack-1.3/redblack.c:378-434 | Walking up from a red node ends with no red node under a red one but possibly the root, the order of keys unchanged |
| `RedBlackTree.RedBlack.RepairStep` | sdnres-src/lib/libredblack-1.3/redblack.c:380-433 | One round recolours or turns the family of the red node |
| `RedBlackTree.RedBlack.Refill` | sdnres-src/lib/libredblack-1.3/redblack.c:759-836 | Making up for a missing black node restores balance, the order of keys unchanged |
| `RedBlackTree.RedBlack.RefillStep` | sdnres-src/lib/libredblack-1.3/redblack.c:764-833 | One round of the repair: fewer rounds left, the same keys in order |
| `RedBlackTree.RedBlack.Turn` | sdnres-src/lib/libredblack-1.3/redblack.c:563-651 | A rotation writes exactly the three links and the parent pointers it must |
| `RedBlackTree.RedBlack.Rotate` | sdnres-src/lib/libredblack-1.3/redblack.c:563-651 | A rotation turns the tree it holds |
| `RedBlackTree.RedBlack.Splice` | sdnres-src/lib/libredblack-1.3/redblack.c:723-745 | A node with a missing child is cut off; the sentinel remembers the parent if nothing takes the place |
| `RedBlackTree.RedBlack.Walk` | sdnres-src/lib/libredblack-1.3/redblack.c:303-325 | The descent ends at the key or at the place where it belongs |
| `RedBlackTree.RedBlack.Neighbour` | sdnres-src/lib/libredblack-1.3/redblack.c:655-713 | Successor and predecessor: the nearest key on that side, or the sentinel |
| `RedBlackTree.RedBlack.Lookup` | sdnres-src/lib/libredblack-1.3/redblack.c:444-527 | Every lookup mode answers with the accepted key nearest to the one asked for, and with none exactly when there is none |
| `RedBlackModes.AnswersMean` | sdnres-src/lib/libredblack-1.3/redblack.c:444-527 | The nine modes spelt out: which keys they accept and which of them they give |
| `RedBlackSpec.HeightBound` | sdnres-src/lib/libredblack-1.3/redblack.c:118-127 | The height of a balanced tree is at most twice the logarithm of the number of keys plus one |
| `RedBlackSpec.BlackHeightBounds` | sdnres-src/lib/libredblack-1.3/redblack.c:118-127 | Black height bounds size from below and height from above |
| `RedBlackSpec.RotatedOrder` | sdnres-src/lib/libredblack-1.3/redblack.c:548-561 | Rotations do not change the order of keys |
| `RedBlackSpec.FillOrder` | sdnres-src/lib/libredblack-1.3/redblack.c:303-325 | The keys of a tree seen from one of its nodes |
| `RedBlackInsert.RepairKeeps` | sdnres-src/lib/libredblack-1.3/redblack.c:380-433 | Each repair round keeps black heights and moves the only possible violation up |
| `RedBlackInsert.RepairOrder` | sdnres-src/lib/libredblack-1.3/redblack.c:380-433 | Each repair round keeps the order of keys |
| `RedBlackDelete.SiblingUpKeeps` | sdnres-src/lib/libredblack-1.3/redblack.c:769-775 | A red sibling taking the parent's place keeps the shortage where it is and makes the sibling black |
| `RedBlackDelete.ReddenedKeeps` | sdnres-src/lib/libredblack-1.3/redblack.c:777-781 | Reddening the sibling moves the shortage to the parent |
| `RedBlackDelete.StraightKeeps` | sdnres-src/lib/libredblack-1.3/redblack.c:784-790 | Turning the sibling gives it a red outer child |
| `RedBlackDelete.ClosedKeeps` | sdnres-src/lib/libredblack-1.3/redblack.c:793-797 | Turning the parent ends the shortage |
| `RedBlackDelete.LackingEnds` | sdnres-src/lib/libredblack-1.3/redblack.c:835-835 | Blackening the node where the loop stops restores balance |
| `RedBlackDelete.MovedOrder` | sdnres-src/lib/libredblack-1.3/redblack.c:747-750 | Moving the next key into a node takes out that node's key |
| `RedBlackTurns.TurnedAt` | sdnres-src/lib/libredblack-1.3/redblack.c:563-651 | The cells written by a rotation hold the turned tree |
| `RedBlackUnlink.SplicedAt` | sdnres-src/lib/libredblack-1.3/redblack.c:728-745 | The cells written when a node is cut off hold the tree without it |
| `LpmTrie.Trie.Lookup` | sdnres-src/lib/lpm.c:118-128 | A lookup gives what a linear search for the longest stored prefix gives: the data of a stored prefix of the address than which no longer one is stored |
| `LpmTrie.Trie.FindNode` | sdnres-src/lib/lpm.c:79-116 | The last entry on the way down is the longest that matches |
| `LpmTrie.Trie.FindExact` | sdnres-src/lib/lpm.c:130-170 | The search for a prefix ends at its node or where it belongs |
| `LpmTrie.Trie.Insert` | sdnres-src/lib/lpm.c:190-257 | The table gets the entry in every case; the tree stays well formed if and only if the insertion is safe: nothing stored is longer and starts with the prefix, or one such prefix goes on with the bit that follows the new prefix in the address given, or the prefix is stored already |
| `LpmTrie.Trie.Delete` | sdnres-src/lib/lpm.c:356-365 | Removes exactly the prefix, gives back its data, and leaves the tree well formed |
| `LpmTrie.Trie.OptimizeVirtual` | sdnres-src/lib/lpm.c:324-342 | Ends, and leaves every node without data with two children |
| `LpmTrie.Trie.OptimizeVirtualPlen` | sdnres-src/lib/lpm.c:259-277 | Two children part ways right after the prefix of their parent: the assertion holds and there is nothing to lengthen |
| `LpmTrie.Trie.MergeChild` | sdnres-src/lib/lpm.c:279-307 | A node takes over its only child without any entry changing |
| `LpmTrie.Trie.CutOffEmpty` | sdnres-src/lib/lpm.c:309-322 | A childless node without data goes without any entry changing |
| `LpmTrie.Trie.CommonPrefixLen` | sdnres-src/lib/lpm.c:172-188 | The number of bits in common |
| `LpmMemory.StartsBelow` | sdnres-src/lib/lpm.c:86-108 | The nodes whose prefixes start with a node's prefix are exactly those below it |
| `LpmStore.PushedDownFormed` | sdnres-src/lib/lpm.c:228-238 | Pushing a child down under the new node keeps the tree well formed exactly when the slot is that of the child's own bit |
| `LpmStore.MergedFormed` | sdnres-src/lib/lpm.c:293-306 | Merging restores well-formedness |
| `LpmStore.LongestIs` | sdnres-src/lib/lpm.c:79-116 | What the linear search finds is the longest stored prefix |
| `LpmStore.LongestHas` | sdnres-src/lib/lpm.c:79-116 | What the linear search gives is stored under a prefix of the address than which no longer one is stored |
| `LpmRuns.Run` | sdnres-src/lib/lpm.c:190-365 | After any run of safe insertions and of deletions the tree stands for the table the run leaves |
| `LpmRuns.WrongSlot` | sdnres-src/lib/lpm.c:228-238 | ff00::/8 and then f000::/4 leave a child in the wrong slot |
| `LpmRuns.FourInsertions` | sdnres-src/lib/lpm.c:190-256 | The four insertions of the failing sequence, each by the search and the changes of the code, also where the tree is not well formed any more |
| `LpmRuns.LostPrefix` | sdnres-src/lib/lpm.c:79-116 | After these f800::/8 is stored, but every lookup of f800:: walks past it and gives the data of f000::/4 |
| `LpmTrie.OneWalk` | sdnres-src/lib/lpm.c:79-116 | The walk of a lookup depends on nothing but the memory and the address |
| `DnsExpand.NameLength` | sdnres-src/lib/c-ares/ares_expand_name.c:140-194 | Ends on every buffer; accepts exactly the names whose walk ends, and measures their text: counting pointers rejects only walks that never end |
| `DnsExpand.ExpandName` | sdnres-src/lib/c-ares/ares_expand_name.c:62-135 | Succeeds exactly when the walk ends; writes exactly the allocated bytes, the canonical text and a zero; the encoded length never passes the message end |
| `DnsRoundTrip.ReadCompressed` | sdnres-src/lib/c-ares/ares_expand_name.c:62-135 | The compressed round trip: expanding labels followed by a pointer to further labels gives the text of all of them, and the length of the first part and the pointer |
| `DnsExpand.CopyLabels` | sdnres-src/lib/c-ares/ares_expand_name.c:98-126 | The unchecked second pass reads inside the message and fills the buffer exactly |
| `DnsExpand.MeasureStep` | sdnres-src/lib/c-ares/ares_expand_name.c:149-188 | One step of the first pass rejects only names without an end |
| `DnsNames.NoRepeat` | sdnres-src/lib/c-ares/ares_expand_name.c:162-166 | A walk that ends never comes to a position twice |
| `DnsNames.EndsSoon` | sdnres-src/lib/c-ares/ares_expand_name.c:162-166 | A walk that ends takes fewer steps than the message has bytes |
| `DnsNames.TooManyPointers` | sdnres-src/lib/c-ares/ares_expand_name.c:162-166 | More pointers than bytes means that the walk never ends |
| `DnsNames.BadNeverEnds` | sdnres-src/lib/c-ares/ares_expand_name.c:151-187 | A walk that meets something invalid has no end |
| `DnsNames.NotAName` | sdnres-src/lib/c-ares/ares_expand_name.c:151-187 | Length bytes of 64 to 191, pointers cut off or leading out of the message, and labels that reach its end make no name |
| `DnsNames.EscapeFirst` | sdnres-src/lib/c-ares/ares_expand_name.c:115-121 | Dots and backslashes are spelt with a backslash, all other bytes as they are |
| `DnsNames.PlainSpelt` | sdnres-src/lib/c-ares/ares_expand_name.c:115-121 | A label without dots and backslashes is spelt as itself |
| `DnsNames.CanonFirst` | sdnres-src/lib/c-ares/ares_expand_name.c:112-133 | Labels are joined by single dots, with none at the end |
| `DnsRoundTrip.PointerReads` | sdnres-src/lib/c-ares/ares_expand_name.c:101-110 | A name that is a pointer, the high six bits of the target first, is the name at the target and takes up two bytes |
| `DnsRoundTrip.CompressedReads` | sdnres-src/lib/c-ares/ares_expand_name.c:98-126 | Labels followed by a pointer to further labels are read as the first followed by the second and nothing else |
| `DnsQuery.CreateQuery` | sdnres-src/lib/c-ares/ares_create_query.c:95-230 | Succeeds exactly for names of labels of 1 to 63 bytes and 255 bytes in all, and writes the packet; the allocated size always suffices. The bytes give the query id, the recursion flag, one question, an additional record exactly with EDNS, after the name its type and then its class, and an EDNS record of type 41 with the UDP size |
| `DnsQuery.PacketFields` | sdnres-src/lib/c-ares/ares_create_query.c:131-215 | What each byte of a query says (section 4.1 of RFC 1035, section 6.1 of RFC 6891) |
| `DnsQuery.FlatFirst` | sdnres-src/lib/c-ares/ares_create_query.c:165-183 | Each label is written behind its length |
| `DnsQuery.EncodeFrom` | sdnres-src/lib/c-ares/ares_create_query.c:150-188 | Writes the labels of a name, or fails at an empty or overlong one |
| `DnsQuery.CopyText` | sdnres-src/lib/c-ares/ares_create_query.c:172-179 | Copies a label without its escapes |
| `DnsQuery.FlatIs` | sdnres-src/lib/c-ares/ares_create_query.c:150-188 | The wire form of a name exists exactly when its labels are valid, and is theirs |
| `DnsRoundTrip.LabelsJoined` | sdnres-src/lib/c-ares/ares_create_query.c:150-188 | A text has exactly the labels it is made of: spelt with or without needless backslashes, joined by dots, perhaps with one dot more at the end |
| `DnsRoundTrip.AskAndRead` | sdnres-src/lib/c-ares/ares_create_query.c:146-188 | Decoding the name of an encoded query yields its canonical text, and its length on the wire; right behind it stand the type and the class that were asked for |
| `DnsRoundTrip.WrittenReads` | sdnres-src/lib/c-ares/ares_expand_name.c:62-135 | A name is read where it was written as its labels and nothing else |
| `DnsRoundTrip.CanonFixed` | sdnres-src/lib/c-ares/ares_create_query.c:150-188 | Canonical text stands for the labels it was made from |
| `DnsRoundTrip.CanonicalTwice` | sdnres-src/lib/c-ares/ares_create_query.c:150-188 | Canonical names are valid and fixed points |
| `DnsRoundTrip.StripEdns` | sdnres-src/lib/c-ares/ares_process.c:563-578 | The packet left by the in-place strip is byte for byte the one built without EDNS, with its length prefix; but for that prefix and the count of additional records no byte is changed |
| `DnsRoundTrip.FormTcp` | sdnres-src/lib/c-ares/ares_send.c:78-84 | The TCP form of a query: two bytes that give its length, then the query |
| `BoundedBuffer.Run` | sdnres-src/lib/sbuf.c:32-78 | In every interleaving never more than the capacity is stored, and for a power of two what was popped is the first part of what was pushed, in order; at rest the semaphores count exactly what is stored and what is free |
| `BoundedBuffer.FillAndDrain` | sdnres-src/lib/sbuf.h:17-19 | A fresh buffer that is filled and then emptied hands out what went in exactly when its capacity is a power of two |
| `BoundedBuffer.Sbuf.Step` | sdnres-src/lib/sbuf.c:32-78 | Every step of every thread keeps the invariant |
| `BoundedBuffer.Sbuf.Reserve` | sdnres-src/lib/sbuf.c:34-34 | Waiting for a place: granted exactly when one is free |
| `BoundedBuffer.Sbuf.Claim` | sdnres-src/lib/sbuf.c:58-58 | Waiting for an element: granted exactly when one has been posted |
| `BoundedBuffer.Sbuf.Store` | sdnres-src/lib/sbuf.h:18-18 | Storing writes the slot of the write counter; for a power of two it overwrites nothing that is still stored |
| `BoundedBuffer.Sbuf.Load` | sdnres-src/lib/sbuf.h:19-19 | Loading reads the slot of the read counter; for a power of two that is the oldest element not yet popped |
| `BoundedBuffer.BalanceStep` | sdnres-src/lib/sbuf.c:32-78 | Semaphores and threads under way account for every place of the ring |
| `BoundedBuffer.StorePushed` | sdnres-src/lib/sbuf.h:17-18 | A new element goes to a slot of its own |
| `RingIndex.MaskIsModulo` | sdnres-src/lib/sbuf.h:17-17 | For a power of two masking is the remainder |
| `RingIndex.MaskWorksIff` | sdnres-src/lib/sbuf.h:17-17 | Masking keeps the places of a full ring apart exactly when the capacity is a power of two |
| `RingIndex.WrapSlot` | sdnres-src/lib/sbuf.h:17-19 | Counters that wrap around in a machine word keep their slots |
| `TransactionWorkers.Run` | sdnres-src/lib/srdb.c:1412-1473 | For a number of workers that is a power of two, in every interleaving of the single steps of clients, workers, server and shutdown: transactions are popped in the order in which they were pushed and sent at most once; a result buffer holds at most one result, the server's reply to its own transaction; once all workers have ended at their null pointers, every transaction pushed before one of these has its result |
| `TransactionWorkers.FilledQueue` | sdnres-src/lib/srdb.c:1223-1223 | The transaction queue, filled and then emptied, hands out what was pushed exactly when the number of workers is a power of two |
| `TransactionWorkers.QueueWorksIff` | sdnres-src/lib/srdb.c:1223-1223 | The places of the transaction queue are kept apart exactly when the number of workers is a power of two |
| `TransactionWorkers.ThreeWorkers` | sdnres-src/lib/srdb.c:1223-1223 | With three workers the third of three transactions overwrites the first: the first is never popped and the third is popped twice |
| `TransactionWorkers.Srdb.Round` | sdnres-src/lib/srdb.c:1429-1456 | One round of a worker's loop: a reply that is read is delivered, and an idle worker begins to pop exactly when there is something to pop |
| `TransactionWorkers.Srdb.Deliver` | sdnres-src/lib/srdb.c:1442-1449 | A reply goes to the empty result buffer of the transaction it answers |
| `TransactionWorkers.Srdb.Pop` | sdnres-src/lib/srdb.c:1453-1467 | One step of a worker's pop; at its end a null pointer ends the worker, and a transaction is sent and becomes its pending request, unless sending fails and ends the worker |
| `TransactionWorkers.Srdb.Submit` | sdnres-src/lib/srdb.c:1284-1301 | A client begins to push a new transaction exactly when a place is free |
| `TransactionWorkers.Srdb.PushNull` | sdnres-src/lib/srdb.c:1250-1251 | A null pointer is pushed for every worker, one after the other, when a place is free |
| `TransactionWorkers.Srdb.Push` | sdnres-src/lib/srdb.c:1250-1251 | One step of a push: the element enters the queue when it is stored in the ring |
| `TransactionWorkers.AllAnswered` | sdnres-src/lib/srdb.c:1244-1254 | As no more null pointers are pushed than there are workers, once every worker has ended at one of them, every transaction pushed before any of them has got its one result |
| `TransactionWorkers.LoadStep` | sdnres-src/lib/sbuf.h:19-19 | A worker that loads an element has it alone in its hands |
| `TransactionWorkers.SendStep` | sdnres-src/lib/srdb.c:1459-1467 | A transaction is sent by the worker that holds it, and by no other and not again |
| `TransactionWorkers.OthersKept` | sdnres-src/lib/srdb.c:1429-1468 | A worker's step changes the records of one transaction only |
| `HashMaps.HashMap.Set` | sdnres-src/lib/hashmap.c:86-121 | Realises map update; a new key goes to the end of the order, an old one keeps its place; at most three quarters of the size plus one entries |
| `HashMaps.HashMap.Get` | sdnres-src/lib/hashmap.c:123-136 | Gives what the map holds, or nothing |
| `HashMaps.HashMap.Delete` | sdnres-src/lib/hashmap.c:138-154 | Realises removal, the others keep their order |
| `HashMaps.WithoutOne` | sdnres-src/lib/hashmap.c:147-148 | A key that is there once goes from the order, and what was before it and behind it stays |
| `HashMaps.HashMap.Grow` | sdnres-src/lib/hashmap.c:59-84 | Every entry is in the bucket of its hash for the new size, and the map is the same |
| `HashMaps.HashMap.Flush` | sdnres-src/lib/hashmap.c:156-167 | Empties the map |
| `HashMaps.HashMap.Find` | sdnres-src/lib/hashmap.c:93-99 | A bucket search finds the key if any entry has it |
| `HashMaps.AddToBucket` | sdnres-src/lib/hashmap.c:115-115 | Both lists thread the same entries after an insertion |
| `HashMaps.RemoveFromBucket` | sdnres-src/lib/hashmap.c:147-148 | Both lists thread the same entries after a removal |
| `HashMaps.PartNext` | sdnres-src/lib/hashmap.c:74-78 | Moving one entry to the new table keeps the moved part exact |
| `Ipv6Reader.WriteAndRead` | sdnres-src/lib/c-ares/inet_ntop.c:107-197 | Reading the text that was written for an address gives the address, for every address |
| `Ipv6RoundTrip.RoundTrip` | sdnres-src/lib/c-ares/inet_net_pton.c:269-378 | The text of an address is read as the address, whichever run of zero words was left out, with or without an embedded IPv4 address |
| `Ipv6Text.Ntop6` | sdnres-src/lib/c-ares/inet_ntop.c:107-197 | The text leaves out the first longest run of zero words, two at least, and fits the buffer; the last four bytes are written as an IPv4 address exactly if six zero words, or five and then 0xffff, precede them |
| `Ipv6Text.TextIs` | sdnres-src/lib/c-ares/inet_ntop.c:159-186 | The parts of a text: words before the run, a double colon, and the words or the IPv4 address behind it |
| `Ipv6Text.HexWordsAre` | sdnres-src/lib/c-ares/inet_ntop.c:159-182 | A word is written as the number its two bytes give, the high one first; colons separate words |
| `Ipv6Text.NumeralsAre` | sdnres-src/lib/c-ares/inet_ntop.c:181-181 | Numbers are written in hexadecimal and decimal without leading zeros, the last digit last |
| `Ipv6Text.HexDigitValue` | sdnres-src/lib/c-ares/inet_net_pton.c:272-273 | Digits are written in lower case, and read with the same value in either case |
| `Ipv6Text.LongestRun` | sdnres-src/lib/c-ares/inet_ntop.c:131-154 | The run found is the first of the longest with two words or more, or none |
| `Ipv6Reader.Pton6` | sdnres-src/lib/c-ares/inet_net_pton.c:269-378 | Computes in place what the reader function gives: it refuses the texts that function refuses and writes the sixteen bytes it gives; that these are right is what the round trip says |
| `Ipv6RoundTrip.CaseBlind` | sdnres-src/lib/c-ares/inet_net_pton.c:300-301 | The case of hexadecimal letters does not change what is read |
| `Ipv6RoundTrip.LeadingZero` | sdnres-src/lib/c-ares/inet_net_pton.c:302-309 | A leading zero of a word of at most three digits does not change what is read, wherever the word is |
| `Ipv6RoundTrip.LongWord` | sdnres-src/lib/c-ares/inet_net_pton.c:305-306 | A word of more than four digits makes the text wrong, wherever the word is |
| `Ipv6Reader.Scan` | sdnres-src/lib/c-ares/inet_net_pton.c:297-344 | The walk over the text fills the buffer without the zeros of a double colon |
| `Ipv6Reader.GetV4` | sdnres-src/lib/c-ares/inet_net_pton.c:226-267 | Computes in place what the reader function for an embedded IPv4 address gives |
| `Ipv6Reader.ShiftUp` | sdnres-src/lib/c-ares/inet_net_pton.c:355-370 | The shift by hand moves the bytes after the double colon to the end and leaves zeros |
| `Ipv6RoundTrip.QuadRead` | sdnres-src/lib/c-ares/inet_net_pton.c:226-267 | A dotted quad is read as its four octets |
| `Ipv6RoundTrip.WordsRead` | sdnres-src/lib/c-ares/inet_net_pton.c:297-327 | Words in hexadecimal are read as the words |

## Left out

- Resolver.Channel: the channel's fields are one record that every operation replaces step by step, and its lists are sequences of query numbers; pointer by pointer they are modelled in CircularList alone.
- Resolver.Channel.SendQuery: does not model memory allocation failure; sockets that fail to open and writes that fail are chosen freely.
- Resolver.Channel.NextTimeout: the doubling of the wait is not cut off at the width of an `int`, and the random draw is chosen freely.
- ResolverRuns.ProcessAnswer: which queries ask the same questions as a packet is given with the packet; reply parsing, source addresses and socket reading are not part of this model.
- ResolverRuns.Run: callbacks do not call back into the channel, `ares_cancel` and `ares_destroy` are left out, and the clock is monotone.
- SegmentPath.BuildSegPath: the edge path is only promised for flows without waypoints; with waypoints each waypoint is in the node path twice and the code returns none, which is what is proved. Minimality is stated for flows without waypoints.
- Graphs.CostOps: the bounded-delay cost (`delay_below_ops`) depends on the edges taken before and is no path weight; delays of zero are excluded where delays are the weights.
- Graphs.Graph.Prune: reference counts and the release of pruned edges are left out.
- Graphs.Graph.ComputeNeighbors: the hash maps and lists of the graph are maps and sequences here; the hash map has a model of its own.
- Graphs.Graph.BuildCacheOne: reference counting and flushing of the cache are left out.
- RedBlackTree.RedBlack.Lookup: on an empty tree the modes that fall back on the last comparison have none, so the tree is not empty for them; tree walks, read lists and `rbdestroy` are left out.
- RedBlackTree.RedBlack.Insert: keys are integers and the comparison is their order; left and right rotation are one method with a side. The cell of a new node is given by the caller.
- LpmTrie.Trie.Delete: the prefix of length zero is excluded, as the head of the tree has no parent.
- LpmTrie.Trie.Insert: an address is its 128 bits; the cells of new nodes are given by the caller.
- LpmRuns.Run: a run is safe when every insertion is; safety is the exact condition for the shape of the tree, and lookups may still be right after an insertion that is not safe.
- HashMaps.HashMap.Set: keys stand for what they compare by, hashing depends on that alone, and bucket lists and key list are sequences of entry addresses; the read-write lock is left out.
- DnsQuery.CreateQuery: EDNS options are left out; a name is its bytes without the terminating zero.
- DnsRoundTrip.StripEdns: queries that carry EDNS options are left out, as the strip removes eleven bytes only.
- DnsExpand.ExpandName: memory allocation failure is left out.
- Ipv6Reader.Pton6: texts with a prefix length (a slash) are left out.
- Ipv6Reader.GetV4: an octet list ended by a slash is left out, for the same reason.
- BoundedBuffer.Sbuf.Step: a blocked or failed attempt leaves everything as it is, which stands for waiting as well as for giving up; fairness and progress are not stated.
- TransactionWorkers.Srdb.Round: building, sending and parsing JSON are left out; a failure of the socket is chosen freely and ends the worker with its transaction unanswered.
- TransactionWorkers.Run: for numbers of workers that are no power of two the queue is shown to fail; whole runs of the workers are proved for powers of two.
- TransactionWorkers.AllAnswered: says nothing about workers that ended on an error.
- OVSDB monitors, the controller's requests, flows and configuration, sockets, polling and the remaining DNS record parsers are not part of this model.
