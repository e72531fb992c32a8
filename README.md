# Graph search: a verified model

This project models the search engine of a small graph-search teaching application. The
application keeps a graph as a list of nodes (an id with planar coordinates) and a list of
weighted edges, each directed or undirected. `GraphAlgorithms.runSearch` dispatches on a
string tag to depth-first search, breadth-first search, Dijkstra's algorithm or A*. Each
returns `(visited, path, cost)`, and "no path" is `(visited, [], 0)`. A second, standalone
Dijkstra (`test.py`) computes shortest distances and paths from one node to every node of
an adjacency map `{node: {neighbour: weight}}`.

The model is imperative where the source is. DFS and BFS are `while` loops over a frontier
of `(node, route, cost)` frames: DFS pops the last frame, BFS the first. The cost-based
searches mutate a distance table, a predecessor map and a heap in a loop. `getNeighbors`,
`getNode` and `reconstructPath` are loops too. Each method is proved against the property
the search promises:

- every visit order repeats nothing, starts at the start, and each later node is one step
  from a node visited earlier;
- a returned path is a walk of the graph from start to end, with no repeated node, and the
  returned cost is the sum of its step weights;
- an empty path means the end is unreachable;
- Dijkstra's path is a least-cost walk;
- A*'s path is a least-cost walk whenever its estimate is consistent;
- the all-destinations Dijkstra returns, for every node, the least cost and a walk paying
  it, or infinity and `[]` exactly when the node is unreachable.

Modules, one per file:

- `Walks` (walks.dfy): walks over a successor function, and the facts about them.
- `Graphs` (graph.dfy): the graph, getNeighbors, getNode.
- `Heap` (heap.dfy): heappop over `(priority, id)` entries in Python tuple order.
- `Predecessors` (predecessors.dfy): reconstructPath.
- `Traversal` (traversal.dfy): dfs and bfs.
- `BestFirst` (bestfirst.dfy): the distance table and the relaxation loop shared by
  dijkstra and a_star.
- `SearchState` (searchstate.dfy): the loop invariant of dijkstra and a_star, and the
  lemmas that keep it.
- `CostSearch` (costsearch.dfy): dijkstra, a_star and the heuristic.
- `AllDestinations` (alldest.dfy): test.py's dijkstra.
- `Search` (search.dfy): runSearch.
- `Examples` (examples.dfy): the graphs of test_1.py and the answers a_star gives on them.
- `Openings` (openings.dfy): dfs and bfs leave the start of the detour graph differently.

## Model

| member | source | states |
|---|---|---|
| Search.RunSearch | algorithms.py:7-16 | "DFS" and "BFS" give a traversal result, with dfs's opening (second visit is the start's last-pushed child) for "DFS" and bfs's (its first-pushed child) for "BFS"; "Dijkstra" gives a least-cost result; "A*" gives a best-first result that is least-cost under a consistent estimate; any other tag gives `([], [], 0)` |
| Graphs.GetNeighbors | algorithms.py:102-109 | the scan returns exactly the edge-order hop list `Neighbors(edges, n)` |
| Graphs.NeighborsMember | algorithms.py:104-108 | `(v, w)` is returned iff some edge leaves `n` for `v` with weight `w`, or some undirected edge arrives at `n` from `v` with weight `w` |
| Graphs.NeighborsConcat | algorithms.py:104-108 | edge order is kept: the hops of earlier edges come first |
| Graphs.NeighborsOfStranger | algorithms.py:102-109 | an id that appears in no edge has no neighbours |
| Graphs.StepTargetDeclared | algorithms.py:64-66 | when every edge endpoint is declared, every neighbour is a declared node, so `dist[nx]` exists |
| Graphs.GetNode | algorithms.py:112-116 | the answer is a node of the list carrying the id, the first one; None exactly when no node carries it |
| Graphs.FindNodeSpec | algorithms.py:112-116 | the lookup finds the first node with the id, and None exactly when there is none |
| Heap.PopMin | algorithms.py:58 | heappop returns an entry of the queue that no other entry precedes in (priority, id) order, and leaves the queue minus that one entry |
| Heap.PoppedIsUnique | algorithms.py:58 | the least entry is unique, so the pop order is determined |
| Heap.StrLessTotal | algorithms.py:56-58 | two distinct ids are always ordered one way, so heap ties are broken by id |
| Heap.StrLessTransitive | algorithms.py:56-58 | the id order used to break ties is transitive |
| Heap.StrLessIrreflexive | algorithms.py:56-58 | no id precedes itself |
| Heap.EntryLessTransitive | algorithms.py:56-58 | the (priority, id) order is transitive |
| Predecessors.ReconstructPath | algorithms.py:119-129 | a non-empty answer starts at `start` (which has no predecessor), ends at `end`, repeats nothing and follows `prev` link by link; `[]` only when the chain back from `end` stops at another node; `end == start` with no predecessor gives `[start]` |
| Predecessors.ReversedAt | algorithms.py:127 | position `i` of the reversed list holds position `len - 1 - i` |
| Traversal.Dfs | algorithms.py:19-32 | a traversal result: valid visit order; a non-empty path is a repetition-free walk from start to end through visited nodes, ending the visit order, whose step weights sum to the cost; an empty path has cost 0 and an unvisited, unreachable end; start == end gives `[start]`, `[start]`, 0; and when the start is not the end and pushes any frame, the second node visited is the one pushed last |
| Traversal.Bfs | algorithms.py:35-48 | the same traversal result, and when the start is not the end and pushes any frame, the second node visited is the one pushed first |
| Traversal.Expand | algorithms.py:24-31 | visiting a popped unvisited node that is not the end appends it to `visited`, keeps the frontier invariant, counts one more distinct visited node among the start and the edge endpoints (the termination measure), and the new frontier is exactly the remaining frames followed by `Children` of the popped frame over its neighbours in edge order, taken against the extended `visited`; right after the start is visited the frontier is exactly the start's children, and later expansions keep the second visit |
| Traversal.PushUnvisited | algorithms.py:29-31 | the new frontier is exactly the old one followed by `Children` over the node's neighbours in edge order, so one frame per unvisited hop and nothing else; every pushed frame is a child of the popped frame, and every neighbour ends up visited or waiting |
| Traversal.ChildrenMember | algorithms.py:29-31 | a frame is pushed for a hop list exactly when some hop's target is unvisited and the frame is that target with the route extended by it and the cost by the hop's weight |
| Traversal.ChildrenAreChildFrames | algorithms.py:29-31 | every frame pushed for a node's neighbours extends the popped route by one step of the graph to an unvisited node |
| Traversal.PopVisitedKeeps | algorithms.py:24-25 | dropping a popped frame whose node is visited keeps the frontier invariant |
| Traversal.TraversalResultOnArrival | algorithms.py:27-28 | popping the end returns a traversal result with the frame's route and cost |
| Traversal.ExhaustedMeansUnreachable | algorithms.py:23-32 | an empty frontier means the end is unreachable from the start, and `(visited, [], 0)` is a traversal result |
| BestFirst.Relax | algorithms.py:64-69 | after the loop every neighbour's distance is at most the base plus the step weight; distances only decrease; a distance and `prev` entry change only on a strict improvement through `current`, which is queued; everything else is kept |
| BestFirst.RelaxStepKeeps | algorithms.py:65-69 | one improving update lowers only that neighbour and keeps what the loop has established |
| SearchState.InitialDist | algorithms.py:53-54 | every declared id starts at infinity and the start at 0 |
| SearchState.InitialInv | algorithms.py:52-56 | the loop invariant holds for the initial table, empty `prev` and the queue `[(0, start)]` |
| SearchState.PopPriority | algorithms.py:58-60 | the first fresh pop is the start; every later fresh pop carries exactly its distance plus its estimate |
| SearchState.PopOptimal | algorithms.py:58-60 | with a consistent estimate, a node popped fresh has its least cost: no walk from the start to it is cheaper |
| SearchState.EstimateAlongWalk | algorithms.py:78-83 | a consistent estimate drops by at most the cost of a walk |
| SearchState.PopStaleKeeps | algorithms.py:58-59 | a pop whose node is already visited keeps the invariant |
| SearchState.PopFreshKeeps | algorithms.py:59-60 | visiting a fresh pop keeps the invariant except for the steps out of the new node |
| SearchState.RelaxKeeps | algorithms.py:64-69 | relaxing the new node's steps restores the whole invariant |
| SearchState.ExhaustedUnreachable | algorithms.py:57-70 | an exhausted queue leaves the end unreachable |
| SearchState.LinksRanked | algorithms.py:64-69 | every predecessor link goes down the (distance, time of last lowering) ranking, so `prev` has no cycle and reconstructPath terminates |
| CostSearch.ChainWalk | algorithms.py:119-124 | following `prev` back from a reached node walks forward through visited nodes, paying at most the distance difference, and exactly that under a consistent estimate |
| CostSearch.NoStrandedChain | algorithms.py:122-129 | the chain back from a reached node always ends at the start, so reconstructPath does not return `[]` there |
| CostSearch.PathFound | algorithms.py:61-63 | the reconstructed path is non-empty, a walk from start to end through visited nodes, costing at most the end's distance, and exactly it under a consistent estimate |
| CostSearch.ArrivalResult | algorithms.py:61-63 | popping the end fresh and reconstructing its path yields the best-first result, and the least-cost result under a consistent estimate |
| CostSearch.Arrive | algorithms.py:61-63 | the end popped fresh returns a best-first result with cost `dist[end]` |
| CostSearch.Settle | algorithms.py:59-69 | visiting a fresh pop that is not the end appends it to `visited`; the new `dist`, `prev` and queue are that node's relaxation from its distance (only distances lowered through one of its steps change, each with `prev` set to the node and an entry queued; every step target ends at most the base plus the weight); the invariant holds and one more node is visited |
| CostSearch.StepsDeclared | algorithms.py:64-66 | with declared endpoints every neighbour is in the distance table |
| CostSearch.Dijkstra | algorithms.py:51-70 | a traversal result whose path, when non-empty, is a least-cost walk from start to end |
| CostSearch.Heuristic | algorithms.py:78-83 | 0 when either id is undeclared, otherwise the metric between nodes carrying the two ids |
| CostSearch.HeuristicConsistent | algorithms.py:78-83 | a metric with the triangle inequality that never exceeds a step's weight gives a consistent estimate |
| CostSearch.AStar | algorithms.py:73-99 | a best-first result: valid visit order, empty path only when the end is unreachable, otherwise a repetition-free walk through visited nodes costing at most the returned cost, which some walk costs exactly; with a consistent estimate, the least-cost result |
| AllDestinations.Dijkstra | test.py:3-42 | for every node, a finite distance exactly when reachable; the finite distance is the least walk cost and its path is a walk from start paying it; unreachable nodes keep infinity and `[]`; the start keeps 0 and `[start]` |
| AllDestinations.InitialInv | test.py:16-22 | the loop invariant holds for the initial tables and queue |
| AllDestinations.SkipKeeps | test.py:29-30 | skipping an entry whose priority exceeds its node's distance keeps the invariant and shortens the queue |
| AllDestinations.PopExact | test.py:26-30 | an entry that is not skipped carries exactly its node's distance; the first one is `(0, start)` |
| AllDestinations.PopOptimal | test.py:26-30 | a non-skipped pop of an unsettled node is at its least cost |
| AllDestinations.PopSettles | test.py:26-30 | every non-skipped pop carries exactly its node's distance, and no walk from the start to that node is cheaper |
| AllDestinations.Process | test.py:26-40 | handling a non-skipped pop settles its node; the new distances, paths and queue are that node's relaxation from the popped distance (only distances lowered through one of its steps change, each with the node's path extended by the neighbour and an entry queued; every neighbour ends at most the popped distance plus the weight); the invariant holds and a new node is settled or the queue shrinks |
| AllDestinations.RelaxNeighbours | test.py:33-40 | after the loop every neighbour is at most the base plus the weight; a distance changes only on a strict improvement through the node, whose path becomes the node's path plus the neighbour, and is queued |
| AllDestinations.ChangedBound | test.py:36-40 | a distance never increases, and a changed one is the base plus the weight of a step from the node |
| AllDestinations.NothingLowered | test.py:33-40 | relaxing again from an already settled node (a second pop at the same distance) changes no distance and pushes nothing |
| AllDestinations.FinalResult | test.py:24-42 | an empty queue leaves shortest distances and paths for every node |
| Examples.OnlyTwoHopWalk | test_1.py:60-79 | with positive weights and a unique two-unit-step route `s, m, t`, that route is the only walk of cost at most 2 and none is cheaper |
| Examples.TwoHopAnswer | test_1.py:60-79 | a least-cost answer on such a graph is `[s, m, t]` at cost 2 with all three nodes visited |
| Examples.SimplePath | test_1.py:7-24 | a_star from A to C on the line A-B-C returns `[A, B, C]`, cost 2, and visits all three |
| Examples.UnreachableEnd | test_1.py:26-42 | a_star from A to an isolated C returns `[]`, cost 0, and never visits C |
| Examples.StartIsEnd | test_1.py:44-58 | a_star from A to A returns `[A]` at cost 0 |
| Examples.MultiplePaths | test_1.py:60-79 | a_star prefers A-B-C (cost 2) over A-D-C (cost 4) |
| Examples.DirectedGraph | test_1.py:81-104 | on the directed triangle, A to C is `[A, B, C]` and C to B is `[C, A, B]`, each at cost 2 |
| Examples.SimpleChebyshev | test_1.py:7-24 | the Chebyshev distance of the coordinates is a consistent estimate towards C on that graph |
| Examples.DetourChebyshev | test_1.py:60-79 | the Chebyshev distance is a consistent estimate towards C on the detour graph |
| Openings.DetourOpenings | algorithms.py:19-47 | on the detour graph from A to C, dfs's opening holds exactly when D is visited second and bfs's exactly when B is, so the two traversals' contracts cannot both hold there |
| Examples.CycleChebyshev | test_1.py:81-104 | the Chebyshev distance is a consistent estimate towards C on the directed triangle |
| Examples.CycleChebyshevB | test_1.py:81-104 | the Chebyshev distance is a consistent estimate towards B on the directed triangle |

## Left out

- mainwindow.py, canvas.py and readwrite.py are not part of this model: they hold the window, drawing, dialogs and file I/O. The window's only logic is a call to runSearch.
- The demo block that prints a sample result (test.py:44-64) is not modelled.
- The `math.hypot` heuristic is floating point. The model replaces it with an arbitrary `metric: (Node, Node) -> nat`, still returning 0 when either id is undeclared.
- The test_1.py examples assume the estimate is consistent on each graph. The Euclidean estimate is consistent there, but that is a floating-point fact. The model proves the same assumption for the Chebyshev distance, which equals the Euclidean distance rounded down on these coordinates.
- Weights are non-negative integers (`nat`), as the application collects them. Negative weights are out of scope.
- An edge endpoint that is not a declared node makes `dist[nx]` raise a `KeyError`. The model does not model that failure: CostSearch.Dijkstra and CostSearch.AStar require `TargetsDeclared`.
- The same `KeyError` in test.py is excluded the same way: AllDestinations.Dijkstra requires `start in graph` and `Closed(graph)`, meaning every neighbour is a key.
- A cyclic `prev` would make reconstructPath loop forever. Predecessors.ReconstructPath requires a ranking that drops along every link. SearchState.LinksRanked proves the searches always supply one.
- The neighbour dict of test.py is modelled as a sequence of `(neighbour, weight)` pairs in iteration order. The proofs also hold when a neighbour repeats.
- Python's heap is modelled as a sequence with a linear extract-min over the same `(priority, id)` order. The heap's internal layout is not modelled.
- CostSearch.AStar: the least-cost path, and a cost equal to the path's weight sum, are proved only when the estimate is consistent. Without that, a node visited too early can be re-parented, and the returned cost is only an upper bound on the path's weight sum.
- No step-by-step replay of a search as a sequence of events exists in algorithms.py or test.py, so none is modelled. The window (mainwindow.py, not part of this model) receives the finished result from runSearch, lists the visited order in a table and passes the visited list and path to the canvas for drawing.
- Traversal.Dfs: the contract states the last-in-first-out order only for the second visit. The later order is fixed by the body, which always pops the last frame.
- Traversal.Bfs: the contract states the first-in-first-out order only for the second visit. The later order is fixed by the body, which always pops the first frame.
- Search.RunSearch: each tag gets its strategy's guarantee, not the strategy itself. "DFS" and "BFS" are told apart only by the second visit, as stated above. A result of dijkstra also meets a_star's contract, so the contract would not catch "A*" running dijkstra.
