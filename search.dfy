/** runSearch: the string tag chosen in the window selects one of the four searches. */
module Search {
  import opened Walks
  import opened Graphs
  import opened Traversal
  import opened SearchState
  import opened CostSearch

  /** Dispatch on the tag; an unknown tag returns ([], [], 0). a_star's Euclidean
      heuristic is the `metric` parameter. */
  method RunSearch(g: Graph, metric: (Node, Node) -> nat, algo: string, s: string, e: string)
    returns (visited: seq<string>, path: seq<string>, cost: nat)
    requires algo == "A*" || algo == "Dijkstra" ==> TargetsDeclared(g)
    ensures algo == "DFS" || algo == "BFS" ==> TraversalResult(g, s, e, visited, path, cost)
    ensures algo == "DFS" ==> DepthFirstOpening(g, s, e, visited)
    ensures algo == "BFS" ==> BreadthFirstOpening(g, s, e, visited)
    ensures algo == "A*" ==> BestFirstResult(g, s, e, visited, path, cost)
    ensures algo == "A*" && Consistent(g, Estimate(g, metric, e)) ==> OptimalResult(g, s, e, visited, path, cost)
    ensures algo == "Dijkstra" ==> OptimalResult(g, s, e, visited, path, cost)
    ensures algo !in {"DFS", "BFS", "A*", "Dijkstra"} ==> visited == [] && path == [] && cost == 0
  {
    if algo == "DFS" {
      visited, path, cost := Dfs(g, s, e);
    } else if algo == "BFS" {
      visited, path, cost := Bfs(g, s, e);
    } else if algo == "A*" {
      visited, path, cost := AStar(g, metric, s, e);
    } else if algo == "Dijkstra" {
      visited, path, cost := Dijkstra(g, s, e);
    } else {
      visited, path, cost := [], [], 0;
    }
  }
}
