/** How dfs and bfs leave the start, shown on one of the example graphs. */
module Openings {
  import opened Walks
  import opened Graphs
  import opened Traversal
  import opened Examples

  /** The scan of the detour graph's edges for A finds B, then D. */
  lemma DetourHopsOfA()
    ensures Neighbors(DetourGraph().edges, "A") == [("B", 1), ("D", 1)]
  {
    var edges := DetourGraph().edges;
    assert Neighbors(edges[..1], "A") == [("B", 1)] by {
      assert edges[..1][..0] == [];
    }
    assert Neighbors(edges[..2], "A") == [("B", 1)] by {
      assert edges[..2][..1] == edges[..1];
    }
    assert Neighbors(edges[..3], "A") == [("B", 1), ("D", 1)] by {
      assert edges[..3][..2] == edges[..2];
    }
    assert edges[..3] == edges[..|edges| - 1];
  }

  /** dfs and bfs leave A differently on the detour graph: A pushes B first and D last,
      so on the way to C dfs visits D second and bfs visits B second. */
  lemma DetourOpenings(visited: seq<string>)
    ensures DepthFirstOpening(DetourGraph(), "A", "C", visited) <==> |visited| > 1 && visited[1] == "D"
    ensures BreadthFirstOpening(DetourGraph(), "A", "C", visited) <==> |visited| > 1 && visited[1] == "B"
  {
    DetourHopsOfA();
    var top := Frame("A", ["A"], 0);
    var hops: seq<Hop> := [("B", 1), ("D", 1)];
    assert hops[..1][..0] == [] && hops[..1] == [("B", 1)];
    assert ["A"] + ["B"] == ["A", "B"] && ["A"] + ["D"] == ["A", "D"];
    assert "B" !in ["A"] && "D" !in ["A"];
    assert Children(["A"], top, hops[..1]) == [Frame("B", ["A", "B"], 1)];
    assert hops[..|hops| - 1] == hops[..1];
    assert StartChildren(DetourGraph(), "A") == [Frame("B", ["A", "B"], 1), Frame("D", ["A", "D"], 1)];
  }
}
