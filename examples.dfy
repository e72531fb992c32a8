/** The five graphs of test_1.py and what a_star returns on each. The estimate is left
    abstract: every expected answer follows from the search's contract once the estimate is
    consistent, which the Chebyshev distance of the node coordinates is on these graphs. */
module Examples {
  import opened Walks
  import opened Graphs
  import opened SearchState
  import opened CostSearch

  function SimpleGraph(): Graph
  {
    Graph([Node("A", 0, 0), Node("B", 1, 0), Node("C", 2, 0)],
          [Edge("A", "B", 1, false), Edge("B", "C", 1, false)])
  }

  function SplitGraph(): Graph
  {
    Graph([Node("A", 0, 0), Node("B", 1, 0), Node("C", 2, 0)],
          [Edge("A", "B", 1, false)])
  }

  function PairGraph(): Graph
  {
    Graph([Node("A", 0, 0), Node("B", 1, 0)], [Edge("A", "B", 1, false)])
  }

  function DetourGraph(): Graph
  {
    Graph([Node("A", 0, 0), Node("B", 1, 0), Node("C", 2, 0), Node("D", 1, 1)],
          [Edge("A", "B", 1, false), Edge("B", "C", 1, false),
           Edge("A", "D", 1, false), Edge("D", "C", 3, false)])
  }

  function CycleGraph(): Graph
  {
    Graph([Node("A", 0, 0), Node("B", 1, 0), Node("C", 2, 0)],
          [Edge("A", "B", 1, true), Edge("B", "C", 1, true), Edge("C", "A", 1, true)])
  }

  /** max(|dx|, |dy|); on these integer grids it is the Euclidean distance rounded down. */
  function Chebyshev(a: Node, b: Node): nat
  {
    var dx := if a.x <= b.x then b.x - a.x else a.x - b.x;
    var dy := if a.y <= b.y then b.y - a.y else a.y - b.y;
    if dx <= dy then dy else dx
  }

  ghost predicate PositiveWeights(g: Graph)
  {
    forall e :: e in g.edges ==> e.weight >= 1
  }

  lemma {:induction false} SumAtLeastLength(ws: seq<nat>)
    requires forall i :: 0 <= i < |ws| ==> ws[i] >= 1
    ensures Sum(ws) >= |ws|
  {
    if ws != [] {
      SumAtLeastLength(ws[..|ws| - 1]);
    }
  }

  /** With positive weights every walk costs at least its number of steps. */
  lemma WalkAtLeastLength(g: Graph, p: seq<string>, ws: seq<nat>)
    requires PositiveWeights(g) && Walk(Succ(g), p, ws)
    ensures Sum(ws) >= |ws|
  {
    forall i | 0 <= i < |ws| ensures ws[i] >= 1 {
      NeighborsMember(g.edges, p[i], p[i + 1], ws[i]);
      var j :| 0 <= j < |g.edges| && Offers(g.edges[j], p[i], p[i + 1], ws[i]);
      assert g.edges[j] in g.edges;
    }
    SumAtLeastLength(ws);
  }

  /** When `t` is not one step from `s` and `m` is the only node reached from `s` and
      reaching `t` with two unit steps, the walk through `m` is the only walk of cost at
      most 2, and no walk from `s` to `t` is cheaper. */
  lemma OnlyTwoHopWalk(g: Graph, s: string, m: string, t: string)
    requires PositiveWeights(g) && s != t
    requires forall w :: !IsStep(Succ(g), s, t, w)
    requires IsStep(Succ(g), s, m, 1) && IsStep(Succ(g), m, t, 1)
    requires forall x :: IsStep(Succ(g), s, x, 1) && IsStep(Succ(g), x, t, 1) ==> x == m
    ensures WalkFromTo(Succ(g), [s, m, t], [1, 1], s, t) && Sum([1, 1]) == 2
    ensures NoCheaperWalk(Succ(g), s, t, 2)
    ensures forall p, ws :: WalkFromTo(Succ(g), p, ws, s, t) && Sum(ws) <= 2 ==> p == [s, m, t]
  {
    assert Sum([1, 1]) == Sum([1]) + 1;
    forall p, ws | WalkFromTo(Succ(g), p, ws, s, t) ensures 2 <= Sum(ws) {
      WalkAtLeastLength(g, p, ws);
    }
    forall p, ws | WalkFromTo(Succ(g), p, ws, s, t) && Sum(ws) <= 2 ensures p == [s, m, t] {
      WalkAtLeastLength(g, p, ws);
      assert |ws| == 2;
      assert ws[..1] == [ws[0]];
      assert Sum(ws) == Sum([ws[0]]) + ws[1];
      assert IsStep(Succ(g), p[0], p[1], ws[0]) && IsStep(Succ(g), p[1], p[2], ws[1]);
      NeighborsMember(g.edges, p[0], p[1], ws[0]);
      NeighborsMember(g.edges, p[1], p[2], ws[1]);
    }
  }

  /** A least-cost answer on a graph with a unique two-hop optimum is that two-hop path. */
  lemma TwoHopAnswer(g: Graph, s: string, m: string, t: string, visited: seq<string>,
                     path: seq<string>, cost: nat)
    requires PositiveWeights(g) && s != t
    requires forall w :: !IsStep(Succ(g), s, t, w)
    requires IsStep(Succ(g), s, m, 1) && IsStep(Succ(g), m, t, 1)
    requires forall x :: IsStep(Succ(g), s, x, 1) && IsStep(Succ(g), x, t, 1) ==> x == m
    requires OptimalResult(g, s, t, visited, path, cost)
    ensures path == [s, m, t] && cost == 2
    ensures s in visited && m in visited && t in visited
  {
    OnlyTwoHopWalk(g, s, m, t);
    assert path != [];
    var ws :| WalkFromTo(Succ(g), path, ws, s, t) && Sum(ws) == cost;
    assert cost <= 2;
    assert path == [s, m, t];
    assert path[0] in path && path[1] in path && path[2] in path;
  }

  /** Every step of `g` is offered by one of its edges. */
  lemma StepFromEdge(g: Graph, u: string, v: string, w: nat) returns (i: nat)
    requires IsStep(Succ(g), u, v, w)
    ensures i < |g.edges| && Offers(g.edges[i], u, v, w)
  {
    NeighborsMember(g.edges, u, v, w);
    i :| 0 <= i < |g.edges| && Offers(g.edges[i], u, v, w);
  }

  /** Every edge offers its steps. */
  lemma EdgeStep(g: Graph, i: nat, u: string, v: string, w: nat)
    requires i < |g.edges| && Offers(g.edges[i], u, v, w)
    ensures IsStep(Succ(g), u, v, w)
  {
    NeighborsMember(g.edges, u, v, w);
  }

  /** No node before index `k` carries `id`. */
  predicate IdAbsent(nodes: seq<Node>, id: string, k: nat)
  {
    k == 0 || (nodes != [] && nodes[0].id != id && IdAbsent(nodes[1..], id, k - 1))
  }

  lemma {:induction false} FindFirst(nodes: seq<Node>, k: nat)
    requires k < |nodes| && IdAbsent(nodes, nodes[k].id, k)
    ensures FindNode(nodes, nodes[k].id) == Some(nodes[k])
  {
    if k > 0 {
      assert nodes[1..][k - 1] == nodes[k];
      FindFirst(nodes[1..], k - 1);
    }
  }

  /** The node with id `a` is at index `k`, the one with id `b` at index `l`. */
  lemma ChebyshevAt(g: Graph, k: nat, l: nat)
    requires k < |g.nodes| && l < |g.nodes|
    requires IdAbsent(g.nodes, g.nodes[k].id, k) && IdAbsent(g.nodes, g.nodes[l].id, l)
    ensures Estimate(g, Chebyshev, g.nodes[l].id)(g.nodes[k].id) == Chebyshev(g.nodes[k], g.nodes[l])
  {
    FindFirst(g.nodes, k);
    FindFirst(g.nodes, l);
  }

  lemma SimpleSteps(u: string, v: string, w: nat)
    requires IsStep(Succ(SimpleGraph()), u, v, w)
    ensures w == 1
    ensures (u, v) in {("A", "B"), ("B", "A"), ("B", "C"), ("C", "B")}
  {
    var i := StepFromEdge(SimpleGraph(), u, v, w);
  }

  lemma SimpleWellFormed()
    ensures TargetsDeclared(SimpleGraph()) && PositiveWeights(SimpleGraph())
  {
  }

  lemma SimpleGraphFacts()
    ensures IsStep(Succ(SimpleGraph()), "A", "B", 1) && IsStep(Succ(SimpleGraph()), "B", "C", 1)
    ensures forall x, w :: IsStep(Succ(SimpleGraph()), "A", x, w) ==> x == "B"
  {
    var g := SimpleGraph();
    assert g.nodes[1].id == "B" && g.nodes[0].id == "A" && g.nodes[2].id == "C";
    EdgeStep(g, 0, "A", "B", 1);
    EdgeStep(g, 1, "B", "C", 1);
    forall x, w | IsStep(Succ(g), "A", x, w) ensures x == "B" {
      SimpleSteps("A", x, w);
    }
  }

  lemma SimpleChebyshev()
    ensures Consistent(SimpleGraph(), Estimate(SimpleGraph(), Chebyshev, "C"))
  {
    var g := SimpleGraph();
    var h := Estimate(g, Chebyshev, "C");
    ChebyshevAt(g, 0, 2);
    ChebyshevAt(g, 1, 2);
    ChebyshevAt(g, 2, 2);
    forall u, v, w: nat | IsStep(Succ(g), u, v, w) ensures h(u) <= w + h(v) {
      SimpleSteps(u, v, w);
    }
  }

  lemma DetourSteps(u: string, v: string, w: nat)
    requires IsStep(Succ(DetourGraph()), u, v, w)
    ensures (u, v, w) in {("A", "B", 1), ("B", "A", 1), ("B", "C", 1), ("C", "B", 1),
                          ("A", "D", 1), ("D", "A", 1), ("D", "C", 3), ("C", "D", 3)}
  {
    var i := StepFromEdge(DetourGraph(), u, v, w);
  }

  lemma DetourWellFormed()
    ensures TargetsDeclared(DetourGraph()) && PositiveWeights(DetourGraph())
  {
  }

  lemma DetourGraphFacts()
    ensures IsStep(Succ(DetourGraph()), "A", "B", 1) && IsStep(Succ(DetourGraph()), "B", "C", 1)
    ensures forall w :: !IsStep(Succ(DetourGraph()), "A", "C", w)
    ensures forall x :: IsStep(Succ(DetourGraph()), "A", x, 1) && IsStep(Succ(DetourGraph()), x, "C", 1) ==> x == "B"
  {
    var g := DetourGraph();
    assert g.nodes[1].id == "B" && g.nodes[0].id == "A" && g.nodes[2].id == "C" && g.nodes[3].id == "D";
    EdgeStep(g, 0, "A", "B", 1);
    EdgeStep(g, 1, "B", "C", 1);
    forall w | IsStep(Succ(g), "A", "C", w) ensures false {
      DetourSteps("A", "C", w);
    }
    forall x | IsStep(Succ(g), "A", x, 1) && IsStep(Succ(g), x, "C", 1) ensures x == "B" {
      DetourSteps("A", x, 1);
      DetourSteps(x, "C", 1);
    }
  }

  lemma DetourChebyshev()
    ensures Consistent(DetourGraph(), Estimate(DetourGraph(), Chebyshev, "C"))
  {
    var g := DetourGraph();
    var h := Estimate(g, Chebyshev, "C");
    ChebyshevAt(g, 0, 2);
    ChebyshevAt(g, 1, 2);
    ChebyshevAt(g, 2, 2);
    ChebyshevAt(g, 3, 2);
    forall u, v, w: nat | IsStep(Succ(g), u, v, w) ensures h(u) <= w + h(v) {
      DetourSteps(u, v, w);
    }
  }

  lemma CycleSteps(u: string, v: string, w: nat)
    requires IsStep(Succ(CycleGraph()), u, v, w)
    ensures w == 1
    ensures (u, v) in {("A", "B"), ("B", "C"), ("C", "A")}
  {
    var i := StepFromEdge(CycleGraph(), u, v, w);
  }

  lemma CycleWellFormed()
    ensures TargetsDeclared(CycleGraph()) && PositiveWeights(CycleGraph())
  {
  }

  lemma CycleGraphFacts()
    ensures IsStep(Succ(CycleGraph()), "A", "B", 1) && IsStep(Succ(CycleGraph()), "B", "C", 1)
    ensures IsStep(Succ(CycleGraph()), "C", "A", 1)
    ensures forall x, w :: IsStep(Succ(CycleGraph()), "A", x, w) ==> x == "B"
    ensures forall x, w :: IsStep(Succ(CycleGraph()), "C", x, w) ==> x == "A"
  {
    var g := CycleGraph();
    assert g.nodes[1].id == "B" && g.nodes[0].id == "A" && g.nodes[2].id == "C";
    EdgeStep(g, 0, "A", "B", 1);
    EdgeStep(g, 1, "B", "C", 1);
    EdgeStep(g, 2, "C", "A", 1);
    forall x, w | IsStep(Succ(g), "A", x, w) ensures x == "B" {
      CycleSteps("A", x, w);
    }
    forall x, w | IsStep(Succ(g), "C", x, w) ensures x == "A" {
      CycleSteps("C", x, w);
    }
  }

  lemma CycleChebyshev()
    ensures Consistent(CycleGraph(), Estimate(CycleGraph(), Chebyshev, "C"))
  {
    var g := CycleGraph();
    var h := Estimate(g, Chebyshev, "C");
    ChebyshevAt(g, 0, 2);
    ChebyshevAt(g, 1, 2);
    ChebyshevAt(g, 2, 2);
    forall u, v, w: nat | IsStep(Succ(g), u, v, w) ensures h(u) <= w + h(v) {
      CycleSteps(u, v, w);
    }
  }

  lemma CycleChebyshevB()
    ensures Consistent(CycleGraph(), Estimate(CycleGraph(), Chebyshev, "B"))
  {
    var g := CycleGraph();
    var h := Estimate(g, Chebyshev, "B");
    ChebyshevAt(g, 0, 1);
    ChebyshevAt(g, 1, 1);
    ChebyshevAt(g, 2, 1);
    forall u, v, w: nat | IsStep(Succ(g), u, v, w) ensures h(u) <= w + h(v) {
      CycleSteps(u, v, w);
    }
  }

  /** test_simple_path: A-B-C in a line; the answer is A, B, C at cost 2, all visited. */
  method SimplePath(metric: (Node, Node) -> nat) returns (visited: seq<string>, path: seq<string>, cost: nat)
    requires Consistent(SimpleGraph(), Estimate(SimpleGraph(), metric, "C"))
    ensures path == ["A", "B", "C"] && cost == 2
    ensures "A" in visited && "B" in visited && "C" in visited
  {
    var g := SimpleGraph();
    SimpleWellFormed();
    SimpleGraphFacts();
    visited, path, cost := AStar(g, metric, "A", "C");
    TwoHopAnswer(g, "A", "B", "C", visited, path, cost);
  }

  /** test_unreachable_end: C has no edge, so the answer is empty, costs 0, and C is never
      visited; no estimate assumption is needed. */
  method UnreachableEnd(metric: (Node, Node) -> nat) returns (visited: seq<string>, path: seq<string>, cost: nat)
    ensures path == [] && cost == 0 && "C" !in visited
  {
    var g := SplitGraph();
    var S := {"A", "B"};
    assert g.nodes[1].id == "B" && g.nodes[0].id == "A";
    assert TargetsDeclared(g);
    forall u, v, w | u in S && IsStep(Succ(g), u, v, w) ensures v in S {
      var i := StepFromEdge(g, u, v, w);
    }
    ClosedSetSeparates(Succ(g), S, "A", "C");
    visited, path, cost := AStar(g, metric, "A", "C");
  }

  /** test_start_is_end: searching from A to A answers [A] at cost 0. */
  method StartIsEnd(metric: (Node, Node) -> nat) returns (visited: seq<string>, path: seq<string>, cost: nat)
    ensures path == ["A"] && cost == 0
  {
    var g := PairGraph();
    assert g.nodes[1].id == "B" && g.nodes[0].id == "A";
    assert TargetsDeclared(g);
    visited, path, cost := AStar(g, metric, "A", "A");
  }

  /** test_multiple_paths: the detour through D costs 4, so the answer is A, B, C at cost 2. */
  method MultiplePaths(metric: (Node, Node) -> nat) returns (visited: seq<string>, path: seq<string>, cost: nat)
    requires Consistent(DetourGraph(), Estimate(DetourGraph(), metric, "C"))
    ensures path == ["A", "B", "C"] && cost == 2
  {
    var g := DetourGraph();
    DetourWellFormed();
    DetourGraphFacts();
    visited, path, cost := AStar(g, metric, "A", "C");
    TwoHopAnswer(g, "A", "B", "C", visited, path, cost);
  }

  /** test_directed_graph: on the directed cycle A->B->C->A, A to C goes through B and C to
      B goes round through A, each at cost 2. */
  method DirectedGraph(metric: (Node, Node) -> nat)
    returns (path1: seq<string>, cost1: nat, path2: seq<string>, cost2: nat)
    requires Consistent(CycleGraph(), Estimate(CycleGraph(), metric, "C"))
    requires Consistent(CycleGraph(), Estimate(CycleGraph(), metric, "B"))
    ensures path1 == ["A", "B", "C"] && cost1 == 2
    ensures path2 == ["C", "A", "B"] && cost2 == 2
  {
    var g := CycleGraph();
    CycleWellFormed();
    CycleGraphFacts();
    var visited1, visited2;
    visited1, path1, cost1 := AStar(g, metric, "A", "C");
    TwoHopAnswer(g, "A", "B", "C", visited1, path1, cost1);
    visited2, path2, cost2 := AStar(g, metric, "C", "B");
    TwoHopAnswer(g, "C", "A", "B", visited2, path2, cost2);
  }
}
