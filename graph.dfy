/** The graph the searches read, and its two query helpers from algorithms.py:
    the direction-aware neighbour scan (getNeighbors) and the node lookup (getNode). */
module Graphs {
  import opened Walks

  datatype Option<T> = None | Some(value: T)

  /** A node: its id and planar coordinates (used only by the A* heuristic). */
  datatype Node = Node(id: string, x: int, y: int)

  /** An edge; a directed edge is traversable from start to end only. */
  datatype Edge = Edge(start: string, end: string, weight: nat, directed: bool)

  datatype Graph = Graph(nodes: seq<Node>, edges: seq<Edge>)

  /** Edge `e`, seen from `n`, offers the step to `v` with weight `w`. */
  predicate Offers(e: Edge, n: string, v: string, w: nat)
  {
    (e.start == n && e.end == v && e.weight == w) ||
    (!e.directed && e.end == n && e.start == v && e.weight == w)
  }

  /** What a scan of `edges` collects for node `n`, in edge order. */
  function Neighbors(edges: seq<Edge>, n: string): seq<Hop>
  {
    if edges == [] then []
    else Neighbors(edges[..|edges| - 1], n) + EdgeHops(edges[|edges| - 1], n)
  }

  /** What one edge contributes to the scan for `n`. */
  function EdgeHops(e: Edge, n: string): seq<Hop>
  {
    (if e.start == n then [(e.end, e.weight)] else [])
    + (if !e.directed && e.end == n then [(e.start, e.weight)] else [])
  }

  /** The successor function the searches walk over. */
  function Succ(g: Graph): SuccFn
  {
    (u: string) => Neighbors(g.edges, u)
  }

  function NodeIds(g: Graph): set<string>
  {
    set n | n in g.nodes :: n.id
  }

  /** Every node a step can lead to is declared; the cost-based searches index their
      distance table by declared ids only. */
  ghost predicate TargetsDeclared(g: Graph)
  {
    forall i :: 0 <= i < |g.edges| ==>
      g.edges[i].end in NodeIds(g) && (!g.edges[i].directed ==> g.edges[i].start in NodeIds(g))
  }

  /** getNeighbors: scan the edges once, appending (end, weight) for every edge leaving
      `n` and (start, weight) for every undirected edge arriving at `n`. */
  method GetNeighbors(g: Graph, n: string) returns (nbrs: seq<Hop>)
    ensures nbrs == Neighbors(g.edges, n)
  {
    nbrs := [];
    var i := 0;
    while i < |g.edges|
      invariant 0 <= i <= |g.edges|
      invariant nbrs == Neighbors(g.edges[..i], n)
    {
      var e := g.edges[i];
      assert g.edges[..i + 1][..i] == g.edges[..i];
      if e.start == n {
        nbrs := nbrs + [(e.end, e.weight)];
      }
      if !e.directed && e.end == n {
        nbrs := nbrs + [(e.start, e.weight)];
      }
      i := i + 1;
    }
    assert g.edges[..i] == g.edges;
  }

  /** Some edge of `edges` offers the step from `n` to `v` with weight `w`. */
  ghost predicate SomeEdgeOffers(edges: seq<Edge>, n: string, v: string, w: nat)
  {
    exists i :: 0 <= i < |edges| && Offers(edges[i], n, v, w)
  }

  lemma EdgeHopsMember(e: Edge, n: string, v: string, w: nat)
    ensures (v, w) in EdgeHops(e, n) <==> Offers(e, n, v, w)
  {
  }

  lemma SomeEdgeOffersSnoc(edges: seq<Edge>, n: string, v: string, w: nat)
    requires edges != []
    ensures SomeEdgeOffers(edges, n, v, w) <==>
      SomeEdgeOffers(edges[..|edges| - 1], n, v, w) || Offers(edges[|edges| - 1], n, v, w)
  {
    var k := |edges| - 1;
    if SomeEdgeOffers(edges[..k], n, v, w) {
      var i :| 0 <= i < k && Offers(edges[..k][i], n, v, w);
      assert Offers(edges[i], n, v, w);
    }
    if SomeEdgeOffers(edges, n, v, w) {
      var i :| 0 <= i < |edges| && Offers(edges[i], n, v, w);
      if i < k {
        assert Offers(edges[..k][i], n, v, w);
      }
    }
  }

  /** A hop is collected exactly when some edge offers it. */
  lemma {:induction false} NeighborsMember(edges: seq<Edge>, n: string, v: string, w: nat)
    ensures (v, w) in Neighbors(edges, n) <==> exists i :: 0 <= i < |edges| && Offers(edges[i], n, v, w)
  {
    if edges != [] {
      var k := |edges| - 1;
      NeighborsMember(edges[..k], n, v, w);
      EdgeHopsMember(edges[k], n, v, w);
      SomeEdgeOffersSnoc(edges, n, v, w);
      assert Neighbors(edges, n) == Neighbors(edges[..k], n) + EdgeHops(edges[k], n);
    }
    assert SomeEdgeOffers(edges, n, v, w) <==> exists i :: 0 <= i < |edges| && Offers(edges[i], n, v, w);
  }

  /** Edge order is kept: the hops from earlier edges come first. */
  lemma {:induction false} NeighborsConcat(a: seq<Edge>, b: seq<Edge>, n: string)
    ensures Neighbors(a + b, n) == Neighbors(a, n) + Neighbors(b, n)
  {
    if b != [] {
      var k := |b| - 1;
      assert (a + b)[..|a + b| - 1] == a + b[..k];
      NeighborsConcat(a, b[..k], n);
    } else {
      assert a + b == a;
    }
  }

  /** An id that appears in no edge has no neighbours. */
  lemma {:induction false} NeighborsOfStranger(edges: seq<Edge>, n: string)
    requires forall i :: 0 <= i < |edges| ==> edges[i].start != n && edges[i].end != n
    ensures Neighbors(edges, n) == []
  {
    if edges != [] {
      NeighborsOfStranger(edges[..|edges| - 1], n);
    }
  }

  /** A step of the graph lands on a declared node when targets are declared. */
  lemma StepTargetDeclared(g: Graph, u: string, v: string, w: nat)
    requires TargetsDeclared(g) && IsStep(Succ(g), u, v, w)
    ensures v in NodeIds(g)
  {
    NeighborsMember(g.edges, u, v, w);
  }

  /** The first node of `nodes` carrying `id`, if any. */
  function FindNode(nodes: seq<Node>, id: string): Option<Node>
  {
    if nodes == [] then None
    else if nodes[0].id == id then Some(nodes[0])
    else FindNode(nodes[1..], id)
  }

  /** FindNode answers with the first node carrying the id, and None exactly when no node
      does. */
  lemma {:induction false} FindNodeSpec(nodes: seq<Node>, id: string)
    ensures FindNode(nodes, id).Some? ==>
      exists k :: 0 <= k < |nodes| && nodes[k] == FindNode(nodes, id).value && nodes[k].id == id &&
        forall j :: 0 <= j < k ==> nodes[j].id != id
    ensures FindNode(nodes, id).None? <==> forall k :: 0 <= k < |nodes| ==> nodes[k].id != id
  {
    if nodes != [] && nodes[0].id != id {
      FindNodeSpec(nodes[1..], id);
      if FindNode(nodes, id).Some? {
        var k :| 0 <= k < |nodes[1..]| && nodes[1..][k] == FindNode(nodes, id).value &&
          nodes[1..][k].id == id && forall j :: 0 <= j < k ==> nodes[1..][j].id != id;
        assert nodes[k + 1] == FindNode(nodes, id).value;
        forall j | 0 <= j < k + 1 ensures nodes[j].id != id {
          if j > 0 { assert nodes[j] == nodes[1..][j - 1]; }
        }
      } else {
        forall k | 0 <= k < |nodes| ensures nodes[k].id != id {
          if k > 0 { assert nodes[k] == nodes[1..][k - 1]; }
        }
      }
    }
  }

  /** getNode: linear lookup returning the first node with the id, or None. */
  method GetNode(g: Graph, id: string) returns (r: Option<Node>)
    ensures r.Some? ==> r.value in g.nodes && r.value.id == id
    ensures r.None? <==> forall k :: 0 <= k < |g.nodes| ==> g.nodes[k].id != id
    ensures r == FindNode(g.nodes, id)
  {
    var i := 0;
    while i < |g.nodes|
      invariant 0 <= i <= |g.nodes|
      invariant forall j :: 0 <= j < i ==> g.nodes[j].id != id
      invariant FindNode(g.nodes, id) == FindNode(g.nodes[i..], id)
    {
      if g.nodes[i].id == id {
        FindNodeSpec(g.nodes, id);
        return Some(g.nodes[i]);
      }
      assert g.nodes[i..][1..] == g.nodes[i + 1..];
      i := i + 1;
    }
    FindNodeSpec(g.nodes, id);
    return None;
  }
}
