/** dijkstra and a_star from algorithms.py: best-first searches over a binary heap of
    (priority, id) pairs with a distance table and predecessor links. */
module CostSearch {
  import opened Walks
  import opened Graphs
  import opened Heap
  import opened Traversal
  import opened BestFirst
  import opened Predecessors
  import opened SearchState

  /** The weights paid along a predecessor chain: step i pays the weight recorded for the
      node it reaches. */
  ghost function ChainWeights(pw: map<string, nat>, c: seq<string>): (ws: seq<nat>)
    requires forall i :: 0 < i < |c| ==> c[i] in pw
    ensures |c| > 0 ==> |ws| == |c| - 1
    ensures forall i :: 0 <= i < |ws| && i + 1 < |c| ==> ws[i] == pw[c[i + 1]]
    decreases |c|
  {
    if |c| <= 1 then [] else ChainWeights(pw, c[..|c| - 1]) + [pw[c[|c| - 1]]]
  }

  /** Along a chain where every link costs at most the distance difference, the chain
      costs at most the difference between its ends (exactly that when every link is
      exact). */
  ghost predicate LinkPaid(dist: map<string, Ext>, pw: map<string, nat>, a: string, b: string, exact: bool)
  {
    Known(dist, a) && Known(dist, b) && b in pw && dist[a].val + pw[b] <= dist[b].val &&
    (exact ==> dist[a].val + pw[b] == dist[b].val)
  }

  lemma {:induction false} ChainSum(dist: map<string, Ext>, pw: map<string, nat>, c: seq<string>, exact: bool)
    requires |c| > 0 && Known(dist, c[0]) && Known(dist, c[|c| - 1])
    requires forall i :: 0 < i < |c| ==> c[i] in pw
    requires forall i :: 0 < i < |c| ==> LinkPaid(dist, pw, c[i - 1], c[i], exact)
    ensures dist[c[0]].val + Sum(ChainWeights(pw, c)) <= dist[c[|c| - 1]].val
    ensures exact ==> dist[c[0]].val + Sum(ChainWeights(pw, c)) == dist[c[|c| - 1]].val
  {
    var n := |c| - 1;
    if n > 0 {
      var c' := c[..n];
      assert LinkPaid(dist, pw, c[n - 1], c[n], exact);
      ChainSum(dist, pw, c', exact);
      var ws := ChainWeights(pw, c);
      assert ws[..n - 1] == ChainWeights(pw, c');
    }
  }

  /** Following predecessor links back from a node with a finite distance walks forward
      through visited nodes, and the walk costs at most the distance difference (exactly
      that when every link is paid exactly). */
  lemma ChainWalk(g: Graph, visited: seq<string>, dist: map<string, Ext>,
                  prev: map<string, string>, L: Ledger, c: seq<string>)
    requires LinksOk(g, visited, dist, prev, L) && PrevChain(prev, c) && |c| > 0
    requires Known(dist, c[|c| - 1])
    ensures forall i :: 0 < i < |c| ==> c[i] in L.pw
    ensures Known(dist, c[0]) && forall i :: 0 <= i < |c| ==> Known(dist, c[i])
    ensures forall i :: 0 <= i < |c| - 1 ==> c[i] in visited
    ensures Walk(Succ(g), c, ChainWeights(L.pw, c))
    ensures dist[c[0]].val + Sum(ChainWeights(L.pw, c)) <= dist[c[|c| - 1]].val
    ensures TightOk(dist, prev, L) ==> dist[c[0]].val + Sum(ChainWeights(L.pw, c)) == dist[c[|c| - 1]].val
  {
    var tight := TightOk(dist, prev, L);
    ChainLinks(g, visited, dist, prev, L, c, tight);
    ChainSum(dist, L.pw, c, tight);
    var ws := ChainWeights(L.pw, c);
    forall i | 0 <= i < |ws| ensures IsStep(Succ(g), c[i], c[i + 1], ws[i]) {
      assert ChainStep(g, L.pw, c[i], c[i + 1]);
    }
    forall i | 0 <= i < |c| ensures Known(dist, c[i]) {
      if i > 0 { assert LinkPaid(dist, L.pw, c[i - 1], c[i], tight); }
    }
  }

  ghost predicate ChainStep(g: Graph, pw: map<string, nat>, a: string, b: string)
  {
    b in pw && IsStep(Succ(g), a, b, pw[b])
  }

  /** Each link of a predecessor chain, read off the link invariant. */
  lemma ChainLinks(g: Graph, visited: seq<string>, dist: map<string, Ext>,
                   prev: map<string, string>, L: Ledger, c: seq<string>, tight: bool)
    requires LinksOk(g, visited, dist, prev, L) && PrevChain(prev, c) && |c| > 0
    requires Known(dist, c[|c| - 1]) && (tight ==> TightOk(dist, prev, L))
    ensures Known(dist, c[0])
    ensures forall i :: 0 < i < |c| ==> ChainStep(g, L.pw, c[i - 1], c[i])
    ensures forall i :: 0 < i < |c| ==> LinkPaid(dist, L.pw, c[i - 1], c[i], tight)
    ensures forall i :: 0 <= i < |c| - 1 ==> c[i] in visited
  {
    forall i | 0 < i < |c|
      ensures ChainStep(g, L.pw, c[i - 1], c[i]) && LinkPaid(dist, L.pw, c[i - 1], c[i], tight)
    {
      assert Link(g, visited, dist, prev, L, c[i]);
    }
    forall i | 0 <= i < |c| - 1 ensures c[i] in visited {
      assert Link(g, visited, dist, prev, L, c[i + 1]);
    }
    if |c| > 1 {
      assert LinkPaid(dist, L.pw, c[0], c[1], tight);
    }
  }

  /** A predecessor chain ending at a node with a finite distance starts at the start or at
      a node that still has a predecessor. */
  lemma NoStrandedChain(g: Graph, s: string, visited: seq<string>, dist: map<string, Ext>,
                        prev: map<string, string>, L: Ledger, e: string)
    requires LinksOk(g, visited, dist, prev, L) && ParentsOk(s, dist, prev) && Known(dist, e)
    ensures !exists c :: |c| > 0 && PrevChain(prev, c) && c[|c| - 1] == e && c[0] !in prev && c[0] != s
  {
    forall c | |c| > 0 && PrevChain(prev, c) && c[|c| - 1] == e ensures c[0] in prev || c[0] == s {
      ChainWalk(g, visited, dist, prev, L, c);
      assert HasParent(s, prev, c[0]);
    }
  }

  /** What dijkstra and a_star promise whatever the estimate: an empty path only when the
      end is unreachable; otherwise a walk from start to end through visited nodes whose
      weights add up to at most the returned cost, which is itself the cost of some walk. */
  ghost predicate BestFirstResult(g: Graph, s: string, e: string, visited: seq<string>,
                                  path: seq<string>, cost: nat)
  {
    visited != [] && VisitOrderOk(g, s, visited) &&
    (path == [] ==> cost == 0 && e !in visited && !Reachable(Succ(g), s, e)) &&
    (path != [] ==>
      (exists ws :: WalkFromTo(Succ(g), path, ws, s, e) && Sum(ws) <= cost) &&
      (exists p, ws :: WalkFromTo(Succ(g), p, ws, s, e) && Sum(ws) == cost) &&
      Distinct(path) && (forall n :: n in path ==> n in visited) && visited[|visited| - 1] == e) &&
    (s == e ==> visited == [s] && path == [s] && cost == 0)
  }

  /** What they promise with a consistent estimate: the path costs exactly the returned cost
      and no walk from start to end is cheaper. */
  ghost predicate OptimalResult(g: Graph, s: string, e: string, visited: seq<string>,
                                path: seq<string>, cost: nat)
  {
    TraversalResult(g, s, e, visited, path, cost) &&
    (path != [] ==> NoCheaperWalk(Succ(g), s, e, cost))
  }

  /** What the invariant says about the end when it is popped fresh. */
  lemma ArrivalFacts(g: Graph, h: string -> nat, s: string, e: string, visited: seq<string>,
                     dist: map<string, Ext>, prev: map<string, string>, pq: seq<Entry>, L: Ledger, x: Entry)
    requires Inv(g, h, s, e, visited, dist, prev, pq, L, {})
    requires x in pq && (forall y :: y in pq ==> !EntryLess(y, x)) && x.node == e
    ensures Known(dist, e) && Recorded(g, s, dist, L, e) && e !in visited
    ensures VisitOrderOk(g, s, visited + [e]) && (visited == [] ==> e == s)
    ensures TableOk(g, s, dist, prev) && LinksOk(g, visited, dist, prev, L) && ParentsOk(s, dist, prev)
    ensures Consistent(g, h) ==> TightOk(dist, prev, L) && NoCheaperWalk(Succ(g), s, e, dist[e].val)
  {
    PopPriority(g, h, s, e, visited, dist, prev, pq, L, x);
    VisitOrderOnPop(g, h, s, e, visited, dist, prev, pq, L, x);
    if Consistent(g, h) {
      PopOptimal(g, h, s, e, visited, dist, prev, pq, L, x);
    }
  }

  /** Popping the end fresh and reconstructing its path finishes the search. */
  lemma ArrivalResult(g: Graph, h: string -> nat, s: string, e: string, visited: seq<string>,
                      dist: map<string, Ext>, prev: map<string, string>, L: Ledger, path: seq<string>)
    requires Known(dist, e) && Recorded(g, s, dist, L, e) && e !in visited
    requires VisitOrderOk(g, s, visited + [e]) && (visited == [] ==> e == s)
    requires TableOk(g, s, dist, prev) && LinksOk(g, visited, dist, prev, L) && ParentsOk(s, dist, prev)
    requires Consistent(g, h) ==> TightOk(dist, prev, L) && NoCheaperWalk(Succ(g), s, e, dist[e].val)
    requires path != [] ==>
      path[0] == s && path[|path| - 1] == e && s !in prev && PrevChain(prev, path) && Distinct(path)
    requires path == [] ==>
      exists c :: |c| > 0 && PrevChain(prev, c) && c[|c| - 1] == e && c[0] !in prev && c[0] != s
    requires e == s && s !in prev ==> path == [s]
    ensures BestFirstResult(g, s, e, visited + [e], path, dist[e].val)
    ensures Consistent(g, h) ==> OptimalResult(g, s, e, visited + [e], path, dist[e].val)
  {
    PathFound(g, s, e, visited, dist, prev, L, path);
    var ws := ChainWeights(L.pw, path);
    assert WalkFromTo(Succ(g), L.route[e], L.steps[e], s, e);
    if Consistent(g, h) {
      assert Sum(ws) == dist[e].val;
    }
  }

  /** The reconstructed path is never empty: it is the predecessor chain from the start to
      the end, a walk through visited nodes costing at most the end's distance. */
  lemma PathFound(g: Graph, s: string, e: string, visited: seq<string>,
                  dist: map<string, Ext>, prev: map<string, string>, L: Ledger, path: seq<string>)
    requires Known(dist, e) && LinksOk(g, visited, dist, prev, L) && ParentsOk(s, dist, prev)
    requires s in dist && dist[s] == Fin(0)
    requires path != [] ==> path[0] == s && path[|path| - 1] == e && PrevChain(prev, path)
    requires path == [] ==>
      exists c :: |c| > 0 && PrevChain(prev, c) && c[|c| - 1] == e && c[0] !in prev && c[0] != s
    ensures path != [] && forall i :: 0 < i < |path| ==> path[i] in L.pw
    ensures WalkFromTo(Succ(g), path, ChainWeights(L.pw, path), s, e)
    ensures Sum(ChainWeights(L.pw, path)) <= dist[e].val
    ensures TightOk(dist, prev, L) ==> Sum(ChainWeights(L.pw, path)) == dist[e].val
    ensures forall n :: n in path ==> n in visited + [e]
  {
    NoStrandedChain(g, s, visited, dist, prev, L, e);
    ChainWalk(g, visited, dist, prev, L, path);
    forall n | n in path ensures n in visited + [e] {
      var i :| 0 <= i < |path| && path[i] == n;
      if i < |path| - 1 { assert path[i] in visited; }
    }
  }

  /** The end is popped fresh: rebuild its path from the predecessor links. */
  method Arrive(g: Graph, ghost h: string -> nat, s: string, e: string, ghost visited: seq<string>,
                ghost dist: map<string, Ext>, prev: map<string, string>, ghost pq: seq<Entry>, ghost L: Ledger,
                ghost x: Entry)
    returns (path: seq<string>)
    requires Inv(g, h, s, e, visited, dist, prev, pq, L, {})
    requires x in pq && (forall y :: y in pq ==> !EntryLess(y, x)) && x.node == e
    ensures Known(dist, e)
    ensures BestFirstResult(g, s, e, visited + [e], path, dist[e].val)
    ensures Consistent(g, h) ==> OptimalResult(g, s, e, visited + [e], path, dist[e].val)
  {
    ArrivalFacts(g, h, s, e, visited, dist, prev, pq, L, x);
    LinksRanked(g, visited, dist, prev, L);
    path := ReconstructPath(prev, s, e, Major(dist), L.stamp);
    ArrivalResult(g, h, s, e, visited, dist, prev, L, path);
  }

  /** A node other than the end is popped fresh: visit it and relax every step out of it
      from `base`, its distance. */
  method Settle(g: Graph, h: string -> nat, s: string, e: string, visited: seq<string>,
                dist: map<string, Ext>, prev: map<string, string>, pq: seq<Entry>, ghost L: Ledger,
                x: Entry, rest: seq<Entry>, base: nat)
    returns (visited': seq<string>, dist': map<string, Ext>, prev': map<string, string>,
             pq': seq<Entry>, ghost L': Ledger)
    requires Inv(g, h, s, e, visited, dist, prev, pq, L, {})
    requires x in pq && (forall y :: y in pq ==> !EntryLess(y, x)) && x.node !in visited && x.node != e
    requires multiset(rest) == multiset(pq) - multiset{x}
    requires Known(dist, x.node) && base == dist[x.node].val
    ensures visited' == visited + [x.node] && dist'.Keys == dist.Keys
    ensures RelaxSoFar(g, h, x.node, base, dist, prev, rest, L, dist', prev', pq', L')
    ensures forall v, w: nat :: IsStep(Succ(g), x.node, v, w) ==>
      v in dist' && dist'[v].Fin? && dist'[v].val <= base + w
    ensures Inv(g, h, s, e, visited', dist', prev', pq', L', {})
    ensures |AsSet(visited)| < |AsSet(visited')| <= |dist.Keys|
  {
    var current := x.node;
    PopFreshKeeps(g, h, s, e, visited, dist, prev, pq, L, x, rest);
    visited' := visited + [current];
    assert Recorded(g, s, dist, L, current);
    StepsDeclared(g, s, dist, prev, current);
    dist', prev', pq', L' := Relax(g, h, current, base, dist, prev, rest, L);
    RelaxKeeps(g, h, s, e, visited', dist, prev, rest, L, current, base, dist', prev', pq', L');
  }

  /** Every step out of `current` leads into the distance table. */
  lemma StepsDeclared(g: Graph, s: string, dist: map<string, Ext>, prev: map<string, string>, current: string)
    requires TargetsDeclared(g) && TableOk(g, s, dist, prev)
    ensures forall v, w: nat :: IsStep(Succ(g), current, v, w) ==> v in dist
  {
    forall v, w: nat | IsStep(Succ(g), current, v, w) ensures v in dist {
      StepTargetDeclared(g, current, v, w);
    }
  }

  /** dijkstra: pop the least (distance, id) pair; skip it if its node was visited; stop at
      the end; otherwise relax every step out of the node from the popped distance. The
      heap holds plain distances, which is the best-first loop with a zero estimate. */
  method Dijkstra(g: Graph, s: string, e: string) returns (visited: seq<string>, path: seq<string>, cost: nat)
    requires TargetsDeclared(g)
    ensures OptimalResult(g, s, e, visited, path, cost)
  {
    var h: string -> nat := (v: string) => 0;
    assert Consistent(g, h);
    visited := [];
    var dist := InitialDist(g, s);
    var prev: map<string, string> := map[];
    var pq := [Entry(0, s)];
    ghost var L := InitialLedger(s);
    InitialInv(g, h, s, e);
    while pq != []
      invariant Inv(g, h, s, e, visited, dist, prev, pq, L, {})
      decreases |dist.Keys| - |AsSet(visited)|, |pq|
    {
      var x, rest := PopMin(pq);
      var currentDist, current := x.prio, x.node;
      if current !in visited {
        PopPriority(g, h, s, e, visited, dist, prev, pq, L, x);
        if current == e {
          path := Arrive(g, h, s, e, visited, dist, prev, pq, L, x);
          visited := visited + [current];
          return visited, path, currentDist;
        }
        visited, dist, prev, pq, L := Settle(g, h, s, e, visited, dist, prev, pq, L, x, rest, currentDist);
      } else {
        PopStaleKeeps(g, h, s, e, visited, dist, prev, pq, L, x, rest);
        assert |multiset(rest)| < |multiset(pq)|;
        pq := rest;
      }
    }
    ExhaustedUnreachable(g, h, s, e, visited, dist, prev, L);
    path, cost := [], 0;
  }

  /** a_star's heuristic(a, b): the metric between the two nodes when both ids are
      declared, 0 otherwise. The metric stands for the Euclidean distance of the node
      coordinates. */
  function Heuristic(g: Graph, metric: (Node, Node) -> nat, a: string, b: string): (r: nat)
    ensures a !in NodeIds(g) || b !in NodeIds(g) ==> r == 0
    ensures a in NodeIds(g) && b in NodeIds(g) ==>
      exists na, nb :: na in g.nodes && nb in g.nodes && na.id == a && nb.id == b && r == metric(na, nb)
  {
    FindNodeSpec(g.nodes, a);
    FindNodeSpec(g.nodes, b);
    match (FindNode(g.nodes, a), FindNode(g.nodes, b))
    case (Some(na), Some(nb)) => metric(na, nb)
    case _ => 0
  }

  /** The estimate a_star adds to a node's distance: its heuristic towards the end. */
  function Estimate(g: Graph, metric: (Node, Node) -> nat, e: string): string -> nat
  {
    (v: string) => Heuristic(g, metric, v, e)
  }

  /** The metric obeys the triangle inequality. */
  ghost predicate Triangle(metric: (Node, Node) -> nat)
  {
    forall a: Node, b: Node, c: Node :: metric(a, c) <= metric(a, b) + metric(b, c)
  }

  /** No step is cheaper than the metric between its declared endpoints. */
  ghost predicate StepsAtLeastMetric(g: Graph, metric: (Node, Node) -> nat)
  {
    forall u, v, w: nat :: IsStep(Succ(g), u, v, w) && FindNode(g.nodes, u).Some? && FindNode(g.nodes, v).Some? ==>
      metric(FindNode(g.nodes, u).value, FindNode(g.nodes, v).value) <= w
  }

  /** A metric that obeys the triangle inequality and never exceeds a step's weight gives a
      consistent estimate, so a_star then finds least-cost paths. */
  lemma HeuristicConsistent(g: Graph, metric: (Node, Node) -> nat, e: string)
    requires TargetsDeclared(g) && Triangle(metric) && StepsAtLeastMetric(g, metric)
    ensures Consistent(g, Estimate(g, metric, e))
  {
    var h := Estimate(g, metric, e);
    forall u, v, w: nat | IsStep(Succ(g), u, v, w) ensures h(u) <= w + h(v) {
      StepTargetDeclared(g, u, v, w);
      FindNodeSpec(g.nodes, v);
      var k :| 0 <= k < |g.nodes| && g.nodes[k].id == v;
      if FindNode(g.nodes, u).Some? && FindNode(g.nodes, e).Some? {
        var nu, nv, ne := FindNode(g.nodes, u).value, FindNode(g.nodes, v).value, FindNode(g.nodes, e).value;
        assert metric(nu, ne) <= metric(nu, nv) + metric(nv, ne);
      }
    }
  }

  /** a_star: dijkstra's loop with the heap ordered by distance plus the heuristic towards
      the end; relaxation starts from the node's recorded distance and the search returns
      the end's recorded distance. */
  method AStar(g: Graph, metric: (Node, Node) -> nat, s: string, e: string)
    returns (visited: seq<string>, path: seq<string>, cost: nat)
    requires TargetsDeclared(g)
    ensures BestFirstResult(g, s, e, visited, path, cost)
    ensures Consistent(g, Estimate(g, metric, e)) ==> OptimalResult(g, s, e, visited, path, cost)
  {
    var h := Estimate(g, metric, e);
    visited := [];
    var dist := InitialDist(g, s);
    var prev: map<string, string> := map[];
    var openSet := [Entry(0, s)];
    ghost var L := InitialLedger(s);
    InitialInv(g, h, s, e);
    while openSet != []
      invariant Inv(g, h, s, e, visited, dist, prev, openSet, L, {})
      decreases |dist.Keys| - |AsSet(visited)|, |openSet|
    {
      var x, rest := PopMin(openSet);
      var current := x.node;
      if current !in visited {
        PopPriority(g, h, s, e, visited, dist, prev, openSet, L, x);
        if current == e {
          path := Arrive(g, h, s, e, visited, dist, prev, openSet, L, x);
          visited := visited + [current];
          return visited, path, dist[e].val;
        }
        visited, dist, prev, openSet, L := Settle(g, h, s, e, visited, dist, prev, openSet, L, x, rest, dist[current].val);
      } else {
        PopStaleKeeps(g, h, s, e, visited, dist, prev, openSet, L, x, rest);
        assert |multiset(rest)| < |multiset(openSet)|;
        openSet := rest;
      }
    }
    ExhaustedUnreachable(g, h, s, e, visited, dist, prev, L);
    path, cost := [], 0;
  }
}
