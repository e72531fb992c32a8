/** The unweighted traversals of algorithms.py: depth-first with an explicit stack and
    breadth-first with a FIFO queue. Both mark a node visited when it is popped, return
    as soon as the end node is popped, and push a frame (node, route, cost) for every
    neighbour not yet visited. */
module Traversal {
  import opened Walks
  import opened Graphs

  /** A frontier entry: the node to visit, the route that reached it, the route's cost. */
  datatype Frame = Frame(node: string, route: seq<string>, cost: nat)

  /** Every id a traversal can ever see: the start and the endpoints of the edges. */
  function Universe(g: Graph, s: string): set<string>
  {
    {s} + (set e | e in g.edges :: e.start) + (set e | e in g.edges :: e.end)
  }

  function AsSet(xs: seq<string>): set<string>
  {
    set x | x in xs
  }

  lemma StepInUniverse(g: Graph, s: string, u: string, v: string, w: nat)
    requires IsStep(Succ(g), u, v, w)
    ensures v in Universe(g, s)
  {
    NeighborsMember(g.edges, u, v, w);
    var i :| 0 <= i < |g.edges| && Offers(g.edges[i], u, v, w);
    assert g.edges[i] in g.edges;
  }

  /** Visiting an unseen member of the universe: one more member visited, still within the universe. */
  lemma VisitCounts(U: set<string>, visited: seq<string>, x: string)
    requires x in U && x !in visited && AsSet(visited) <= U
    ensures |AsSet(visited)| < |AsSet(visited + [x])| <= |U|
  {
    var after := AsSet(visited + [x]);
    assert after == AsSet(visited) + {x};
    assert U == after + (U - after);
  }

  /** A frame's route is a walk from the start to its node costing exactly the frame's
      cost, repeats no node, and every node before the last is already visited. */
  ghost predicate FrameOk(g: Graph, s: string, visited: seq<string>, f: Frame, ws: seq<nat>)
  {
    WalkFromTo(Succ(g), f.route, ws, s, f.node) && Sum(ws) == f.cost && Distinct(f.route) &&
    (forall i :: 0 <= i < |f.route| - 1 ==> f.route[i] in visited) &&
    f.node in Universe(g, s)
  }

  ghost predicate FrontierOk(g: Graph, s: string, visited: seq<string>, frontier: seq<Frame>, weights: seq<seq<nat>>)
  {
    |weights| == |frontier| &&
    forall k :: 0 <= k < |frontier| ==> FrameOk(g, s, visited, frontier[k], weights[k])
  }

  /** The visit order repeats nothing, begins at the start, and every later node is one
      step from a node visited before it. */
  ghost predicate VisitOrderOk(g: Graph, s: string, visited: seq<string>)
  {
    Distinct(visited) && (visited != [] ==> visited[0] == s) &&
    forall i :: 0 < i < |visited| ==> ReachedFromEarlier(g, visited, i)
  }

  /** The `i`-th visited node is one step from a node visited before it. */
  ghost predicate ReachedFromEarlier(g: Graph, visited: seq<string>, i: nat)
    requires i < |visited|
  {
    exists j, w :: 0 <= j < i && IsStep(Succ(g), visited[j], visited[i], w)
  }

  ghost predicate Waiting(frontier: seq<Frame>, v: string)
  {
    exists k :: 0 <= k < |frontier| && frontier[k].node == v
  }

  lemma FrontierPush(g: Graph, s: string, visited: seq<string>, frontier: seq<Frame>, weights: seq<seq<nat>>,
                     f: Frame, fw: seq<nat>)
    requires FrontierOk(g, s, visited, frontier, weights) && FrameOk(g, s, visited, f, fw)
    ensures FrontierOk(g, s, visited, frontier + [f], weights + [fw])
  {
    forall k | 0 <= k < |frontier| + 1 ensures FrameOk(g, s, visited, (frontier + [f])[k], (weights + [fw])[k]) {
      if k < |frontier| {
        assert (frontier + [f])[k] == frontier[k] && (weights + [fw])[k] == weights[k];
      }
    }
  }

  /** One step from a visited frame's node to an unvisited neighbour gives a new frame. */
  lemma ExtendFrame(g: Graph, s: string, visited: seq<string>, top: Frame, ws: seq<nat>, nx: string, w: nat)
    requires top.node in visited && FrameOk(g, s, visited, top, ws)
    requires IsStep(Succ(g), top.node, nx, w) && nx !in visited
    ensures FrameOk(g, s, visited, Frame(nx, top.route + [nx], top.cost + w), ws + [w])
  {
    WalkExtend(Succ(g), top.route, ws, nx, w);
    StepInUniverse(g, s, top.node, nx, w);
    assert forall j :: 0 <= j < |top.route| ==> top.route[j] in visited;
  }

  /** `f` extends the route of `top` by one step to a node not yet visited. */
  ghost predicate ChildFrame(g: Graph, visited: seq<string>, top: Frame, f: Frame)
  {
    f.node !in visited && f.route == top.route + [f.node] && f.cost >= top.cost &&
    IsStep(Succ(g), top.node, f.node, f.cost - top.cost)
  }

  lemma WaitingGrows(frontier: seq<Frame>, f: Frame, v: string)
    requires Waiting(frontier, v)
    ensures Waiting(frontier + [f], v)
  {
    var k :| 0 <= k < |frontier| && frontier[k].node == v;
    assert (frontier + [f])[k] == frontier[k];
  }

  /** Every step out of a visited node other than `except` reaches a visited node or a
      node that still waits in the frontier. */
  ghost predicate CoveredExcept(g: Graph, visited: seq<string>, frontier: seq<Frame>, except: set<string>)
  {
    forall u, v, w :: u in visited && u !in except && IsStep(Succ(g), u, v, w) ==>
      v in visited || Waiting(frontier, v)
  }

  /** The loop invariant shared by both traversals. */
  ghost predicate TraversalState(g: Graph, s: string, e: string, visited: seq<string>,
                                 frontier: seq<Frame>, weights: seq<seq<nat>>)
  {
    VisitOrderOk(g, s, visited) &&
    (visited == [] ==> frontier == [Frame(s, [s], 0)] && weights == [[]]) &&
    FrontierOk(g, s, visited, frontier, weights) &&
    CoveredExcept(g, visited, frontier, {}) &&
    e !in visited &&
    AsSet(visited) <= Universe(g, s)
  }

  /** What both traversals promise about a finished search. */
  ghost predicate TraversalResult(g: Graph, s: string, e: string, visited: seq<string>, path: seq<string>, cost: nat)
  {
    visited != [] && VisitOrderOk(g, s, visited) &&
    (path == [] ==> cost == 0 && e !in visited && !Reachable(Succ(g), s, e)) &&
    (path != [] ==>
      (exists ws :: WalkFromTo(Succ(g), path, ws, s, e) && Sum(ws) == cost) &&
      Distinct(path) && (forall n :: n in path ==> n in visited) && visited[|visited| - 1] == e) &&
    (s == e ==> visited == [s] && path == [s] && cost == 0)
  }

  lemma InitialState(g: Graph, s: string, e: string)
    ensures TraversalState(g, s, e, [], [Frame(s, [s], 0)], [[]])
  {
    assert WalkFromTo(Succ(g), [s], [], s, s);
  }

  lemma FrameOkGrows(g: Graph, s: string, visited: seq<string>, x: string, f: Frame, ws: seq<nat>)
    requires FrameOk(g, s, visited, f, ws)
    ensures FrameOk(g, s, visited + [x], f, ws)
  {
    assert forall n :: n in visited ==> n in visited + [x];
  }

  /** Frames stay well formed as the visited list grows. */
  lemma FrontierGrows(g: Graph, s: string, visited: seq<string>, x: string, frontier: seq<Frame>, weights: seq<seq<nat>>)
    requires FrontierOk(g, s, visited, frontier, weights)
    ensures FrontierOk(g, s, visited + [x], frontier, weights)
  {
    forall k | 0 <= k < |frontier| ensures FrameOk(g, s, visited + [x], frontier[k], weights[k]) {
      FrameOkGrows(g, s, visited, x, frontier[k], weights[k]);
    }
  }

  /** Removing frame `k` leaves a well-formed frontier. */
  lemma FrontierDrop(g: Graph, s: string, visited: seq<string>, frontier: seq<Frame>, weights: seq<seq<nat>>, k: nat)
    requires FrontierOk(g, s, visited, frontier, weights) && k < |frontier|
    ensures FrontierOk(g, s, visited, frontier[..k] + frontier[k + 1..], weights[..k] + weights[k + 1..])
  {
    var rest := frontier[..k] + frontier[k + 1..];
    var restW := weights[..k] + weights[k + 1..];
    forall m | 0 <= m < |rest| ensures FrameOk(g, s, visited, rest[m], restW[m]) {
      var m' := if m < k then m else m + 1;
      assert rest[m] == frontier[m'] && restW[m] == weights[m'];
    }
  }

  /** Visiting the node of a well-formed frame extends a well-formed visit order: the new
      node hangs off the second-to-last node of its route. */
  lemma VisitOrderGrows(g: Graph, s: string, visited: seq<string>, f: Frame, ws: seq<nat>)
    requires VisitOrderOk(g, s, visited) && FrameOk(g, s, visited, f, ws)
    requires f.node !in visited && (visited == [] ==> f.node == s)
    ensures VisitOrderOk(g, s, visited + [f.node])
  {
    var visited' := visited + [f.node];
    forall i | 0 < i < |visited'|
      ensures ReachedFromEarlier(g, visited', i)
    {
      if i == |visited| {
        var n := |f.route| - 1;
        assert n > 0 by { assert f.route[0] == s == visited[0]; }
        assert f.route[n - 1] in visited;
        var j :| 0 <= j < |visited| && visited[j] == f.route[n - 1];
        assert IsStep(Succ(g), visited'[j], visited'[i], ws[n - 1]);
      } else {
        assert ReachedFromEarlier(g, visited, i);
        var j, w :| 0 <= j < i && IsStep(Succ(g), visited[j], visited[i], w);
        assert IsStep(Succ(g), visited'[j], visited'[i], w);
      }
    }
  }

  /** Taking frame `k` off the frontier and visiting its node keeps every old step covered. */
  lemma CoverDrop(g: Graph, visited: seq<string>, frontier: seq<Frame>, k: nat)
    requires CoveredExcept(g, visited, frontier, {}) && k < |frontier|
    ensures CoveredExcept(g, visited + [frontier[k].node], frontier[..k] + frontier[k + 1..], {frontier[k].node})
  {
    var x := frontier[k].node;
    var rest := frontier[..k] + frontier[k + 1..];
    forall u, v, w | u in visited + [x] && u !in {x} && IsStep(Succ(g), u, v, w)
      ensures v in visited + [x] || Waiting(rest, v)
    {
      assert u in visited;
      if v !in visited && v != x {
        WaitingDrop(frontier, k, v);
      }
    }
  }

  /** Dropping a frame whose node is already visited keeps every step out of a visited node covered. */
  lemma CoverDropVisited(g: Graph, visited: seq<string>, frontier: seq<Frame>, k: nat)
    requires CoveredExcept(g, visited, frontier, {}) && k < |frontier| && frontier[k].node in visited
    ensures CoveredExcept(g, visited, frontier[..k] + frontier[k + 1..], {})
  {
    forall u, v, w | u in visited && IsStep(Succ(g), u, v, w)
      ensures v in visited || Waiting(frontier[..k] + frontier[k + 1..], v)
    {
      if v !in visited {
        WaitingDrop(frontier, k, v);
      }
    }
  }

  /** A node waiting in the frontier still waits once some other node's frame is dropped. */
  lemma WaitingDrop(frontier: seq<Frame>, k: nat, v: string)
    requires k < |frontier| && Waiting(frontier, v) && frontier[k].node != v
    ensures Waiting(frontier[..k] + frontier[k + 1..], v)
  {
    var rest := frontier[..k] + frontier[k + 1..];
    var m :| 0 <= m < |frontier| && frontier[m].node == v;
    var m' := if m < k then m else m - 1;
    assert rest[m'] == frontier[m];
  }

  /** The first `n` hops lead to a visited node or to one waiting in the frontier. */
  ghost predicate HopsCovered(visited: seq<string>, frontier: seq<Frame>, nbrs: seq<Hop>, n: nat)
    requires n <= |nbrs|
  {
    forall j :: 0 <= j < n ==> nbrs[j].0 in visited || Waiting(frontier, nbrs[j].0)
  }

  /** The frames the inner loop pushes for `hops`, in order: one per hop whose target is
      not yet visited, extending `top`'s route by that target and its cost by the weight. */
  function Children(visited: seq<string>, top: Frame, hops: seq<Hop>): (r: seq<Frame>)
    ensures |r| <= |hops|
  {
    if hops == [] then []
    else
      var (nx, w) := hops[|hops| - 1];
      Children(visited, top, hops[..|hops| - 1]) +
      (if nx !in visited then [Frame(nx, top.route + [nx], top.cost + w)] else [])
  }

  /** The pushed frames are exactly the extensions of `top` by its unvisited hops. */
  lemma {:induction false} ChildrenMember(visited: seq<string>, top: Frame, hops: seq<Hop>, f: Frame)
    ensures f in Children(visited, top, hops) <==>
      exists j :: 0 <= j < |hops| && hops[j].0 !in visited &&
        f == Frame(hops[j].0, top.route + [hops[j].0], top.cost + hops[j].1)
  {
    if hops != [] {
      var init := hops[..|hops| - 1];
      ChildrenMember(visited, top, init, f);
      if exists j :: 0 <= j < |hops| && hops[j].0 !in visited &&
          f == Frame(hops[j].0, top.route + [hops[j].0], top.cost + hops[j].1) {
        var j :| 0 <= j < |hops| && hops[j].0 !in visited &&
          f == Frame(hops[j].0, top.route + [hops[j].0], top.cost + hops[j].1);
        if j < |init| {
          assert init[j] == hops[j];
        }
      }
    }
  }

  /** Every frame pushed for the hops of a node is a child frame of `top`. */
  lemma ChildrenAreChildFrames(g: Graph, visited: seq<string>, top: Frame)
    ensures forall f :: f in Children(visited, top, Neighbors(g.edges, top.node)) ==> ChildFrame(g, visited, top, f)
  {
    var hops := Neighbors(g.edges, top.node);
    forall f | f in Children(visited, top, hops) ensures ChildFrame(g, visited, top, f) {
      ChildrenMember(visited, top, hops, f);
      var j :| 0 <= j < |hops| && hops[j].0 !in visited &&
        f == Frame(hops[j].0, top.route + [hops[j].0], top.cost + hops[j].1);
      assert hops[j] in Succ(g)(top.node);
    }
  }

  /** One more hop: its frame, if any, goes behind those of the earlier hops. */
  lemma ChildrenSnoc(visited: seq<string>, top: Frame, hops: seq<Hop>, i: nat)
    requires i < |hops|
    ensures Children(visited, top, hops[..i + 1]) ==
      Children(visited, top, hops[..i]) +
      (if hops[i].0 !in visited then [Frame(hops[i].0, top.route + [hops[i].0], top.cost + hops[i].1)] else [])
  {
    assert hops[..i + 1][..i] == hops[..i];
  }

  /** The inner loop of both traversals: for each neighbour of the frame's node, in edge
      order, push a frame extending the route when the neighbour is not yet visited. */
  method PushUnvisited(g: Graph, s: string, visited: seq<string>, top: Frame, ghost ws: seq<nat>,
                       frontier: seq<Frame>, ghost weights: seq<seq<nat>>)
    returns (frontier': seq<Frame>, ghost weights': seq<seq<nat>>)
    requires top.node in visited && FrameOk(g, s, visited, top, ws)
    requires FrontierOk(g, s, visited, frontier, weights)
    ensures frontier' == frontier + Children(visited, top, Neighbors(g.edges, top.node))
    ensures |frontier| <= |frontier'| && frontier'[..|frontier|] == frontier
    ensures FrontierOk(g, s, visited, frontier', weights')
    ensures forall v, w: nat :: IsStep(Succ(g), top.node, v, w) ==> v in visited || Waiting(frontier', v)
    ensures forall k :: |frontier| <= k < |frontier'| ==> ChildFrame(g, visited, top, frontier'[k])
  {
    var nbrs := GetNeighbors(g, top.node);
    frontier', weights' := frontier, weights;
    for i := 0 to |nbrs|
      invariant FrontierOk(g, s, visited, frontier', weights')
      invariant frontier' == frontier + Children(visited, top, nbrs[..i])
      invariant HopsCovered(visited, frontier', nbrs, i)
    {
      frontier', weights' := PushHop(g, s, visited, top, ws, frontier, nbrs, i, frontier', weights');
    }
    assert nbrs[..|nbrs|] == nbrs;
    AllHopsCovered(g, visited, top.node, frontier', nbrs);
    PushedAreChildren(g, visited, top, frontier, frontier');
  }

  /** What is appended behind `frontier` is a sequence of child frames of `top`. */
  lemma PushedAreChildren(g: Graph, visited: seq<string>, top: Frame, frontier: seq<Frame>, frontier': seq<Frame>)
    requires frontier' == frontier + Children(visited, top, Neighbors(g.edges, top.node))
    ensures |frontier| <= |frontier'| && frontier'[..|frontier|] == frontier
    ensures forall k :: |frontier| <= k < |frontier'| ==> ChildFrame(g, visited, top, frontier'[k])
  {
    ChildrenAreChildFrames(g, visited, top);
    var kids := Children(visited, top, Neighbors(g.edges, top.node));
    forall k | |frontier| <= k < |frontier'| ensures ChildFrame(g, visited, top, frontier'[k]) {
      assert frontier'[k] == kids[k - |frontier|];
    }
    assert frontier'[..|frontier|] == frontier;
  }

  /** One round of the inner loop: the hop `nbrs[i]` is pushed when its target is unvisited. */
  method PushHop(g: Graph, s: string, visited: seq<string>, top: Frame, ghost ws: seq<nat>,
                 ghost frontier: seq<Frame>, nbrs: seq<Hop>, i: nat,
                 frontier': seq<Frame>, ghost weights': seq<seq<nat>>)
    returns (f2: seq<Frame>, ghost w2: seq<seq<nat>>)
    requires top.node in visited && FrameOk(g, s, visited, top, ws)
    requires nbrs == Neighbors(g.edges, top.node) && i < |nbrs|
    requires FrontierOk(g, s, visited, frontier', weights')
    requires frontier' == frontier + Children(visited, top, nbrs[..i])
    requires HopsCovered(visited, frontier', nbrs, i)
    ensures FrontierOk(g, s, visited, f2, w2)
    ensures f2 == frontier + Children(visited, top, nbrs[..i + 1])
    ensures HopsCovered(visited, f2, nbrs, i + 1)
  {
    var nx, w := nbrs[i].0, nbrs[i].1;
    if nx !in visited {
      f2, w2 := frontier' + [Frame(nx, top.route + [nx], top.cost + w)], weights' + [ws + [w]];
    } else {
      f2, w2 := frontier', weights';
    }
    PushHopKeeps(g, s, visited, top, ws, nbrs, i, frontier', weights', f2, w2);
    PushedSnoc(visited, top, frontier, nbrs, i, frontier', f2);
  }

  /** The frontier facts survive one hop, whether or not its frame is pushed. */
  lemma PushHopKeeps(g: Graph, s: string, visited: seq<string>, top: Frame, ws: seq<nat>,
                     nbrs: seq<Hop>, i: nat,
                     frontier': seq<Frame>, weights': seq<seq<nat>>, f2: seq<Frame>, w2: seq<seq<nat>>)
    requires top.node in visited && FrameOk(g, s, visited, top, ws)
    requires nbrs == Neighbors(g.edges, top.node) && i < |nbrs|
    requires FrontierOk(g, s, visited, frontier', weights')
    requires HopsCovered(visited, frontier', nbrs, i)
    requires nbrs[i].0 !in visited ==>
      f2 == frontier' + [Frame(nbrs[i].0, top.route + [nbrs[i].0], top.cost + nbrs[i].1)] &&
      w2 == weights' + [ws + [nbrs[i].1]]
    requires nbrs[i].0 in visited ==> f2 == frontier' && w2 == weights'
    ensures FrontierOk(g, s, visited, f2, w2)
    ensures HopsCovered(visited, f2, nbrs, i + 1)
  {
    var nx, w := nbrs[i].0, nbrs[i].1;
    if nx !in visited {
      assert nbrs[i] in Succ(g)(top.node);
      var f := Frame(nx, top.route + [nx], top.cost + w);
      ExtendFrame(g, s, visited, top, ws, nx, w);
      FrontierPush(g, s, visited, frontier', weights', f, ws + [w]);
      HopsCoveredGrow(visited, frontier', nbrs, i, f);
    }
  }

  /** Pushing the frame of hop `i`, if any, extends the children of the first `i` hops to those of `i + 1`. */
  lemma PushedSnoc(visited: seq<string>, top: Frame, frontier: seq<Frame>, nbrs: seq<Hop>, i: nat,
                   frontier': seq<Frame>, f2: seq<Frame>)
    requires i < |nbrs| && frontier' == frontier + Children(visited, top, nbrs[..i])
    requires nbrs[i].0 !in visited ==>
      f2 == frontier' + [Frame(nbrs[i].0, top.route + [nbrs[i].0], top.cost + nbrs[i].1)]
    requires nbrs[i].0 in visited ==> f2 == frontier'
    ensures f2 == frontier + Children(visited, top, nbrs[..i + 1])
  {
    ChildrenSnoc(visited, top, nbrs, i);
  }

  lemma HopsCoveredGrow(visited: seq<string>, frontier: seq<Frame>, nbrs: seq<Hop>, i: nat, f: Frame)
    requires i < |nbrs| && HopsCovered(visited, frontier, nbrs, i) && f.node == nbrs[i].0
    ensures HopsCovered(visited, frontier + [f], nbrs, i + 1)
  {
    forall j | 0 <= j < i + 1 && nbrs[j].0 !in visited ensures Waiting(frontier + [f], nbrs[j].0) {
      if j < i {
        WaitingGrows(frontier, f, nbrs[j].0);
      } else {
        assert (frontier + [f])[|frontier|] == f;
      }
    }
  }

  /** Once every hop is covered, every step out of `u` is. */
  lemma AllHopsCovered(g: Graph, visited: seq<string>, u: string, frontier: seq<Frame>, nbrs: seq<Hop>)
    requires nbrs == Neighbors(g.edges, u) && HopsCovered(visited, frontier, nbrs, |nbrs|)
    ensures forall v, w: nat :: IsStep(Succ(g), u, v, w) ==> v in visited || Waiting(frontier, v)
  {
    forall v, w: nat | IsStep(Succ(g), u, v, w) ensures v in visited || Waiting(frontier, v) {
      var j :| 0 <= j < |nbrs| && nbrs[j] == (v, w);
    }
  }

  /** The steps out of the node just expanded are now covered as well. */
  lemma ExpandKeeps(g: Graph, s: string, e: string, visited: seq<string>, old_frontier: seq<Frame>,
                    frontier: seq<Frame>, weights: seq<seq<nat>>, current: string)
    requires VisitOrderOk(g, s, visited) && visited != [] && visited[|visited| - 1] == current
    requires FrontierOk(g, s, visited, frontier, weights)
    requires CoveredExcept(g, visited, old_frontier, {current})
    requires |old_frontier| <= |frontier| && frontier[..|old_frontier|] == old_frontier
    requires forall v, w: nat :: IsStep(Succ(g), current, v, w) ==> v in visited || Waiting(frontier, v)
    requires e !in visited && AsSet(visited) <= Universe(g, s)
    ensures TraversalState(g, s, e, visited, frontier, weights)
  {
    forall u, v, w | u in visited && IsStep(Succ(g), u, v, w) ensures v in visited || Waiting(frontier, v) {
      if u != current && v !in visited {
        var m :| 0 <= m < |old_frontier| && old_frontier[m].node == v;
        assert frontier[m] == old_frontier[m];
      }
    }
  }

  /** An exhausted frontier leaves the end unreachable. */
  lemma ExhaustedMeansUnreachable(g: Graph, s: string, e: string, visited: seq<string>, weights: seq<seq<nat>>)
    requires TraversalState(g, s, e, visited, [], weights)
    ensures visited != [] && !Reachable(Succ(g), s, e)
    ensures TraversalResult(g, s, e, visited, [], 0)
  {
    assert visited != [];
    ClosedSetSeparates(Succ(g), AsSet(visited), s, e);
    assert WalkFromTo(Succ(g), [s], [], s, s);
  }

  /** Visiting the node of frame `k` (not the end, not yet visited) and taking the frame
      off the frontier keeps everything but the steps out of that node covered. */
  lemma VisitKeeps(g: Graph, s: string, e: string, visited: seq<string>, frontier: seq<Frame>,
                   weights: seq<seq<nat>>, k: nat)
    requires TraversalState(g, s, e, visited, frontier, weights) && k < |frontier|
    requires frontier[k].node !in visited && frontier[k].node != e
    ensures VisitOrderOk(g, s, visited + [frontier[k].node])
    ensures FrontierOk(g, s, visited + [frontier[k].node], frontier[..k] + frontier[k + 1..], weights[..k] + weights[k + 1..])
    ensures FrameOk(g, s, visited + [frontier[k].node], frontier[k], weights[k])
    ensures CoveredExcept(g, visited + [frontier[k].node], frontier[..k] + frontier[k + 1..], {frontier[k].node})
    ensures AsSet(visited + [frontier[k].node]) <= Universe(g, s)
    ensures |AsSet(visited)| < |AsSet(visited + [frontier[k].node])| <= |Universe(g, s)|
  {
    var top, ws := frontier[k], weights[k];
    assert FrameOk(g, s, visited, top, ws);
    VisitOrderGrows(g, s, visited, top, ws);
    FrontierDrop(g, s, visited, frontier, weights, k);
    FrontierGrows(g, s, visited, top.node, frontier[..k] + frontier[k + 1..], weights[..k] + weights[k + 1..]);
    FrameOkGrows(g, s, visited, top.node, top, ws);
    CoverDrop(g, visited, frontier, k);
    VisitCounts(Universe(g, s), visited, top.node);
  }

  /** The frontier after expanding frame `k`: the other frames in their order, then the
      children of frame `k` over its node's neighbours. */
  ghost predicate Expanded(g: Graph, visited': seq<string>, frontier: seq<Frame>, k: nat, frontier': seq<Frame>)
    requires k < |frontier|
  {
    frontier' == frontier[..k] + frontier[k + 1..] + Children(visited', frontier[k], Neighbors(g.edges, frontier[k].node))
  }

  /** One expansion, shared by both traversals: visit the node of frame `k`, take the frame
      off the frontier and push a frame for each unvisited neighbour behind the rest. */
  method Expand(g: Graph, s: string, e: string, visited: seq<string>, frontier: seq<Frame>,
                ghost weights: seq<seq<nat>>, k: nat, ghost last: bool)
    returns (visited': seq<string>, frontier': seq<Frame>, ghost weights': seq<seq<nat>>)
    requires TraversalState(g, s, e, visited, frontier, weights) && OpeningSoFar(g, s, visited, frontier, last)
    requires Picked(frontier, k, last) && frontier[k].node !in visited && frontier[k].node != e
    ensures visited' == visited + [frontier[k].node]
    ensures TraversalState(g, s, e, visited', frontier', weights') && OpeningSoFar(g, s, visited', frontier', last)
    ensures |AsSet(visited)| < |AsSet(visited')| <= |Universe(g, s)|
    ensures Expanded(g, visited', frontier, k, frontier')
  {
    var top := frontier[k];
    ghost var ws := weights[k];
    VisitKeeps(g, s, e, visited, frontier, weights, k);
    visited' := visited + [top.node];
    var rest := frontier[..k] + frontier[k + 1..];
    ghost var restW := weights[..k] + weights[k + 1..];
    frontier', weights' := PushUnvisited(g, s, visited', top, ws, rest, restW);
    ExpandKeeps(g, s, e, visited', rest, frontier', weights', top.node);
    OpeningVisit(g, s, visited, frontier, k, last, frontier');
  }

  /** The frames pushed when the start itself is expanded, in push order. */
  function StartChildren(g: Graph, s: string): seq<Frame>
  {
    Children([s], Frame(s, [s], 0), Neighbors(g.edges, s))
  }

  /** No frame pushed for the start leads back to the start. */
  lemma StartChildrenFresh(g: Graph, s: string)
    ensures forall j :: 0 <= j < |StartChildren(g, s)| ==> StartChildren(g, s)[j].node !in [s]
  {
    var kids := StartChildren(g, s);
    forall j | 0 <= j < |kids| ensures kids[j].node !in [s] {
      ChildrenMember([s], Frame(s, [s], 0), Neighbors(g.edges, s), kids[j]);
    }
  }

  /** dfs's second visit: when the start is not the end and pushes anything, the next node
      visited is the one pushed last. */
  ghost predicate DepthFirstOpening(g: Graph, s: string, e: string, visited: seq<string>)
  {
    var kids := StartChildren(g, s);
    s != e && kids != [] ==> |visited| > 1 && visited[1] == kids[|kids| - 1].node
  }

  /** bfs's second visit: when the start is not the end and pushes anything, the next node
      visited is the one pushed first. */
  ghost predicate BreadthFirstOpening(g: Graph, s: string, e: string, visited: seq<string>)
  {
    var kids := StartChildren(g, s);
    s != e && kids != [] ==> |visited| > 1 && visited[1] == kids[0].node
  }

  /** Loop facts behind the openings: right after the start is visited the frontier holds
      exactly its children, and afterwards the second visit is the `pick`-th of them. */
  ghost predicate OpeningSoFar(g: Graph, s: string, visited: seq<string>, frontier: seq<Frame>, last: bool)
  {
    var kids := StartChildren(g, s);
    (|visited| == 1 ==> frontier == kids) &&
    (|visited| > 1 ==> kids != [] && visited[1] == (if last then kids[|kids| - 1] else kids[0]).node)
  }

  /** The frame taken is the last one for dfs and the first one for bfs. */
  ghost predicate Picked(frontier: seq<Frame>, k: nat, last: bool)
  {
    k < |frontier| && k == if last then |frontier| - 1 else 0
  }

  /** Expanding the picked frame keeps the opening facts. */
  lemma OpeningVisit(g: Graph, s: string, visited: seq<string>, frontier: seq<Frame>, k: nat, last: bool,
                     frontier': seq<Frame>)
    requires OpeningSoFar(g, s, visited, frontier, last) && Picked(frontier, k, last)
    requires visited == [] ==> frontier == [Frame(s, [s], 0)]
    requires visited != [] ==> visited[0] == s
    requires Expanded(g, visited + [frontier[k].node], frontier, k, frontier')
    ensures OpeningSoFar(g, s, visited + [frontier[k].node], frontier', last)
  {
    if visited == [] {
      assert k == 0 && visited + [frontier[k].node] == [s];
      assert frontier[..k] + frontier[k + 1..] == [];
    }
  }

  /** Dropping the picked frame when its node is visited keeps the opening facts: right
      after the start no frame can be dropped, as none leads back to the start. */
  lemma OpeningDrop(g: Graph, s: string, visited: seq<string>, frontier: seq<Frame>, k: nat, last: bool)
    requires OpeningSoFar(g, s, visited, frontier, last) && Picked(frontier, k, last)
    requires visited != [] && visited[0] == s && frontier[k].node in visited
    ensures OpeningSoFar(g, s, visited, frontier[..k] + frontier[k + 1..], last)
  {
    StartChildrenFresh(g, s);
  }

  /** Arriving at the end through the picked frame leaves the search's opening. */
  lemma OpeningArrive(g: Graph, s: string, e: string, visited: seq<string>, frontier: seq<Frame>, k: nat, last: bool)
    requires OpeningSoFar(g, s, visited, frontier, last) && Picked(frontier, k, last)
    requires visited == [] ==> frontier == [Frame(s, [s], 0)]
    requires frontier[k].node == e
    ensures last ==> DepthFirstOpening(g, s, e, visited + [e])
    ensures !last ==> BreadthFirstOpening(g, s, e, visited + [e])
  {
  }

  /** An exhausted frontier leaves the search's opening. */
  lemma OpeningExhausted(g: Graph, s: string, e: string, visited: seq<string>, last: bool)
    requires OpeningSoFar(g, s, visited, [], last) && visited != []
    ensures last ==> DepthFirstOpening(g, s, e, visited)
    ensures !last ==> BreadthFirstOpening(g, s, e, visited)
  {
  }

  /** Dropping the picked frame when its node is already visited: the last frame for dfs,
      the first for bfs. */
  lemma DropPicked(g: Graph, s: string, e: string, visited: seq<string>, frontier: seq<Frame>,
                   weights: seq<seq<nat>>, k: nat, last: bool)
    requires TraversalState(g, s, e, visited, frontier, weights) && OpeningSoFar(g, s, visited, frontier, last)
    requires Picked(frontier, k, last) && frontier[k].node in visited
    ensures last ==> TraversalState(g, s, e, visited, frontier[..k], weights[..k]) &&
                     OpeningSoFar(g, s, visited, frontier[..k], last)
    ensures !last ==> TraversalState(g, s, e, visited, frontier[1..], weights[1..]) &&
                      OpeningSoFar(g, s, visited, frontier[1..], last)
  {
    PopVisitedKeeps(g, s, e, visited, frontier, weights, k);
    OpeningDrop(g, s, visited, frontier, k, last);
    if last {
      assert frontier[..k] + frontier[k + 1..] == frontier[..k];
      assert weights[..k] + weights[k + 1..] == weights[..k];
    } else {
      assert frontier[..0] + frontier[1..] == frontier[1..];
      assert weights[..0] + weights[1..] == weights[1..];
    }
  }

  /** Popping the end through the picked frame finishes the search with that frame's route. */
  lemma ArrivePicked(g: Graph, s: string, e: string, visited: seq<string>, frontier: seq<Frame>,
                     weights: seq<seq<nat>>, k: nat, last: bool)
    requires TraversalState(g, s, e, visited, frontier, weights) && OpeningSoFar(g, s, visited, frontier, last)
    requires Picked(frontier, k, last) && frontier[k].node == e
    ensures TraversalResult(g, s, e, visited + [e], frontier[k].route, frontier[k].cost)
    ensures last ==> DepthFirstOpening(g, s, e, visited + [e])
    ensures !last ==> BreadthFirstOpening(g, s, e, visited + [e])
  {
    TraversalResultOnArrival(g, s, e, visited, frontier, weights, k);
    OpeningArrive(g, s, e, visited, frontier, k, last);
  }

  /** dfs: pop the most recently pushed frame. */
  method Dfs(g: Graph, s: string, e: string) returns (visited: seq<string>, path: seq<string>, cost: nat)
    ensures TraversalResult(g, s, e, visited, path, cost)
    ensures DepthFirstOpening(g, s, e, visited)
  {
    visited := [];
    var stack := [Frame(s, [s], 0)];
    ghost var weights: seq<seq<nat>> := [[]];
    InitialState(g, s, e);
    while stack != []
      invariant TraversalState(g, s, e, visited, stack, weights)
      invariant OpeningSoFar(g, s, visited, stack, true)
      decreases |Universe(g, s)| - |AsSet(visited)|, |stack|
    {
      var k := |stack| - 1;
      var top := stack[k];
      if top.node !in visited {
        if top.node == e {
          ArrivePicked(g, s, e, visited, stack, weights, k, true);
          visited := visited + [top.node];
          return visited, top.route, top.cost;
        }
        visited, stack, weights := Expand(g, s, e, visited, stack, weights, k, true);
      } else {
        DropPicked(g, s, e, visited, stack, weights, k, true);
        stack, weights := stack[..k], weights[..k];
      }
    }
    ExhaustedMeansUnreachable(g, s, e, visited, weights);
    OpeningExhausted(g, s, e, visited, true);
    path, cost := [], 0;
  }

  /** bfs: identical to dfs except that the frontier is a FIFO queue: the oldest frame is
      taken first and new frames join at the back. */
  method Bfs(g: Graph, s: string, e: string) returns (visited: seq<string>, path: seq<string>, cost: nat)
    ensures TraversalResult(g, s, e, visited, path, cost)
    ensures BreadthFirstOpening(g, s, e, visited)
  {
    visited := [];
    var queue := [Frame(s, [s], 0)];
    ghost var weights: seq<seq<nat>> := [[]];
    InitialState(g, s, e);
    while queue != []
      invariant TraversalState(g, s, e, visited, queue, weights)
      invariant OpeningSoFar(g, s, visited, queue, false)
      decreases |Universe(g, s)| - |AsSet(visited)|, |queue|
    {
      var top := queue[0];
      if top.node !in visited {
        if top.node == e {
          ArrivePicked(g, s, e, visited, queue, weights, 0, false);
          visited := visited + [top.node];
          return visited, top.route, top.cost;
        }
        visited, queue, weights := Expand(g, s, e, visited, queue, weights, 0, false);
      } else {
        DropPicked(g, s, e, visited, queue, weights, 0, false);
        queue, weights := queue[1..], weights[1..];
      }
    }
    ExhaustedMeansUnreachable(g, s, e, visited, weights);
    OpeningExhausted(g, s, e, visited, false);
    path, cost := [], 0;
  }

  /** Dropping a frame whose node is already visited keeps the invariant. */
  lemma PopVisitedKeeps(g: Graph, s: string, e: string, visited: seq<string>, frontier: seq<Frame>,
                        weights: seq<seq<nat>>, k: nat)
    requires TraversalState(g, s, e, visited, frontier, weights) && k < |frontier|
    requires frontier[k].node in visited
    ensures TraversalState(g, s, e, visited, frontier[..k] + frontier[k + 1..], weights[..k] + weights[k + 1..])
  {
    FrontierDrop(g, s, visited, frontier, weights, k);
    CoverDropVisited(g, visited, frontier, k);
  }

  /** Popping the end node finishes the search with that frame's route. */
  lemma TraversalResultOnArrival(g: Graph, s: string, e: string, visited: seq<string>,
                                 frontier: seq<Frame>, weights: seq<seq<nat>>, k: nat)
    requires TraversalState(g, s, e, visited, frontier, weights) && k < |frontier|
    requires frontier[k].node == e
    ensures TraversalResult(g, s, e, visited + [e], frontier[k].route, frontier[k].cost)
  {
    var f, ws := frontier[k], weights[k];
    var visited' := visited + [e];
    assert FrameOk(g, s, visited, f, ws);
    VisitOrderGrows(g, s, visited, f, ws);
    forall n | n in f.route ensures n in visited' {
      var i :| 0 <= i < |f.route| && f.route[i] == n;
      if i < |f.route| - 1 { assert f.route[i] in visited; }
    }
    if s == e {
      assert visited == [];
    }
  }
}
