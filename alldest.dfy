/** The single-source dijkstra of test.py: least distances and least-cost paths from one
    start to every node of an adjacency map `{node: {neighbour: weight}}`. Unlike the
    searches of algorithms.py it keeps no visited list: a popped entry is skipped when its
    priority exceeds the node's recorded distance. */
module AllDestinations {
  import opened Walks
  import opened Heap
  import opened BestFirst

  /** Each inner dict is kept as its (neighbour, weight) items in insertion order. */
  type Adjacency = map<string, seq<Hop>>

  function AdjSucc(graph: Adjacency): SuccFn
  {
    (u: string) => if u in graph then graph[u] else []
  }

  /** Every neighbour key is also a top-level key; `distances[neighbor]` needs it. */
  ghost predicate Closed(graph: Adjacency)
  {
    forall u, v, w: nat :: IsStep(AdjSucc(graph), u, v, w) ==> v in graph
  }

  /** `current_distance > distances[current_node]`, with infinity never exceeded. */
  predicate Exceeds(c: nat, d: Ext)
  {
    d.Fin? && c > d.val
  }

  // ---------------------------------------------------------------------------------
  // The loop invariant

  /** The table holds exactly the top-level keys; the start costs 0 along the path [start]. */
  ghost predicate TableOk(graph: Adjacency, start: string, dist: map<string, Ext>,
                          paths: map<string, seq<string>>, steps: map<string, seq<nat>>)
  {
    start in graph && dist.Keys == graph.Keys && paths.Keys == graph.Keys && steps.Keys == graph.Keys &&
    dist[start] == Fin(0) && paths[start] == [start]
  }

  /** An unreached node has the empty path; a reached one a path from the start that pays
      exactly its distance (`steps` holds the weights paid, for the proof only). */
  ghost predicate PathOk(graph: Adjacency, start: string, dist: map<string, Ext>,
                         paths: map<string, seq<string>>, steps: map<string, seq<nat>>, v: string)
  {
    v in dist && v in paths && v in steps &&
    (dist[v].Inf? ==> paths[v] == []) &&
    (dist[v].Fin? ==> WalkFromTo(AdjSucc(graph), paths[v], steps[v], start, v) && Sum(steps[v]) == dist[v].val)
  }

  ghost predicate PathsOk(graph: Adjacency, start: string, dist: map<string, Ext>,
                          paths: map<string, seq<string>>, steps: map<string, seq<nat>>)
  {
    forall v :: v in graph ==> PathOk(graph, start, dist, paths, steps, v)
  }

  /** A queued entry names a reached node, under a priority no less than its distance. */
  ghost predicate EntryOk(dist: map<string, Ext>, x: Entry)
  {
    Known(dist, x.node) && x.prio >= dist[x.node].val
  }

  ghost predicate QueueOk(dist: map<string, Ext>, pq: seq<Entry>)
  {
    forall x :: x in pq ==> EntryOk(dist, x)
  }

  /** A reached node not yet settled waits in the queue under its distance. */
  ghost predicate PendingOk(dist: map<string, Ext>, settled: set<string>, pq: seq<Entry>)
  {
    forall v :: Known(dist, v) && v !in settled ==> Entry(dist[v].val, v) in pq
  }

  /** A settled node (one whose neighbours were relaxed from its distance) has its least
      cost. */
  ghost predicate SettledOk(graph: Adjacency, start: string, dist: map<string, Ext>, settled: set<string>)
  {
    forall u :: u in settled ==> Known(dist, u) && NoCheaperWalk(AdjSucc(graph), start, u, dist[u].val)
  }

  /** Every step out of a settled node has been relaxed. */
  ghost predicate RelaxedOk(graph: Adjacency, dist: map<string, Ext>, settled: set<string>)
  {
    forall u, v, w: nat :: u in settled && IsStep(AdjSucc(graph), u, v, w) ==>
      Known(dist, u) && Known(dist, v) && dist[v].val <= dist[u].val + w
  }

  /** Before the first node is settled the queue holds only the start; after, the start is
      settled. */
  ghost predicate StartOk(start: string, settled: set<string>, pq: seq<Entry>)
  {
    (settled == {} ==> pq == [Entry(0, start)]) && (settled != {} ==> start in settled)
  }

  ghost predicate Inv(graph: Adjacency, start: string, dist: map<string, Ext>,
                      paths: map<string, seq<string>>, steps: map<string, seq<nat>>,
                      pq: seq<Entry>, settled: set<string>)
  {
    Closed(graph) && TableOk(graph, start, dist, paths, steps) && PathsOk(graph, start, dist, paths, steps) &&
    QueueOk(dist, pq) && PendingOk(dist, settled, pq) && SettledOk(graph, start, dist, settled) &&
    RelaxedOk(graph, dist, settled) && StartOk(start, settled, pq) && settled <= graph.Keys
  }

  // ---------------------------------------------------------------------------------
  // What the function returns

  /** One node of the result: unreached exactly when unreachable, then with path []; when
      reached, the least cost from the start, paid exactly along the recorded path. */
  ghost predicate Shortest(graph: Adjacency, start: string, dist: map<string, Ext>,
                           paths: map<string, seq<string>>, v: string)
  {
    v in dist && v in paths &&
    (dist[v].Fin? <==> Reachable(AdjSucc(graph), start, v)) &&
    (dist[v].Inf? ==> paths[v] == []) &&
    (dist[v].Fin? ==>
      NoCheaperWalk(AdjSucc(graph), start, v, dist[v].val) &&
      exists ws :: WalkFromTo(AdjSucc(graph), paths[v], ws, start, v) && Sum(ws) == dist[v].val)
  }

  ghost predicate ShortestPaths(graph: Adjacency, start: string, dist: map<string, Ext>,
                                paths: map<string, seq<string>>)
  {
    dist.Keys == graph.Keys && paths.Keys == graph.Keys &&
    start in dist && dist[start] == Fin(0) && start in paths && paths[start] == [start] &&
    forall v :: v in graph ==> Shortest(graph, start, dist, paths, v)
  }

  // ---------------------------------------------------------------------------------
  // The function

  /** dijkstra(graph, start): every node at infinity with path [] but the start, at 0 with
      path [start]; pop the least (distance, node) pair, skip it when its distance exceeds
      the recorded one, otherwise relax every neighbour from it. */
  method Dijkstra(graph: Adjacency, start: string)
    returns (distances: map<string, Ext>, paths: map<string, seq<string>>)
    requires start in graph && Closed(graph)
    ensures ShortestPaths(graph, start, distances, paths)
  {
    distances := (map v | v in graph :: Inf)[start := Fin(0)];
    paths := (map v | v in graph :: [])[start := [start]];
    ghost var steps: map<string, seq<nat>> := map v | v in graph :: [];
    var pq := [Entry(0, start)];
    ghost var settled: set<string> := {};
    InitialInv(graph, start, distances, paths, steps);
    while pq != []
      invariant Inv(graph, start, distances, paths, steps, pq, settled)
      decreases |graph.Keys| - |settled|, |pq|
    {
      var x, rest := PopMin(pq);
      assert EntryOk(distances, x);
      if Exceeds(x.prio, distances[x.node]) {
        SkipKeeps(graph, start, distances, paths, steps, pq, settled, x, rest);
        pq := rest;
      } else {
        ghost var pw;
        distances, paths, steps, pq, settled, pw := Process(graph, start, distances, paths, steps, pq, settled, x, rest);
      }
    }
    FinalResult(graph, start, distances, paths, steps, settled);
  }

  lemma InitialInv(graph: Adjacency, start: string, dist: map<string, Ext>,
                   paths: map<string, seq<string>>, steps: map<string, seq<nat>>)
    requires start in graph && Closed(graph)
    requires dist == (map v | v in graph :: Inf)[start := Fin(0)]
    requires paths == (map v | v in graph :: [])[start := [start]]
    requires steps == map v | v in graph :: []
    ensures Inv(graph, start, dist, paths, steps, [Entry(0, start)], {})
  {
    forall v | v in graph ensures PathOk(graph, start, dist, paths, steps, v) {
      if v == start {
        assert WalkFromTo(AdjSucc(graph), [start], [], start, start);
      }
    }
  }

  /** An entry whose priority exceeds its node's distance is stale; dropping it keeps the
      invariant and relaxes nothing. */
  lemma SkipKeeps(graph: Adjacency, start: string, dist: map<string, Ext>,
                  paths: map<string, seq<string>>, steps: map<string, seq<nat>>,
                  pq: seq<Entry>, settled: set<string>, x: Entry, rest: seq<Entry>)
    requires Inv(graph, start, dist, paths, steps, pq, settled)
    requires x in pq && multiset(rest) == multiset(pq) - multiset{x}
    requires x.node in dist && Exceeds(x.prio, dist[x.node])
    ensures Inv(graph, start, dist, paths, steps, rest, settled) && |rest| < |pq|
  {
    forall y | y in rest ensures EntryOk(dist, y) {
      assert y in multiset(rest);
      assert y in pq;
    }
    forall v | Known(dist, v) && v !in settled ensures Entry(dist[v].val, v) in rest {
      var y := Entry(dist[v].val, v);
      assert y in pq && y != x;
      assert y in multiset(pq) - multiset{x};
    }
    assert |multiset(rest)| < |multiset(pq)|;
  }

  /** A pop that is not skipped is under exactly the node's distance. */
  lemma PopExact(graph: Adjacency, start: string, dist: map<string, Ext>,
                 paths: map<string, seq<string>>, steps: map<string, seq<nat>>,
                 pq: seq<Entry>, settled: set<string>, x: Entry)
    requires Inv(graph, start, dist, paths, steps, pq, settled)
    requires x in pq && (forall y :: y in pq ==> !EntryLess(y, x))
    requires x.node in dist && !Exceeds(x.prio, dist[x.node])
    ensures Known(dist, x.node) && x.prio == dist[x.node].val
    ensures settled == {} ==> x == Entry(0, start)
  {
    assert EntryOk(dist, x);
  }

  /** A pop that is not skipped, of a node not yet settled, is at its least cost: any walk to
      it leaves the settled set through a relaxed step to a node queued under a distance
      the pop did not beat. */
  lemma PopOptimal(graph: Adjacency, start: string, dist: map<string, Ext>,
                   pq: seq<Entry>, settled: set<string>, x: Entry, p: seq<string>, ws: seq<nat>)
    requires settled != {} && start in settled
    requires SettledOk(graph, start, dist, settled) && RelaxedOk(graph, dist, settled)
    requires PendingOk(dist, settled, pq)
    requires x in pq && (forall y :: y in pq ==> !EntryLess(y, x)) && x.node !in settled
    requires Known(dist, x.node) && x.prio == dist[x.node].val
    requires WalkFromTo(AdjSucc(graph), p, ws, start, x.node)
    ensures dist[x.node].val <= Sum(ws)
  {
    var k := FirstExit(AdjSucc(graph), settled, p, ws);
    var u, y := p[k - 1], p[k];
    assert IsStep(AdjSucc(graph), u, y, ws[k - 1]);
    WalkPrefix(AdjSucc(graph), p, ws, k - 1);
    assert p[..k - 1 + 1] == p[..k];
    assert WalkFromTo(AdjSucc(graph), p[..k], ws[..k - 1], start, u);
    assert dist[u].val <= Sum(ws[..k - 1]);
    assert ws[..k] == ws[..k - 1] + [ws[k - 1]];
    SumAppend(ws[..k - 1], ws[k - 1]);
    SumSplit(ws, k);
    var z := Entry(dist[y].val, y);
    assert z in pq;
    assert !EntryLess(z, x);
  }

  /** One round that is not skipped: settle the popped node and relax its neighbours from
      the popped distance. */
  method Process(graph: Adjacency, start: string, dist: map<string, Ext>,
                 paths: map<string, seq<string>>, ghost steps: map<string, seq<nat>>,
                 pq: seq<Entry>, ghost settled: set<string>, x: Entry, rest: seq<Entry>)
    returns (dist': map<string, Ext>, paths': map<string, seq<string>>, ghost steps': map<string, seq<nat>>,
             pq': seq<Entry>, ghost settled': set<string>, ghost pw: map<string, nat>)
    requires Inv(graph, start, dist, paths, steps, pq, settled)
    requires x in pq && (forall y :: y in pq ==> !EntryLess(y, x))
    requires multiset(rest) == multiset(pq) - multiset{x}
    requires x.node in dist && !Exceeds(x.prio, dist[x.node])
    ensures settled' == settled + {x.node}
    ensures RelaxSoFar(graph, x.node, x.prio, dist, paths, steps, rest, dist', paths', steps', pq', pw)
    ensures forall v, w: nat :: IsStep(AdjSucc(graph), x.node, v, w) ==>
      v in dist' && dist'[v].Fin? && dist'[v].val <= x.prio + w
    ensures Inv(graph, start, dist', paths', steps', pq', settled')
    ensures |settled| < |settled'| <= |graph.Keys| || (settled' == settled && |pq'| < |pq|)
  {
    var u := x.node;
    PopSettles(graph, start, dist, paths, steps, pq, settled, x);
    settled' := settled + {u};
    dist', paths', steps', pq', pw := RelaxNeighbours(graph, u, x.prio, dist, paths, steps, rest);
    AfterRelax(graph, start, dist, paths, steps, pq, settled, x, rest, dist', paths', steps', pq', pw, settled');
    Progress(graph.Keys, settled, settled', u, pq, pq');
  }

  /** A round either settles a new node or leaves the settled set alone and shrinks the queue. */
  lemma Progress(nodes: set<string>, settled: set<string>, settled': set<string>, u: string,
                 pq: seq<Entry>, pq': seq<Entry>)
    requires u in nodes && settled <= nodes && settled' == settled + {u}
    requires u in settled ==> |pq'| < |pq|
    ensures |settled| < |settled'| <= |nodes| || (settled' == settled && |pq'| < |pq|)
  {
    if u !in settled {
      assert nodes == settled' + (nodes - settled');
    }
  }

  /** The node of a pop that is not skipped has its least cost, exactly the popped priority. */
  lemma PopSettles(graph: Adjacency, start: string, dist: map<string, Ext>,
                   paths: map<string, seq<string>>, steps: map<string, seq<nat>>,
                   pq: seq<Entry>, settled: set<string>, x: Entry)
    requires Inv(graph, start, dist, paths, steps, pq, settled)
    requires x in pq && (forall y :: y in pq ==> !EntryLess(y, x))
    requires x.node in dist && !Exceeds(x.prio, dist[x.node])
    ensures x.node in graph && Known(dist, x.node) && x.prio == dist[x.node].val
    ensures settled == {} ==> x == Entry(0, start)
    ensures NoCheaperWalk(AdjSucc(graph), start, x.node, dist[x.node].val)
  {
    var u := x.node;
    PopExact(graph, start, dist, paths, steps, pq, settled, x);
    if u !in settled {
      forall p, ws | WalkFromTo(AdjSucc(graph), p, ws, start, u) ensures dist[u].val <= Sum(ws) {
        if settled != {} {
          PopOptimal(graph, start, dist, pq, settled, x, p, ws);
        }
      }
    }
  }

  // ---------------------------------------------------------------------------------
  // Relaxation

  /** Relaxation lowered `k`'s distance to `base` plus a step's weight out of `u`, gave it
      `u`'s path extended by `k`, and queued it. */
  ghost predicate Lowered(graph: Adjacency, u: string, base: nat, paths: map<string, seq<string>>,
                          steps: map<string, seq<nat>>, k: string, dist': map<string, Ext>,
                          paths': map<string, seq<string>>, steps': map<string, seq<nat>>,
                          pq': seq<Entry>, pw: map<string, nat>)
  {
    u in paths && u in steps && k in dist' && k in paths' && k in steps' && k in pw &&
    IsStep(AdjSucc(graph), u, k, pw[k]) && dist'[k] == Fin(base + pw[k]) &&
    paths'[k] == paths[u] + [k] && steps'[k] == steps[u] + [pw[k]] &&
    Entry(base + pw[k], k) in pq'
  }

  /** A pushed entry: its node's distance was lowered, to no more than the priority. */
  ghost predicate Queued(dist: map<string, Ext>, dist': map<string, Ext>, x: Entry)
  {
    x.node in dist && x.node in dist' && dist'[x.node].Fin? && dist'[x.node] != dist[x.node] &&
    x.prio >= dist'[x.node].val
  }

  /** What RelaxNeighbours keeps: the tables' keys and `u`'s entries, distances that only
      go down, and the paths of nodes whose distance did not move. */
  ghost predicate RelaxFrame(u: string, base: nat, dist: map<string, Ext>,
                             paths: map<string, seq<string>>, steps: map<string, seq<nat>>,
                             dist': map<string, Ext>, paths': map<string, seq<string>>,
                             steps': map<string, seq<nat>>)
  {
    u in dist && dist[u] == Fin(base) && dist.Keys == paths.Keys && dist.Keys == steps.Keys &&
    dist'.Keys == dist.Keys && paths'.Keys == paths.Keys && steps'.Keys == steps.Keys &&
    dist'[u] == dist[u] && paths'[u] == paths[u] && steps'[u] == steps[u] &&
    (forall k :: k in dist ==> AtMost(dist'[k], dist[k])) &&
    (forall k :: k in dist && dist'[k] == dist[k] ==> paths'[k] == paths[k] && steps'[k] == steps[k])
  }

  /** What RelaxNeighbours records: every lowered distance came through `u`, and the queue
      grew only by entries of lowered nodes. */
  ghost predicate RelaxLog(graph: Adjacency, u: string, base: nat, dist: map<string, Ext>,
                           paths: map<string, seq<string>>, steps: map<string, seq<nat>>, pq: seq<Entry>,
                           dist': map<string, Ext>, paths': map<string, seq<string>>,
                           steps': map<string, seq<nat>>, pq': seq<Entry>, pw: map<string, nat>)
  {
    (forall k :: k in dist && k in dist' && dist'[k] != dist[k] ==>
      Lowered(graph, u, base, paths, steps, k, dist', paths', steps', pq', pw)) &&
    |pq| <= |pq'| && pq'[..|pq|] == pq &&
    (forall j :: |pq| <= j < |pq'| ==> Queued(dist, dist', pq'[j])) &&
    (|pq| < |pq'| ==> exists k :: k in dist && k in dist' && dist'[k] != dist[k])
  }

  /** What RelaxNeighbours has established after handling some neighbours. */
  ghost predicate RelaxSoFar(graph: Adjacency, u: string, base: nat, dist: map<string, Ext>,
                             paths: map<string, seq<string>>, steps: map<string, seq<nat>>, pq: seq<Entry>,
                             dist': map<string, Ext>, paths': map<string, seq<string>>,
                             steps': map<string, seq<nat>>, pq': seq<Entry>, pw: map<string, nat>)
  {
    RelaxFrame(u, base, dist, paths, steps, dist', paths', steps') &&
    RelaxLog(graph, u, base, dist, paths, steps, pq, dist', paths', steps', pq', pw)
  }

  /** The inner loop: for each (neighbour, weight) of `u`, in insertion order, when `base`
      plus the weight beats the neighbour's distance, record it, set the neighbour's path
      to `u`'s path extended by the neighbour, and push it. */
  method RelaxNeighbours(graph: Adjacency, u: string, base: nat, dist: map<string, Ext>,
                         paths: map<string, seq<string>>, ghost steps: map<string, seq<nat>>, pq: seq<Entry>)
    returns (dist': map<string, Ext>, paths': map<string, seq<string>>, ghost steps': map<string, seq<nat>>,
             pq': seq<Entry>, ghost pw: map<string, nat>)
    requires u in graph && Closed(graph)
    requires u in dist && dist[u] == Fin(base) && dist.Keys == graph.Keys
    requires paths.Keys == graph.Keys && steps.Keys == graph.Keys
    ensures RelaxSoFar(graph, u, base, dist, paths, steps, pq, dist', paths', steps', pq', pw)
    ensures forall v, w: nat :: IsStep(AdjSucc(graph), u, v, w) ==>
      v in dist' && dist'[v].Fin? && dist'[v].val <= base + w
  {
    var nbrs := graph[u];
    dist', paths', steps', pq', pw := dist, paths, steps, pq, map[];
    RelaxStart(graph, u, base, dist, paths, steps, pq);
    for i := 0 to |nbrs|
      invariant RelaxSoFar(graph, u, base, dist, paths, steps, pq, dist', paths', steps', pq', pw)
      invariant HopsTaken(base, nbrs, i, dist')
    {
      dist', paths', steps', pq', pw := RelaxHop(graph, u, base, dist, paths, steps, pq, i, dist', paths', steps', pq', pw);
    }
    AdjOffersTaken(graph, u, base, nbrs, dist');
  }

  /** Before the first neighbour nothing has changed. */
  lemma RelaxStart(graph: Adjacency, u: string, base: nat, dist: map<string, Ext>,
                   paths: map<string, seq<string>>, steps: map<string, seq<nat>>, pq: seq<Entry>)
    requires u in dist && dist[u] == Fin(base) && dist.Keys == paths.Keys && dist.Keys == steps.Keys
    ensures RelaxSoFar(graph, u, base, dist, paths, steps, pq, dist, paths, steps, pq, map[])
  {
    assert pq[..|pq|] == pq;
  }

  /** One turn of RelaxNeighbours' loop: the `i`-th (neighbour, weight) pair of `u`. */
  method RelaxHop(graph: Adjacency, u: string, base: nat, ghost dist: map<string, Ext>,
                  ghost paths: map<string, seq<string>>, ghost steps: map<string, seq<nat>>, ghost pq: seq<Entry>,
                  i: nat, dist': map<string, Ext>, paths': map<string, seq<string>>,
                  ghost steps': map<string, seq<nat>>, pq': seq<Entry>, ghost pw: map<string, nat>)
    returns (d2: map<string, Ext>, p2: map<string, seq<string>>, ghost s2: map<string, seq<nat>>,
             q2: seq<Entry>, ghost pw2: map<string, nat>)
    requires u in graph && Closed(graph) && dist.Keys == graph.Keys && i < |graph[u]|
    requires RelaxSoFar(graph, u, base, dist, paths, steps, pq, dist', paths', steps', pq', pw)
    requires HopsTaken(base, graph[u], i, dist')
    ensures RelaxSoFar(graph, u, base, dist, paths, steps, pq, d2, p2, s2, q2, pw2)
    ensures HopsTaken(base, graph[u], i + 1, d2)
  {
    var neighbor, weight := graph[u][i].0, graph[u][i].1;
    assert IsStep(AdjSucc(graph), u, neighbor, weight);
    var distance := base + weight;
    if Improves(distance, dist'[neighbor]) {
      d2 := dist'[neighbor := Fin(distance)];
      p2 := paths'[neighbor := paths'[u] + [neighbor]];
      s2 := steps'[neighbor := steps'[u] + [weight]];
      q2 := pq' + [Entry(distance, neighbor)];
      pw2 := pw[neighbor := weight];
      RelaxStepKeeps(graph, u, base, dist, paths, steps, pq, dist', paths', steps', pq', pw, neighbor, weight,
                     d2, p2, s2, q2, pw2);
      OffersStayTaken(base, graph[u], i, dist', d2);
    } else {
      d2, p2, s2, q2, pw2 := dist', paths', steps', pq', pw;
    }
  }

  /** One improving update keeps what RelaxNeighbours has established. */
  lemma RelaxStepKeeps(graph: Adjacency, u: string, base: nat, dist: map<string, Ext>,
                       paths: map<string, seq<string>>, steps: map<string, seq<nat>>, pq: seq<Entry>,
                       dist': map<string, Ext>, paths': map<string, seq<string>>,
                       steps': map<string, seq<nat>>, pq': seq<Entry>, pw: map<string, nat>,
                       nx: string, w: nat,
                       d2: map<string, Ext>, p2: map<string, seq<string>>,
                       s2: map<string, seq<nat>>, q2: seq<Entry>, pw2: map<string, nat>)
    requires RelaxSoFar(graph, u, base, dist, paths, steps, pq, dist', paths', steps', pq', pw)
    requires nx in dist && IsStep(AdjSucc(graph), u, nx, w) && Improves(base + w, dist'[nx])
    requires d2 == dist'[nx := Fin(base + w)] && p2 == paths'[nx := paths'[u] + [nx]]
    requires s2 == steps'[nx := steps'[u] + [w]] && q2 == pq' + [Entry(base + w, nx)] && pw2 == pw[nx := w]
    ensures RelaxSoFar(graph, u, base, dist, paths, steps, pq, d2, p2, s2, q2, pw2)
    ensures forall k :: k in dist' ==> AtMost(d2[k], dist'[k])
  {
    FrameAfterOne(u, base, dist, paths, steps, dist', paths', steps', nx, w);
    LoweredAfterOne(graph, u, base, dist, paths, steps, dist', paths', steps', pq', pw, nx, w);
    QueuedAfterOne(base, dist, dist', pq, pq', nx, w);
  }

  lemma FrameAfterOne(u: string, base: nat, dist: map<string, Ext>,
                      paths: map<string, seq<string>>, steps: map<string, seq<nat>>,
                      dist': map<string, Ext>, paths': map<string, seq<string>>,
                      steps': map<string, seq<nat>>, nx: string, w: nat)
    requires RelaxFrame(u, base, dist, paths, steps, dist', paths', steps')
    requires nx in dist && Improves(base + w, dist'[nx])
    ensures nx != u
    ensures var d2 := dist'[nx := Fin(base + w)];
      RelaxFrame(u, base, dist, paths, steps, d2, paths'[nx := paths'[u] + [nx]], steps'[nx := steps'[u] + [w]]) &&
      (forall k :: k in dist' ==> AtMost(d2[k], dist'[k]))
  {
    var d2 := dist'[nx := Fin(base + w)];
    var p2 := paths'[nx := paths'[u] + [nx]];
    var s2 := steps'[nx := steps'[u] + [w]];
    assert AtMost(dist'[nx], dist[nx]);
    assert d2[nx] != dist[nx];
    forall k | k in dist ensures AtMost(d2[k], dist[k]) {
      assert AtMost(dist'[k], dist[k]);
    }
    forall k | k in dist && d2[k] == dist[k] ensures p2[k] == paths[k] && s2[k] == steps[k] {
      assert k != nx;
    }
  }

  lemma LoweredAfterOne(graph: Adjacency, u: string, base: nat, dist: map<string, Ext>,
                        paths: map<string, seq<string>>, steps: map<string, seq<nat>>,
                        dist': map<string, Ext>, paths': map<string, seq<string>>,
                        steps': map<string, seq<nat>>, pq': seq<Entry>, pw: map<string, nat>,
                        nx: string, w: nat)
    requires u in paths && u in steps && u in paths' && u in steps'
    requires paths'[u] == paths[u] && steps'[u] == steps[u] && nx in dist && nx in paths' && nx in steps'
    requires dist'.Keys == dist.Keys && IsStep(AdjSucc(graph), u, nx, w)
    requires forall k :: k in dist && k in dist' && dist'[k] != dist[k] ==>
      Lowered(graph, u, base, paths, steps, k, dist', paths', steps', pq', pw)
    ensures var d2 := dist'[nx := Fin(base + w)];
      var p2 := paths'[nx := paths'[u] + [nx]];
      var s2 := steps'[nx := steps'[u] + [w]];
      var q2 := pq' + [Entry(base + w, nx)];
      forall k :: k in dist && k in d2 && d2[k] != dist[k] ==> Lowered(graph, u, base, paths, steps, k, d2, p2, s2, q2, pw[nx := w])
  {
    var d2 := dist'[nx := Fin(base + w)];
    var p2 := paths'[nx := paths'[u] + [nx]];
    var s2 := steps'[nx := steps'[u] + [w]];
    var q2 := pq' + [Entry(base + w, nx)];
    forall k | k in dist && k in d2 && d2[k] != dist[k] ensures Lowered(graph, u, base, paths, steps, k, d2, p2, s2, q2, pw[nx := w]) {
      if k != nx {
        assert Lowered(graph, u, base, paths, steps, k, dist', paths', steps', pq', pw);
        assert Entry(base + pw[k], k) in q2;
      }
    }
  }

  lemma QueuedAfterOne(base: nat, dist: map<string, Ext>, dist': map<string, Ext>,
                       pq: seq<Entry>, pq': seq<Entry>, nx: string, w: nat)
    requires dist'.Keys == dist.Keys && nx in dist
    requires forall k :: k in dist ==> AtMost(dist'[k], dist[k])
    requires Improves(base + w, dist'[nx])
    requires |pq| <= |pq'| && pq'[..|pq|] == pq
    requires forall j :: |pq| <= j < |pq'| ==> Queued(dist, dist', pq'[j])
    ensures var d2 := dist'[nx := Fin(base + w)];
      var q2 := pq' + [Entry(base + w, nx)];
      (forall k :: k in dist ==> AtMost(d2[k], dist[k])) &&
      |pq| <= |q2| && q2[..|pq|] == pq &&
      (forall j :: |pq| <= j < |q2| ==> Queued(dist, d2, q2[j])) &&
      nx in d2 && d2[nx] != dist[nx]
  {
    var d2 := dist'[nx := Fin(base + w)];
    var q2 := pq' + [Entry(base + w, nx)];
    assert AtMost(dist'[nx], dist[nx]);
    assert AtMost(d2[nx], dist[nx]) && d2[nx] != dist[nx];
    forall j | |pq| <= j < |q2| ensures Queued(dist, d2, q2[j]) {
      if j < |pq'| {
        assert q2[j] == pq'[j];
        assert Queued(dist, dist', pq'[j]);
      }
    }
    assert q2[..|pq|] == pq'[..|pq|];
  }

  /** Having handled every item of `u`'s inner dict, every step out of `u` is handled. */
  lemma AdjOffersTaken(graph: Adjacency, u: string, base: nat, nbrs: seq<Hop>, dist': map<string, Ext>)
    requires u in graph && nbrs == graph[u]
    requires HopsTaken(base, nbrs, |nbrs|, dist')
    ensures forall v, w: nat :: IsStep(AdjSucc(graph), u, v, w) ==>
      v in dist' && dist'[v].Fin? && dist'[v].val <= base + w
  {
    forall v, w: nat | IsStep(AdjSucc(graph), u, v, w)
      ensures v in dist' && dist'[v].Fin? && dist'[v].val <= base + w
    {
      var j :| 0 <= j < |nbrs| && nbrs[j].0 == v && nbrs[j].1 == w;
    }
  }

  // ---------------------------------------------------------------------------------
  // Preservation of the invariant by a round that is not skipped

  lemma AfterRelax(graph: Adjacency, start: string, dist: map<string, Ext>,
                   paths: map<string, seq<string>>, steps: map<string, seq<nat>>,
                   pq: seq<Entry>, settled: set<string>, x: Entry, rest: seq<Entry>,
                   dist': map<string, Ext>, paths': map<string, seq<string>>,
                   steps': map<string, seq<nat>>, pq': seq<Entry>, pw: map<string, nat>,
                   settled': set<string>)
    requires Inv(graph, start, dist, paths, steps, pq, settled)
    requires x in pq && multiset(rest) == multiset(pq) - multiset{x} && settled' == settled + {x.node}
    requires Known(dist, x.node) && x.prio == dist[x.node].val
    requires settled == {} ==> x == Entry(0, start)
    requires NoCheaperWalk(AdjSucc(graph), start, x.node, dist[x.node].val)
    requires RelaxSoFar(graph, x.node, x.prio, dist, paths, steps, rest, dist', paths', steps', pq', pw)
    requires forall v, w: nat :: IsStep(AdjSucc(graph), x.node, v, w) ==>
      v in dist' && dist'[v].Fin? && dist'[v].val <= x.prio + w
    ensures Inv(graph, start, dist', paths', steps', pq', settled')
    ensures x.node in settled ==> dist' == dist && |pq'| < |pq|
  {
    var u := x.node;
    AfterRelaxTable(graph, start, dist, paths, steps, pq, settled, x, rest, dist', paths', steps', pq', pw);
    AfterRelaxQueue(graph, start, dist, paths, steps, pq, settled, x, rest, dist', paths', steps', pq', pw);
    AfterRelaxSettled(graph, start, dist, paths, steps, settled, x, rest, dist', paths', steps', pq', pw);
    if u in settled {
      NothingLowered(graph, dist, paths, steps, settled, u, rest, dist', paths', steps', pq', pw);
      assert |multiset(rest)| < |multiset(pq)|;
    }
  }

  /** The settled nodes, now with `u`, keep their least costs and relaxed steps. */
  lemma AfterRelaxSettled(graph: Adjacency, start: string, dist: map<string, Ext>,
                          paths: map<string, seq<string>>, steps: map<string, seq<nat>>,
                          settled: set<string>, x: Entry, rest: seq<Entry>,
                          dist': map<string, Ext>, paths': map<string, seq<string>>,
                          steps': map<string, seq<nat>>, pq': seq<Entry>, pw: map<string, nat>)
    requires SettledOk(graph, start, dist, settled) && RelaxedOk(graph, dist, settled)
    requires PathsOk(graph, start, dist, paths, steps) && x.node in graph && settled <= graph.Keys
    requires Known(dist, x.node) && x.prio == dist[x.node].val
    requires NoCheaperWalk(AdjSucc(graph), start, x.node, dist[x.node].val)
    requires RelaxSoFar(graph, x.node, x.prio, dist, paths, steps, rest, dist', paths', steps', pq', pw)
    requires forall v, w: nat :: IsStep(AdjSucc(graph), x.node, v, w) ==>
      v in dist' && dist'[v].Fin? && dist'[v].val <= x.prio + w
    ensures SettledOk(graph, start, dist', settled + {x.node}) && RelaxedOk(graph, dist', settled + {x.node})
    ensures settled + {x.node} <= graph.Keys
  {
    var u, settled' := x.node, settled + {x.node};
    SettledStay(graph, start, dist, paths, steps, settled', u, rest, dist', paths', steps', pq', pw);
    forall u', v, w: nat | u' in settled' && IsStep(AdjSucc(graph), u', v, w)
      ensures Known(dist', u') && Known(dist', v) && dist'[v].val <= dist'[u'].val + w
    {
      if u' != u {
        assert Known(dist, v) && dist[v].val <= dist[u'].val + w;
        assert AtMost(dist'[v], dist[v]);
      }
    }
  }

  /** Relaxing from a settled node lowers nothing: its steps were relaxed already. */
  lemma NothingLowered(graph: Adjacency, dist: map<string, Ext>, paths: map<string, seq<string>>,
                       steps: map<string, seq<nat>>, settled: set<string>, u: string, pq: seq<Entry>,
                       dist': map<string, Ext>, paths': map<string, seq<string>>,
                       steps': map<string, seq<nat>>, pq': seq<Entry>, pw: map<string, nat>)
    requires RelaxedOk(graph, dist, settled) && u in settled && Known(dist, u)
    requires RelaxSoFar(graph, u, dist[u].val, dist, paths, steps, pq, dist', paths', steps', pq', pw)
    ensures dist' == dist && pq' == pq
  {
    forall k | k in dist ensures dist'[k] == dist[k] {
      ChangedBound(graph, u, dist[u].val, dist, paths, steps, pq, dist', paths', steps', pq', pw, k);
    }
    assert pq' == pq'[..|pq|];
  }

  /** A lowered distance is a step's weight more than `base`, and below the old distance. */
  lemma ChangedBound(graph: Adjacency, u: string, base: nat, dist: map<string, Ext>,
                     paths: map<string, seq<string>>, steps: map<string, seq<nat>>, pq: seq<Entry>,
                     dist': map<string, Ext>, paths': map<string, seq<string>>,
                     steps': map<string, seq<nat>>, pq': seq<Entry>, pw: map<string, nat>, k: string)
    requires RelaxSoFar(graph, u, base, dist, paths, steps, pq, dist', paths', steps', pq', pw)
    requires k in dist
    ensures AtMost(dist'[k], dist[k])
    ensures dist'[k] != dist[k] ==>
      k in pw && IsStep(AdjSucc(graph), u, k, pw[k]) && dist'[k] == Fin(base + pw[k])
  {
  }

  /** With settled nodes at their least cost, relaxation leaves their distances alone: a
      lower one would be paid by a walk through `u`. */
  lemma SettledStay(graph: Adjacency, start: string, dist: map<string, Ext>,
                    paths: map<string, seq<string>>, steps: map<string, seq<nat>>, settled: set<string>,
                    u: string, pq: seq<Entry>,
                    dist': map<string, Ext>, paths': map<string, seq<string>>,
                    steps': map<string, seq<nat>>, pq': seq<Entry>, pw: map<string, nat>)
    requires SettledOk(graph, start, dist, settled) && PathsOk(graph, start, dist, paths, steps)
    requires u in dist && dist[u].Fin? && u in graph
    requires RelaxSoFar(graph, u, dist[u].val, dist, paths, steps, pq, dist', paths', steps', pq', pw)
    ensures forall v :: v in settled ==> dist'[v] == dist[v]
  {
    assert PathOk(graph, start, dist, paths, steps, u);
    forall v | v in settled ensures dist'[v] == dist[v] {
      if dist'[v] != dist[v] {
        assert Lowered(graph, u, dist[u].val, paths, steps, v, dist', paths', steps', pq', pw);
        assert AtMost(dist'[v], dist[v]);
        WalkExtend(AdjSucc(graph), paths[u], steps[u], v, pw[v]);
        assert WalkFromTo(AdjSucc(graph), paths'[v], steps'[v], start, v);
      }
    }
  }

  /** The table and the recorded paths survive relaxation. */
  lemma AfterRelaxTable(graph: Adjacency, start: string, dist: map<string, Ext>,
                        paths: map<string, seq<string>>, steps: map<string, seq<nat>>,
                        pq: seq<Entry>, settled: set<string>, x: Entry, rest: seq<Entry>,
                        dist': map<string, Ext>, paths': map<string, seq<string>>,
                        steps': map<string, seq<nat>>, pq': seq<Entry>, pw: map<string, nat>)
    requires TableOk(graph, start, dist, paths, steps) && PathsOk(graph, start, dist, paths, steps)
    requires Known(dist, x.node) && x.prio == dist[x.node].val
    requires RelaxSoFar(graph, x.node, x.prio, dist, paths, steps, rest, dist', paths', steps', pq', pw)
    ensures TableOk(graph, start, dist', paths', steps') && PathsOk(graph, start, dist', paths', steps')
  {
    var u := x.node;
    assert AtMost(dist'[start], dist[start]);
    assert PathOk(graph, start, dist, paths, steps, u);
    forall v | v in graph ensures PathOk(graph, start, dist', paths', steps', v) {
      assert PathOk(graph, start, dist, paths, steps, v);
      if dist'[v] != dist[v] {
        assert Lowered(graph, u, x.prio, paths, steps, v, dist', paths', steps', pq', pw);
        WalkExtend(AdjSucc(graph), paths[u], steps[u], v, pw[v]);
      }
    }
  }

  /** The queue facts survive the pop and the pushes. */
  lemma AfterRelaxQueue(graph: Adjacency, start: string, dist: map<string, Ext>,
                        paths: map<string, seq<string>>, steps: map<string, seq<nat>>,
                        pq: seq<Entry>, settled: set<string>, x: Entry, rest: seq<Entry>,
                        dist': map<string, Ext>, paths': map<string, seq<string>>,
                        steps': map<string, seq<nat>>, pq': seq<Entry>, pw: map<string, nat>)
    requires QueueOk(dist, pq) && PendingOk(dist, settled, pq) && StartOk(start, settled, pq)
    requires x in pq && multiset(rest) == multiset(pq) - multiset{x}
    requires settled == {} ==> x == Entry(0, start)
    requires Known(dist, x.node) && x.prio == dist[x.node].val
    requires RelaxSoFar(graph, x.node, x.prio, dist, paths, steps, rest, dist', paths', steps', pq', pw)
    ensures QueueOk(dist', pq') && PendingOk(dist', settled + {x.node}, pq') && StartOk(start, settled + {x.node}, pq')
  {
    var u := x.node;
    forall y | y in pq' ensures EntryOk(dist', y) {
      var j :| 0 <= j < |pq'| && pq'[j] == y;
      if j < |rest| {
        assert y == rest[j] && y in multiset(rest);
        assert y in pq;
        assert EntryOk(dist, y);
        assert AtMost(dist'[y.node], dist[y.node]);
      } else {
        assert Queued(dist, dist', y);
      }
    }
    forall v | Known(dist', v) && v !in settled + {u} ensures Entry(dist'[v].val, v) in pq' {
      if dist'[v] != dist[v] {
        assert Lowered(graph, u, x.prio, paths, steps, v, dist', paths', steps', pq', pw);
      } else {
        var y := Entry(dist[v].val, v);
        assert y in pq && y != x;
        assert y in multiset(rest);
        var j :| 0 <= j < |rest| && rest[j] == y;
        assert pq'[j] == y;
      }
    }
  }

  // ---------------------------------------------------------------------------------
  // The empty queue

  /** When the queue runs dry every reached node is settled, the settled nodes are closed
      under steps, and so a node is reached exactly when it is reachable. */
  lemma FinalResult(graph: Adjacency, start: string, dist: map<string, Ext>,
                    paths: map<string, seq<string>>, steps: map<string, seq<nat>>, settled: set<string>)
    requires Inv(graph, start, dist, paths, steps, [], settled)
    ensures ShortestPaths(graph, start, dist, paths)
  {
    assert start in settled;
    assert ClosedUnder(AdjSucc(graph), settled) by {
      forall u, v, w | u in settled && IsStep(AdjSucc(graph), u, v, w) ensures v in settled {
        assert Known(dist, v);
      }
    }
    forall v | v in graph ensures Shortest(graph, start, dist, paths, v) {
      assert PathOk(graph, start, dist, paths, steps, v);
      if dist[v].Inf? {
        assert v !in settled;
        ClosedSetSeparates(AdjSucc(graph), settled, start, v);
      } else {
        assert v in settled;
        assert WalkFromTo(AdjSucc(graph), paths[v], steps[v], start, v);
      }
    }
  }
}
