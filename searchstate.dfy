/** The loop invariant of the cost-based searches and the lemmas that carry it across one
    round: popping an entry whose node was already visited, visiting a fresh node, and
    relaxing the steps out of it. The estimate `h` is arbitrary; what needs the estimate
    to be consistent (never dropping by more than a step's weight) is kept behind
    `Consistent(g, h) ==>`. */
module SearchState {
  import opened Walks
  import opened Graphs
  import opened Heap
  import opened Traversal
  import opened BestFirst
  import opened Predecessors

  /** The table holds the declared ids and the start; the start costs 0 and has no
      predecessor. */
  ghost predicate TableOk(g: Graph, s: string, dist: map<string, Ext>, prev: map<string, string>)
  {
    dist.Keys == NodeIds(g) + {s} && dist[s] == Fin(0) && s !in prev
  }

  /** A finite distance is paid exactly by the recorded walk from the start, and it was set
      before the current clock. */
  ghost predicate Recorded(g: Graph, s: string, dist: map<string, Ext>, L: Ledger, v: string)
  {
    Known(dist, v) && v in L.stamp && L.stamp[v] < L.clock &&
    v in L.route && v in L.steps &&
    WalkFromTo(Succ(g), L.route[v], L.steps[v], s, v) && Sum(L.steps[v]) == dist[v].val
  }

  ghost predicate RecordsOk(g: Graph, s: string, dist: map<string, Ext>, L: Ledger)
  {
    forall v :: Known(dist, v) ==> Recorded(g, s, dist, L, v)
  }

  ghost predicate HasParent(s: string, prev: map<string, string>, v: string)
  {
    v == s || v in prev
  }

  /** Every node with a finite distance other than the start has a predecessor. */
  ghost predicate ParentsOk(s: string, dist: map<string, Ext>, prev: map<string, string>)
  {
    forall v {:trigger HasParent(s, prev, v)} :: Known(dist, v) ==> HasParent(s, prev, v)
  }

  /** The link from `v` to its predecessor: a visited node one step away whose distance
      plus that step is at most `v`'s; when it is exactly `v`'s, the predecessor's distance
      was set earlier. Distances and clock values together rank the links, so following
      them never cycles. */
  ghost predicate Link(g: Graph, visited: seq<string>, dist: map<string, Ext>, prev: map<string, string>,
                       L: Ledger, v: string)
  {
    v in prev && prev[v] in visited && v in L.pw && IsStep(Succ(g), prev[v], v, L.pw[v]) &&
    Known(dist, prev[v]) && Known(dist, v) && prev[v] in L.stamp && v in L.stamp &&
    dist[prev[v]].val + L.pw[v] <= dist[v].val &&
    (dist[prev[v]].val + L.pw[v] == dist[v].val ==> L.stamp[prev[v]] < L.stamp[v])
  }

  ghost predicate LinksOk(g: Graph, visited: seq<string>, dist: map<string, Ext>, prev: map<string, string>, L: Ledger)
  {
    forall v :: v in prev ==> Link(g, visited, dist, prev, L, v)
  }

  /** A queued entry names a node with a finite distance; only the initial entry names the
      start, and any other entry's priority is at least the node's distance plus its
      estimate. */
  ghost predicate EntryOk(s: string, visited: seq<string>, dist: map<string, Ext>, h: string -> nat, x: Entry)
  {
    Known(dist, x.node) && (x.node == s ==> visited == []) &&
    (x.node != s ==> x.prio >= dist[x.node].val + h(x.node))
  }

  ghost predicate QueueOk(s: string, visited: seq<string>, dist: map<string, Ext>, h: string -> nat, pq: seq<Entry>)
  {
    forall x :: x in pq ==> EntryOk(s, visited, dist, h, x)
  }

  /** A reached node not yet visited waits in the queue under its distance plus estimate. */
  ghost predicate PendingOk(s: string, visited: seq<string>, dist: map<string, Ext>, h: string -> nat, pq: seq<Entry>)
  {
    forall v :: Known(dist, v) && v !in visited && v != s ==> Entry(dist[v].val + h(v), v) in pq
  }

  ghost predicate VisitedKnown(visited: seq<string>, dist: map<string, Ext>)
  {
    forall u :: u in visited ==> Known(dist, u)
  }

  /** Every step out of a visited node other than those in `except` reaches a node with a
      finite distance. */
  ghost predicate ReachOk(g: Graph, visited: seq<string>, dist: map<string, Ext>, except: set<string>)
  {
    forall u, v, w :: u in visited && u !in except && IsStep(Succ(g), u, v, w) ==> Known(dist, v)
  }

  /** The estimate never drops by more than the weight of a step. */
  ghost predicate Consistent(g: Graph, h: string -> nat)
  {
    forall u, v, w: nat :: IsStep(Succ(g), u, v, w) ==> h(u) <= w + h(v)
  }

  ghost predicate OptimalOk(g: Graph, s: string, visited: seq<string>, dist: map<string, Ext>)
  {
    forall u :: u in visited ==> Known(dist, u) && NoCheaperWalk(Succ(g), s, u, dist[u].val)
  }

  /** Every step out of a visited node other than those in `except` has been relaxed. */
  ghost predicate RelaxedOk(g: Graph, visited: seq<string>, dist: map<string, Ext>, except: set<string>)
  {
    forall u, v, w :: u in visited && u !in except && IsStep(Succ(g), u, v, w) ==>
      Known(dist, u) && Known(dist, v) && dist[v].val <= dist[u].val + w
  }

  /** Every predecessor link is paid exactly by its step. */
  ghost predicate TightOk(dist: map<string, Ext>, prev: map<string, string>, L: Ledger)
  {
    forall v :: v in prev ==>
      v in L.pw && Known(dist, v) && Known(dist, prev[v]) && dist[prev[v]].val + L.pw[v] == dist[v].val
  }

  /** The loop invariant of dijkstra and a_star. */
  ghost predicate Inv(g: Graph, h: string -> nat, s: string, e: string, visited: seq<string>,
                      dist: map<string, Ext>, prev: map<string, string>, pq: seq<Entry>, L: Ledger,
                      except: set<string>)
  {
    InvCore(g, h, s, e, visited, dist, prev, pq, L, except) &&
    (Consistent(g, h) ==> InvOpt(g, s, visited, dist, prev, L, except))
  }

  /** The part of the invariant that holds whatever the estimate. */
  ghost predicate InvCore(g: Graph, h: string -> nat, s: string, e: string, visited: seq<string>,
                          dist: map<string, Ext>, prev: map<string, string>, pq: seq<Entry>, L: Ledger,
                          except: set<string>)
  {
    TargetsDeclared(g) && TableOk(g, s, dist, prev) &&
    VisitOrderOk(g, s, visited) && e !in visited && VisitedKnown(visited, dist) &&
    (visited == [] ==> pq == [Entry(0, s)]) &&
    RecordsOk(g, s, dist, L) && ParentsOk(s, dist, prev) && LinksOk(g, visited, dist, prev, L) &&
    QueueOk(s, visited, dist, h, pq) && PendingOk(s, visited, dist, h, pq) &&
    ReachOk(g, visited, dist, except)
  }

  /** The part of the invariant that needs a consistent estimate: visited nodes have their
      least cost, their steps are relaxed, and predecessor links are exact. */
  ghost predicate InvOpt(g: Graph, s: string, visited: seq<string>, dist: map<string, Ext>,
                         prev: map<string, string>, L: Ledger, except: set<string>)
  {
    OptimalOk(g, s, visited, dist) && RelaxedOk(g, visited, dist, except) && TightOk(dist, prev, L)
  }

  /** The table the searches start from: every declared id at infinity, the start at 0. */
  function InitialDist(g: Graph, s: string): (dist: map<string, Ext>)
    ensures dist.Keys == NodeIds(g) + {s} && dist[s] == Fin(0)
    ensures forall v :: v in dist && v != s ==> dist[v] == Inf
  {
    (map v | v in NodeIds(g) :: Inf)[s := Fin(0)]
  }

  ghost function InitialLedger(s: string): Ledger
  {
    Ledger(map[], map[s := 0], 1, map[s := [s]], map[s := []])
  }

  lemma InitialInv(g: Graph, h: string -> nat, s: string, e: string)
    requires TargetsDeclared(g)
    ensures Inv(g, h, s, e, [], InitialDist(g, s), map[], [Entry(0, s)], InitialLedger(s), {})
  {
    var dist := InitialDist(g, s);
    assert WalkFromTo(Succ(g), [s], [], s, s);
    forall v | Known(dist, v) ensures Recorded(g, s, dist, InitialLedger(s), v) {
      assert v == s;
    }
    forall v | Known(dist, v) ensures HasParent(s, map[], v) {
      assert v == s;
    }
  }

  /** The ranking that orders predecessor links: distance first, then the clock value. */
  ghost function Major(dist: map<string, Ext>): map<string, nat>
  {
    map v | v in dist && dist[v].Fin? :: dist[v].val
  }

  lemma LinksRanked(g: Graph, visited: seq<string>, dist: map<string, Ext>, prev: map<string, string>, L: Ledger)
    requires LinksOk(g, visited, dist, prev, L)
    ensures RankedBy(prev, Major(dist), L.stamp)
  {
    forall k | k in prev ensures Below(Major(dist), L.stamp, prev[k], k) {
      assert Link(g, visited, dist, prev, L, k);
    }
  }

  /** A visited list stays a valid visit order when a node one step from a visited node is
      appended. */
  lemma VisitOrderExtend(g: Graph, s: string, visited: seq<string>, u: string, v: string, w: nat)
    requires VisitOrderOk(g, s, visited) && v !in visited && u in visited && IsStep(Succ(g), u, v, w)
    ensures VisitOrderOk(g, s, visited + [v])
  {
    var visited' := visited + [v];
    forall i | 0 < i < |visited'| ensures ReachedFromEarlier(g, visited', i) {
      if i == |visited| {
        var j :| 0 <= j < |visited| && visited[j] == u;
        assert IsStep(Succ(g), visited'[j], visited'[i], w);
      } else {
        assert ReachedFromEarlier(g, visited, i);
        var j, w' :| 0 <= j < i && IsStep(Succ(g), visited[j], visited[i], w');
        assert IsStep(Succ(g), visited'[j], visited'[i], w');
      }
    }
  }

  /** The first fresh pop visits the start; every later one is a node other than the start
      popped under exactly its distance plus its estimate. */
  lemma PopPriority(g: Graph, h: string -> nat, s: string, e: string, visited: seq<string>,
                    dist: map<string, Ext>, prev: map<string, string>, pq: seq<Entry>, L: Ledger, x: Entry)
    requires Inv(g, h, s, e, visited, dist, prev, pq, L, {})
    requires x in pq && (forall y :: y in pq ==> !EntryLess(y, x)) && x.node !in visited
    ensures Known(dist, x.node)
    ensures visited == [] ==> x == Entry(0, s)
    ensures visited != [] ==> x.node != s && x.prio == dist[x.node].val + h(x.node)
  {
    assert EntryOk(s, visited, dist, h, x);
    if visited != [] {
      var y := Entry(dist[x.node].val + h(x.node), x.node);
      assert y in pq;
      assert !EntryLess(y, x);
    }
  }

  /** A consistent estimate grows by at most the cost of a walk. */
  lemma {:induction false} EstimateAlongWalk(g: Graph, h: string -> nat, p: seq<string>, ws: seq<nat>)
    requires Consistent(g, h) && Walk(Succ(g), p, ws)
    ensures h(p[0]) <= Sum(ws) + h(p[|p| - 1])
  {
    if ws != [] {
      var n := |ws| - 1;
      WalkPrefix(Succ(g), p, ws, n);
      EstimateAlongWalk(g, h, p[..n + 1], ws[..n]);
      assert IsStep(Succ(g), p[n], p[n + 1], ws[n]);
    }
  }

  /** With a consistent estimate, the node popped fresh has its least cost: any walk to it
      leaves the visited set through a relaxed step to a node whose queued entry the pop
      did not beat. */
  lemma PopOptimal(g: Graph, h: string -> nat, s: string, e: string, visited: seq<string>,
                   dist: map<string, Ext>, prev: map<string, string>, pq: seq<Entry>, L: Ledger, x: Entry)
    requires Inv(g, h, s, e, visited, dist, prev, pq, L, {}) && Consistent(g, h)
    requires x in pq && (forall y :: y in pq ==> !EntryLess(y, x)) && x.node !in visited
    ensures Known(dist, x.node) && NoCheaperWalk(Succ(g), s, x.node, dist[x.node].val)
  {
    PopPriority(g, h, s, e, visited, dist, prev, pq, L, x);
    var v := x.node;
    forall p, ws | WalkFromTo(Succ(g), p, ws, s, v) ensures dist[v].val <= Sum(ws) {
      if visited != [] {
        WalkPastFrontier(g, h, s, visited, dist, pq, x, p, ws);
      }
    }
  }

  /** The exchange argument behind PopOptimal, for one walk. */
  lemma WalkPastFrontier(g: Graph, h: string -> nat, s: string, visited: seq<string>,
                         dist: map<string, Ext>, pq: seq<Entry>, x: Entry, p: seq<string>, ws: seq<nat>)
    requires Consistent(g, h) && visited != [] && visited[0] == s
    requires OptimalOk(g, s, visited, dist) && RelaxedOk(g, visited, dist, {})
    requires PendingOk(s, visited, dist, h, pq)
    requires x in pq && (forall y :: y in pq ==> !EntryLess(y, x)) && x.node !in visited
    requires Known(dist, x.node) && x.prio == dist[x.node].val + h(x.node)
    requires WalkFromTo(Succ(g), p, ws, s, x.node)
    ensures dist[x.node].val <= Sum(ws)
  {
    var k := ExitBound(g, s, visited, dist, p, ws, x.node);
    var y := p[k];
    var z := Entry(dist[y].val + h(y), y);
    assert z in pq;
    assert !EntryLess(z, x);
    WalkSuffix(Succ(g), p, ws, k);
    EstimateAlongWalk(g, h, p[k..], ws[k..]);
    SumSplit(ws, k);
  }

  /** A walk from the start to an unvisited node leaves the visited nodes at some step,
      and the node it enters has a distance no greater than the walk's cost up to there. */
  lemma ExitBound(g: Graph, s: string, visited: seq<string>, dist: map<string, Ext>,
                  p: seq<string>, ws: seq<nat>, t: string) returns (k: nat)
    requires visited != [] && visited[0] == s
    requires OptimalOk(g, s, visited, dist) && RelaxedOk(g, visited, dist, {})
    requires WalkFromTo(Succ(g), p, ws, s, t) && t !in visited
    ensures 0 < k < |p| && k <= |ws| && p[k] !in visited && p[k] != s
    ensures Known(dist, p[k]) && dist[p[k]].val <= Sum(ws[..k])
  {
    k := FirstExit(Succ(g), AsSet(visited), p, ws);
    var u, y := p[k - 1], p[k];
    assert IsStep(Succ(g), u, y, ws[k - 1]);
    WalkPrefix(Succ(g), p, ws, k - 1);
    assert p[..k - 1 + 1] == p[..k];
    assert WalkFromTo(Succ(g), p[..k], ws[..k - 1], s, u);
    assert dist[u].val <= Sum(ws[..k - 1]);
    assert ws[..k] == ws[..k - 1] + [ws[k - 1]];
    SumAppend(ws[..k - 1], ws[k - 1]);
  }

  /** Popping an entry whose node was already visited keeps the invariant. */
  lemma PopStaleKeeps(g: Graph, h: string -> nat, s: string, e: string, visited: seq<string>,
                      dist: map<string, Ext>, prev: map<string, string>, pq: seq<Entry>, L: Ledger,
                      x: Entry, rest: seq<Entry>)
    requires Inv(g, h, s, e, visited, dist, prev, pq, L, {})
    requires x in pq && x.node in visited && multiset(rest) == multiset(pq) - multiset{x}
    ensures Inv(g, h, s, e, visited, dist, prev, rest, L, {})
  {
    forall y | y in rest ensures EntryOk(s, visited, dist, h, y) {
      assert y in multiset(rest);
      assert y in pq;
    }
    forall v | Known(dist, v) && v !in visited && v != s ensures Entry(dist[v].val + h(v), v) in rest {
      var y := Entry(dist[v].val + h(v), v);
      assert y in pq && y != x;
      assert y in multiset(pq) - multiset{x};
    }
  }

  /** Visiting the node of a fresh pop (not the end) keeps the invariant, except that the
      steps out of the new node still wait to be relaxed. */
  lemma PopFreshKeeps(g: Graph, h: string -> nat, s: string, e: string, visited: seq<string>,
                   dist: map<string, Ext>, prev: map<string, string>, pq: seq<Entry>, L: Ledger,
                   x: Entry, rest: seq<Entry>)
    requires Inv(g, h, s, e, visited, dist, prev, pq, L, {})
    requires x in pq && (forall y :: y in pq ==> !EntryLess(y, x)) && x.node !in visited && x.node != e
    requires multiset(rest) == multiset(pq) - multiset{x}
    ensures Inv(g, h, s, e, visited + [x.node], dist, prev, rest, L, {x.node})
    ensures x.node in dist && |AsSet(visited)| < |AsSet(visited + [x.node])| <= |dist.Keys|
  {
    VisitKeepsCore(g, h, s, e, visited, dist, prev, pq, L, x, rest);
    if Consistent(g, h) {
      PopOptimal(g, h, s, e, visited, dist, prev, pq, L, x);
      OptGrows(g, s, visited, dist, prev, L, x.node);
    }
  }

  lemma OptGrows(g: Graph, s: string, visited: seq<string>, dist: map<string, Ext>,
                 prev: map<string, string>, L: Ledger, v: string)
    requires InvOpt(g, s, visited, dist, prev, L, {})
    requires Known(dist, v) && NoCheaperWalk(Succ(g), s, v, dist[v].val)
    ensures InvOpt(g, s, visited + [v], dist, prev, L, {v})
  {
  }

  lemma VisitKeepsCore(g: Graph, h: string -> nat, s: string, e: string, visited: seq<string>,
                       dist: map<string, Ext>, prev: map<string, string>, pq: seq<Entry>, L: Ledger,
                       x: Entry, rest: seq<Entry>)
    requires Inv(g, h, s, e, visited, dist, prev, pq, L, {})
    requires x in pq && (forall y :: y in pq ==> !EntryLess(y, x)) && x.node !in visited && x.node != e
    requires multiset(rest) == multiset(pq) - multiset{x}
    ensures InvCore(g, h, s, e, visited + [x.node], dist, prev, rest, L, {x.node})
    ensures x.node in dist && |AsSet(visited)| < |AsSet(visited + [x.node])| <= |dist.Keys|
  {
    var v := x.node;
    PopPriority(g, h, s, e, visited, dist, prev, pq, L, x);
    VisitOrderOnPop(g, h, s, e, visited, dist, prev, pq, L, x);
    LinksGrow(g, visited, dist, prev, L, v);
    RestQueueOk(s, visited, dist, h, pq, x, rest);
    RestPendingOk(s, visited, dist, h, pq, x, rest);
    assert AsSet(visited) <= dist.Keys;
    VisitCounts(dist.Keys, visited, v);
    KnownGrow(visited, dist, v);
    ReachExcept(g, visited, dist, v);
  }

  lemma KnownGrow(visited: seq<string>, dist: map<string, Ext>, v: string)
    requires VisitedKnown(visited, dist) && Known(dist, v)
    ensures VisitedKnown(visited + [v], dist)
  {
  }

  /** The node just visited is the only one whose steps may still be unrelaxed. */
  lemma ReachExcept(g: Graph, visited: seq<string>, dist: map<string, Ext>, v: string)
    requires ReachOk(g, visited, dist, {})
    ensures ReachOk(g, visited + [v], dist, {v})
  {
    forall u, y, w | u in visited + [v] && u !in {v} && IsStep(Succ(g), u, y, w) ensures Known(dist, y) {
      assert u in visited;
    }
  }

  lemma VisitOrderOnPop(g: Graph, h: string -> nat, s: string, e: string, visited: seq<string>,
                        dist: map<string, Ext>, prev: map<string, string>, pq: seq<Entry>, L: Ledger, x: Entry)
    requires Inv(g, h, s, e, visited, dist, prev, pq, L, {})
    requires x in pq && (forall y :: y in pq ==> !EntryLess(y, x)) && x.node !in visited
    ensures VisitOrderOk(g, s, visited + [x.node])
  {
    var v := x.node;
    PopPriority(g, h, s, e, visited, dist, prev, pq, L, x);
    if visited == [] {
      assert VisitOrderOk(g, s, visited + [v]);
    } else {
      assert HasParent(s, prev, v);
      assert Link(g, visited, dist, prev, L, v);
      VisitOrderExtend(g, s, visited, prev[v], v, L.pw[v]);
    }
  }

  lemma LinksGrow(g: Graph, visited: seq<string>, dist: map<string, Ext>, prev: map<string, string>, L: Ledger, v: string)
    requires LinksOk(g, visited, dist, prev, L)
    ensures LinksOk(g, visited + [v], dist, prev, L)
  {
    forall k | k in prev ensures Link(g, visited + [v], dist, prev, L, k) {
      assert Link(g, visited, dist, prev, L, k);
    }
  }

  lemma RestQueueOk(s: string, visited: seq<string>, dist: map<string, Ext>, h: string -> nat,
                    pq: seq<Entry>, x: Entry, rest: seq<Entry>)
    requires QueueOk(s, visited, dist, h, pq) && (visited == [] ==> pq == [Entry(0, s)])
    requires x in pq && multiset(rest) == multiset(pq) - multiset{x}
    ensures QueueOk(s, visited + [x.node], dist, h, rest)
  {
    forall y | y in rest ensures EntryOk(s, visited + [x.node], dist, h, y) {
      assert y in multiset(rest);
      assert y in pq;
      assert EntryOk(s, visited, dist, h, y);
    }
  }

  lemma RestPendingOk(s: string, visited: seq<string>, dist: map<string, Ext>, h: string -> nat,
                      pq: seq<Entry>, x: Entry, rest: seq<Entry>)
    requires PendingOk(s, visited, dist, h, pq)
    requires x in pq && multiset(rest) == multiset(pq) - multiset{x}
    ensures PendingOk(s, visited + [x.node], dist, h, rest)
  {
    forall k | Known(dist, k) && k !in visited + [x.node] && k != s ensures Entry(dist[k].val + h(k), k) in rest {
      var y := Entry(dist[k].val + h(k), k);
      assert y in pq && y != x;
      assert y in multiset(pq) - multiset{x};
    }
  }

  /** An exhausted queue leaves the end unreachable: the visited nodes are closed under
      steps and hold the start but not the end. */
  lemma ExhaustedUnreachable(g: Graph, h: string -> nat, s: string, e: string, visited: seq<string>,
                             dist: map<string, Ext>, prev: map<string, string>, L: Ledger)
    requires Inv(g, h, s, e, visited, dist, prev, [], L, {})
    ensures visited != [] && !Reachable(Succ(g), s, e)
  {
    assert s in AsSet(visited) by { assert visited[0] == s; }
    forall u, v, w | u in AsSet(visited) && IsStep(Succ(g), u, v, w) ensures v in AsSet(visited) {
      assert Known(dist, v);
    }
    ClosedSetSeparates(Succ(g), AsSet(visited), s, e);
  }

  /** Relaxing the steps out of the node just visited restores the whole invariant. */
  lemma RelaxKeeps(g: Graph, h: string -> nat, s: string, e: string, visited: seq<string>,
                   dist: map<string, Ext>, prev: map<string, string>, pq: seq<Entry>, L: Ledger,
                   current: string, base: nat,
                   dist': map<string, Ext>, prev': map<string, string>, pq': seq<Entry>, L': Ledger)
    requires Inv(g, h, s, e, visited, dist, prev, pq, L, {current})
    requires current in visited && Known(dist, current) && dist[current].val == base
    requires RelaxSoFar(g, h, current, base, dist, prev, pq, L, dist', prev', pq', L')
    requires forall v, w: nat :: IsStep(Succ(g), current, v, w) ==>
      v in dist' && dist'[v].Fin? && dist'[v].val <= base + w
    ensures Inv(g, h, s, e, visited, dist', prev', pq', L', {}) && dist'.Keys == dist.Keys
  {
    RelaxKeepsCore(g, h, s, e, visited, dist, prev, pq, L, current, base, dist', prev', pq', L');
    if Consistent(g, h) {
      RelaxKeepsOpt(g, h, s, visited, dist, prev, pq, L, current, base, dist', prev', pq', L');
    }
  }

  lemma RelaxKeepsCore(g: Graph, h: string -> nat, s: string, e: string, visited: seq<string>,
                       dist: map<string, Ext>, prev: map<string, string>, pq: seq<Entry>, L: Ledger,
                       current: string, base: nat,
                       dist': map<string, Ext>, prev': map<string, string>, pq': seq<Entry>, L': Ledger)
    requires InvCore(g, h, s, e, visited, dist, prev, pq, L, {current})
    requires current in visited && Known(dist, current) && dist[current].val == base
    requires RelaxSoFar(g, h, current, base, dist, prev, pq, L, dist', prev', pq', L')
    requires forall v, w: nat :: IsStep(Succ(g), current, v, w) ==>
      v in dist' && dist'[v].Fin? && dist'[v].val <= base + w
    ensures InvCore(g, h, s, e, visited, dist', prev', pq', L', {})
  {
    StartKept(s, dist, prev, L, dist', prev', L', current, base, h, pq, pq', g);
    forall u | u in visited ensures Known(dist', u) {
      assert Known(dist, u);
      assert AtMost(dist'[u], dist[u]);
    }
    RecordsAfterRelax(g, h, s, current, base, dist, prev, pq, L, dist', prev', pq', L');
    ParentsAfterRelax(g, h, s, current, base, dist, prev, pq, L, dist', prev', pq', L');
    LinksAfterRelax(g, h, s, visited, current, base, dist, prev, pq, L, dist', prev', pq', L');
    QueueAfterRelax(g, h, s, visited, current, base, dist, prev, pq, L, dist', prev', pq', L');
    PendingAfterRelax(g, h, s, visited, current, base, dist, prev, pq, L, dist', prev', pq', L');
    forall u, v, w | u in visited && IsStep(Succ(g), u, v, w) ensures Known(dist', v) {
      if u != current {
        assert Known(dist, v);
        assert AtMost(dist'[v], dist[v]);
      }
    }
  }

  /** The start keeps distance 0 and no predecessor. */
  lemma StartKept(s: string, dist: map<string, Ext>, prev: map<string, string>, L: Ledger,
                  dist': map<string, Ext>, prev': map<string, string>, L': Ledger,
                  current: string, base: nat, h: string -> nat, pq: seq<Entry>, pq': seq<Entry>, g: Graph)
    requires s in dist && dist[s] == Fin(0) && s !in prev
    requires RelaxSoFar(g, h, current, base, dist, prev, pq, L, dist', prev', pq', L')
    ensures dist'[s] == Fin(0) && s !in prev'
  {
    assert AtMost(dist'[s], dist[s]);
    assert Kept(prev, L, prev', L', s);
  }

  lemma RecordsAfterRelax(g: Graph, h: string -> nat, s: string, current: string, base: nat,
                          dist: map<string, Ext>, prev: map<string, string>, pq: seq<Entry>, L: Ledger,
                          dist': map<string, Ext>, prev': map<string, string>, pq': seq<Entry>, L': Ledger)
    requires RecordsOk(g, s, dist, L) && Known(dist, current) && dist[current].val == base
    requires RelaxSoFar(g, h, current, base, dist, prev, pq, L, dist', prev', pq', L')
    ensures RecordsOk(g, s, dist', L')
  {
    assert Recorded(g, s, dist, L, current);
    forall v | Known(dist', v) ensures Recorded(g, s, dist', L', v) {
      if dist'[v] != dist[v] {
        assert Updated(g, h, current, base, L, v, dist', prev', pq', L');
        WalkExtend(Succ(g), L.route[current], L.steps[current], v, L'.pw[v]);
      } else {
        assert Known(dist, v);
        assert Kept(prev, L, prev', L', v);
        assert Recorded(g, s, dist, L, v);
      }
    }
  }

  lemma ParentsAfterRelax(g: Graph, h: string -> nat, s: string, current: string, base: nat,
                          dist: map<string, Ext>, prev: map<string, string>, pq: seq<Entry>, L: Ledger,
                          dist': map<string, Ext>, prev': map<string, string>, pq': seq<Entry>, L': Ledger)
    requires ParentsOk(s, dist, prev)
    requires RelaxSoFar(g, h, current, base, dist, prev, pq, L, dist', prev', pq', L')
    ensures ParentsOk(s, dist', prev')
  {
    forall v | Known(dist', v) ensures HasParent(s, prev', v) {
      if dist'[v] != dist[v] {
        assert Updated(g, h, current, base, L, v, dist', prev', pq', L');
      } else {
        assert HasParent(s, prev, v);
        assert Kept(prev, L, prev', L', v);
      }
    }
  }

  lemma LinksAfterRelax(g: Graph, h: string -> nat, s: string, visited: seq<string>, current: string, base: nat,
                        dist: map<string, Ext>, prev: map<string, string>, pq: seq<Entry>, L: Ledger,
                        dist': map<string, Ext>, prev': map<string, string>, pq': seq<Entry>, L': Ledger)
    requires LinksOk(g, visited, dist, prev, L) && RecordsOk(g, s, dist, L)
    requires current in visited && Known(dist, current) && dist[current].val == base
    requires RelaxSoFar(g, h, current, base, dist, prev, pq, L, dist', prev', pq', L')
    ensures LinksOk(g, visited, dist', prev', L')
  {
    assert Recorded(g, s, dist, L, current);
    assert Kept(prev, L, prev', L', current);
    forall v | v in prev' ensures Link(g, visited, dist', prev', L', v) {
      if v in dist && dist'[v] != dist[v] {
        assert Updated(g, h, current, base, L, v, dist', prev', pq', L');
      } else {
        assert Kept(prev, L, prev', L', v);
        assert Link(g, visited, dist, prev, L, v);
        var u := prev[v];
        assert AtMost(dist'[u], dist[u]);
        if dist'[u] != dist[u] {
          assert Updated(g, h, current, base, L, u, dist', prev', pq', L');
        } else {
          assert Kept(prev, L, prev', L', u);
        }
      }
    }
  }

  lemma QueueAfterRelax(g: Graph, h: string -> nat, s: string, visited: seq<string>, current: string, base: nat,
                        dist: map<string, Ext>, prev: map<string, string>, pq: seq<Entry>, L: Ledger,
                        dist': map<string, Ext>, prev': map<string, string>, pq': seq<Entry>, L': Ledger)
    requires QueueOk(s, visited, dist, h, pq) && visited != [] && s in dist && dist[s] == Fin(0)
    requires RelaxSoFar(g, h, current, base, dist, prev, pq, L, dist', prev', pq', L')
    ensures QueueOk(s, visited, dist', h, pq')
  {
    assert AtMost(dist'[s], dist[s]);
    forall x | x in pq' ensures EntryOk(s, visited, dist', h, x) {
      var j :| 0 <= j < |pq'| && pq'[j] == x;
      if j < |pq| {
        assert x == pq[j];
        assert EntryOk(s, visited, dist, h, x);
        assert AtMost(dist'[x.node], dist[x.node]);
      } else {
        assert Pushed(dist, dist', h, x);
      }
    }
  }

  lemma PendingAfterRelax(g: Graph, h: string -> nat, s: string, visited: seq<string>, current: string, base: nat,
                          dist: map<string, Ext>, prev: map<string, string>, pq: seq<Entry>, L: Ledger,
                          dist': map<string, Ext>, prev': map<string, string>, pq': seq<Entry>, L': Ledger)
    requires PendingOk(s, visited, dist, h, pq)
    requires RelaxSoFar(g, h, current, base, dist, prev, pq, L, dist', prev', pq', L')
    ensures PendingOk(s, visited, dist', h, pq')
  {
    forall v | Known(dist', v) && v !in visited && v != s ensures Entry(dist'[v].val + h(v), v) in pq' {
      if dist'[v] != dist[v] {
        assert Updated(g, h, current, base, L, v, dist', prev', pq', L');
      } else {
        var y := Entry(dist[v].val + h(v), v);
        assert y in pq;
        var j :| 0 <= j < |pq| && pq[j] == y;
        assert pq'[j] == y;
      }
    }
  }

  /** With a consistent estimate, relaxation cannot lower a visited node's least cost, so
      the optimality part of the invariant carries over. */
  lemma RelaxKeepsOpt(g: Graph, h: string -> nat, s: string, visited: seq<string>,
                      dist: map<string, Ext>, prev: map<string, string>, pq: seq<Entry>, L: Ledger,
                      current: string, base: nat,
                      dist': map<string, Ext>, prev': map<string, string>, pq': seq<Entry>, L': Ledger)
    requires InvOpt(g, s, visited, dist, prev, L, {current}) && RecordsOk(g, s, dist, L)
    requires LinksOk(g, visited, dist, prev, L)
    requires current in visited && Known(dist, current) && dist[current].val == base
    requires RelaxSoFar(g, h, current, base, dist, prev, pq, L, dist', prev', pq', L')
    requires forall v, w: nat :: IsStep(Succ(g), current, v, w) ==>
      v in dist' && dist'[v].Fin? && dist'[v].val <= base + w
    ensures InvOpt(g, s, visited, dist', prev', L', {})
  {
    VisitedStay(g, h, s, visited, dist, prev, pq, L, current, base, dist', prev', pq', L');
    forall u, v, w | u in visited && IsStep(Succ(g), u, v, w)
      ensures Known(dist', u) && Known(dist', v) && dist'[v].val <= dist'[u].val + w
    {
      if u != current {
        assert Known(dist, v) && dist[v].val <= dist[u].val + w;
        assert AtMost(dist'[v], dist[v]);
      }
    }
    forall v | v in prev'
      ensures v in L'.pw && Known(dist', v) && Known(dist', prev'[v]) && dist'[prev'[v]].val + L'.pw[v] == dist'[v].val
    {
      if v in dist && dist'[v] != dist[v] {
        assert Updated(g, h, current, base, L, v, dist', prev', pq', L');
      } else {
        assert Kept(prev, L, prev', L', v);
        assert Link(g, visited, dist, prev, L, v);
      }
    }
  }

  /** With visited nodes at their least cost, relaxation leaves their distances alone: a
      lower one would be paid by a walk through `current`. */
  lemma VisitedStay(g: Graph, h: string -> nat, s: string, visited: seq<string>,
                    dist: map<string, Ext>, prev: map<string, string>, pq: seq<Entry>, L: Ledger,
                    current: string, base: nat,
                    dist': map<string, Ext>, prev': map<string, string>, pq': seq<Entry>, L': Ledger)
    requires OptimalOk(g, s, visited, dist) && RecordsOk(g, s, dist, L)
    requires Known(dist, current) && dist[current].val == base
    requires RelaxSoFar(g, h, current, base, dist, prev, pq, L, dist', prev', pq', L')
    ensures forall u :: u in visited ==> dist'[u] == dist[u]
  {
    assert Recorded(g, s, dist, L, current);
    forall u | u in visited ensures dist'[u] == dist[u] {
      if dist'[u] != dist[u] {
        assert Updated(g, h, current, base, L, u, dist', prev', pq', L');
        assert AtMost(dist'[u], dist[u]);
        WalkExtend(Succ(g), L.route[current], L.steps[current], u, L'.pw[u]);
        assert WalkFromTo(Succ(g), L'.route[u], L'.steps[u], s, u);
      }
    }
  }
}
