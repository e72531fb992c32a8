/** The machinery shared by the two cost-based searches of algorithms.py (dijkstra and
    a_star): a distance table with an infinite default, a predecessor map, a priority queue
    of (priority, id) entries, and the relaxation of the edges out of the node just
    visited. Dijkstra is the instance whose estimate of the remaining cost is zero. */
module BestFirst {
  import opened Walks
  import opened Graphs
  import opened Heap
  import opened Traversal

  /** A recorded distance: Python's math.inf or a finite cost. */
  datatype Ext = Inf | Fin(val: nat)

  /** `c < d` with `d` possibly infinite. */
  predicate Improves(c: nat, d: Ext)
  {
    d.Inf? || c < d.val
  }

  /** `a <= b` with both possibly infinite. */
  predicate AtMost(a: Ext, b: Ext)
  {
    b.Inf? || (a.Fin? && a.val <= b.val)
  }

  /** Bookkeeping that exists only for the proof: the weight of the step that set each
      predecessor link, the time each distance was last lowered (a logical clock), and a
      walk from the start that pays exactly each recorded distance. */
  datatype Ledger = Ledger(pw: map<string, nat>, stamp: map<string, nat>, clock: nat,
                           route: map<string, seq<string>>, steps: map<string, seq<nat>>)

  ghost predicate Known(dist: map<string, Ext>, v: string)
  {
    v in dist && dist[v].Fin?
  }

  /** Relaxation lowered the distance of `k`, through `current`, and queued it. */
  ghost predicate Updated(g: Graph, h: string -> nat, current: string, base: nat, L: Ledger, k: string,
                          dist': map<string, Ext>, prev': map<string, string>, pq': seq<Entry>, L': Ledger)
  {
    current in L.route && current in L.steps &&
    k in dist' && dist'[k].Fin? && k in prev' && prev'[k] == current &&
    k in L'.pw && IsStep(Succ(g), current, k, L'.pw[k]) && dist'[k].val == base + L'.pw[k] &&
    k in L'.stamp && L.clock <= L'.stamp[k] < L'.clock &&
    k in L'.route && k in L'.steps &&
    L'.route[k] == L.route[current] + [k] && L'.steps[k] == L.steps[current] + [L'.pw[k]] &&
    Entry(dist'[k].val + h(k), k) in pq'
  }

  /** Relaxation left everything recorded about `k` as it was. */
  ghost predicate Kept(prev: map<string, string>, L: Ledger, prev': map<string, string>, L': Ledger, k: string)
  {
    (k in prev' <==> k in prev) && (k in prev ==> prev'[k] == prev[k]) &&
    (k in L'.pw <==> k in L.pw) && (k in L.pw ==> L'.pw[k] == L.pw[k]) &&
    (k in L'.stamp <==> k in L.stamp) && (k in L.stamp ==> L'.stamp[k] == L.stamp[k]) &&
    (k in L'.route <==> k in L.route) && (k in L.route ==> L'.route[k] == L.route[k]) &&
    (k in L'.steps <==> k in L.steps) && (k in L.steps ==> L'.steps[k] == L.steps[k])
  }

  /** A queue entry pushed by relaxation: its node's distance was lowered, and the
      priority is no less than the final distance plus the estimate. */
  ghost predicate Pushed(dist: map<string, Ext>, dist': map<string, Ext>, h: string -> nat, x: Entry)
  {
    x.node in dist && x.node in dist' && dist'[x.node].Fin? && dist'[x.node] != dist[x.node] &&
    x.prio >= dist'[x.node].val + h(x.node)
  }

  /** What Relax has established after handling some of the neighbours. The distances
      and predecessors are pinned exactly; the queue only up to its old prefix, followed by
      entries each of which is `Pushed`. It does not say that there is exactly one new
      entry per improving step, nor in which order they come. */
  ghost predicate RelaxSoFar(g: Graph, h: string -> nat, current: string, base: nat,
                             dist: map<string, Ext>, prev: map<string, string>, pq: seq<Entry>, L: Ledger,
                             dist': map<string, Ext>, prev': map<string, string>, pq': seq<Entry>, L': Ledger)
  {
    current in dist && dist'.Keys == dist.Keys && dist'[current] == dist[current] &&
    (forall k :: k in dist ==> AtMost(dist'[k], dist[k])) &&
    (forall k :: k in dist && dist'[k] != dist[k] ==> Updated(g, h, current, base, L, k, dist', prev', pq', L')) &&
    (forall k :: (k in dist ==> dist'[k] == dist[k]) ==> Kept(prev, L, prev', L', k)) &&
    L.clock <= L'.clock &&
    |pq| <= |pq'| && pq'[..|pq|] == pq &&
    (forall j :: |pq| <= j < |pq'| ==> Pushed(dist, dist', h, pq'[j]))
  }

  /** One improving update keeps what Relax has established, and lowers only `nx`. */
  lemma RelaxStepKeeps(g: Graph, h: string -> nat, current: string, base: nat,
                       dist: map<string, Ext>, prev: map<string, string>, pq: seq<Entry>, L: Ledger,
                       dist': map<string, Ext>, prev': map<string, string>, pq': seq<Entry>, L': Ledger,
                       nx: string, w: nat,
                       d2: map<string, Ext>, p2: map<string, string>, q2: seq<Entry>, L2: Ledger)
    requires current in dist && dist[current] == Fin(base)
    requires current in L.route && current in L.steps && nx in dist
    requires RelaxSoFar(g, h, current, base, dist, prev, pq, L, dist', prev', pq', L')
    requires IsStep(Succ(g), current, nx, w) && Improves(base + w, dist'[nx])
    requires d2 == dist'[nx := Fin(base + w)] && p2 == prev'[nx := current]
    requires q2 == pq' + [Entry(base + w + h(nx), nx)]
    requires L2 == Ledger(L'.pw[nx := w], L'.stamp[nx := L'.clock], L'.clock + 1,
                          L'.route[nx := L.route[current] + [nx]], L'.steps[nx := L.steps[current] + [w]])
    ensures RelaxSoFar(g, h, current, base, dist, prev, pq, L, d2, p2, q2, L2)
    ensures forall k :: k in dist' ==> AtMost(d2[k], dist'[k])
  {
    UpdatedAfterOne(g, h, current, base, dist, L, dist', prev', pq', L', nx, w);
    PushedAfterOne(h, base, dist, dist', pq, pq', nx, w);
    KeptAfterOne(current, base, dist, prev, L, dist', prev', L', nx, w);
  }

  /** The inner loop of dijkstra and a_star: for each neighbour of `current`, in edge order,
      the cost through `current` is `base` plus the step's weight; when it beats the recorded
      distance, record it, make `current` the predecessor, and push the neighbour with that
      cost plus the estimate `h`. */
  method Relax(g: Graph, h: string -> nat, current: string, base: nat,
               dist: map<string, Ext>, prev: map<string, string>, pq: seq<Entry>, ghost L: Ledger)
    returns (dist': map<string, Ext>, prev': map<string, string>, pq': seq<Entry>, ghost L': Ledger)
    requires current in dist && dist[current] == Fin(base)
    requires current in L.route && current in L.steps
    requires forall v, w: nat :: IsStep(Succ(g), current, v, w) ==> v in dist
    ensures RelaxSoFar(g, h, current, base, dist, prev, pq, L, dist', prev', pq', L')
    ensures forall v, w: nat :: IsStep(Succ(g), current, v, w) ==>
      v in dist' && dist'[v].Fin? && dist'[v].val <= base + w
  {
    var nbrs := GetNeighbors(g, current);
    dist', prev', pq', L' := dist, prev, pq, L;
    RelaxStart(g, h, current, base, dist, prev, pq, L);
    for i := 0 to |nbrs|
      invariant RelaxSoFar(g, h, current, base, dist, prev, pq, L, dist', prev', pq', L')
      invariant HopsTaken(base, nbrs, i, dist')
    {
      dist', prev', pq', L' := RelaxHop(g, h, current, base, dist, prev, pq, L, nbrs, i, dist', prev', pq', L');
    }
    OffersTaken(g, current, base, nbrs, dist');
  }

  /** Before the first neighbour nothing has changed. */
  lemma RelaxStart(g: Graph, h: string -> nat, current: string, base: nat,
                   dist: map<string, Ext>, prev: map<string, string>, pq: seq<Entry>, L: Ledger)
    requires current in dist
    ensures RelaxSoFar(g, h, current, base, dist, prev, pq, L, dist, prev, pq, L)
  {
    assert pq[..|pq|] == pq;
  }

  /** One turn of Relax's loop: the `i`-th hop of the scan. */
  method RelaxHop(g: Graph, h: string -> nat, current: string, base: nat,
                  ghost dist: map<string, Ext>, ghost prev: map<string, string>, ghost pq: seq<Entry>, ghost L: Ledger,
                  nbrs: seq<Hop>, i: nat,
                  dist': map<string, Ext>, prev': map<string, string>, pq': seq<Entry>, ghost L': Ledger)
    returns (d2: map<string, Ext>, p2: map<string, string>, q2: seq<Entry>, ghost L2: Ledger)
    requires current in dist && dist[current] == Fin(base) && current in L.route && current in L.steps
    requires forall v, w: nat :: IsStep(Succ(g), current, v, w) ==> v in dist
    requires nbrs == Neighbors(g.edges, current) && i < |nbrs|
    requires RelaxSoFar(g, h, current, base, dist, prev, pq, L, dist', prev', pq', L')
    requires HopsTaken(base, nbrs, i, dist')
    ensures RelaxSoFar(g, h, current, base, dist, prev, pq, L, d2, p2, q2, L2)
    ensures HopsTaken(base, nbrs, i + 1, d2)
  {
    var nx, w := nbrs[i].0, nbrs[i].1;
    assert IsStep(Succ(g), current, nx, w);
    var newDist := base + w;
    if Improves(newDist, dist'[nx]) {
      d2 := dist'[nx := Fin(newDist)];
      p2 := prev'[nx := current];
      q2 := pq' + [Entry(newDist + h(nx), nx)];
      L2 := Ledger(L'.pw[nx := w], L'.stamp[nx := L'.clock], L'.clock + 1,
                   L'.route[nx := L.route[current] + [nx]], L'.steps[nx := L.steps[current] + [w]]);
      RelaxStepKeeps(g, h, current, base, dist, prev, pq, L, dist', prev', pq', L', nx, w, d2, p2, q2, L2);
      OffersStayTaken(base, nbrs, i, dist', d2);
    } else {
      d2, p2, q2, L2 := dist', prev', pq', L';
    }
  }

  /** The first `n` hops of `nbrs` are handled: each neighbour's distance is at most
      `base` plus the hop's weight. */
  ghost predicate HopsTaken(base: nat, nbrs: seq<Hop>, n: nat, dist': map<string, Ext>)
    requires n <= |nbrs|
  {
    forall j :: 0 <= j < n ==>
      nbrs[j].0 in dist' && dist'[nbrs[j].0].Fin? && dist'[nbrs[j].0].val <= base + nbrs[j].1
  }

  /** Lowering distances keeps the neighbours handled so far handled, and the `i`-th one
      is handled once its distance is at most its offer. */
  lemma OffersStayTaken(base: nat, nbrs: seq<Hop>, i: nat, dist': map<string, Ext>, d2: map<string, Ext>)
    requires i < |nbrs| && dist'.Keys == d2.Keys
    requires forall k :: k in dist' ==> AtMost(d2[k], dist'[k])
    requires HopsTaken(base, nbrs, i, dist')
    requires nbrs[i].0 in d2 && d2[nbrs[i].0].Fin? && d2[nbrs[i].0].val <= base + nbrs[i].1
    ensures HopsTaken(base, nbrs, i + 1, d2)
  {
    forall j | 0 <= j < i ensures d2[nbrs[j].0].Fin? && d2[nbrs[j].0].val <= base + nbrs[j].1 {
      assert AtMost(d2[nbrs[j].0], dist'[nbrs[j].0]);
    }
  }

  /** Having handled every neighbour in the scan, every step out of `current` is handled. */
  lemma OffersTaken(g: Graph, current: string, base: nat, nbrs: seq<Hop>, dist': map<string, Ext>)
    requires nbrs == Neighbors(g.edges, current)
    requires HopsTaken(base, nbrs, |nbrs|, dist')
    ensures forall v, w: nat :: IsStep(Succ(g), current, v, w) ==>
      v in dist' && dist'[v].Fin? && dist'[v].val <= base + w
  {
    forall v, w: nat | IsStep(Succ(g), current, v, w)
      ensures v in dist' && dist'[v].Fin? && dist'[v].val <= base + w
    {
      var j :| 0 <= j < |nbrs| && nbrs[j].0 == v && nbrs[j].1 == w;
    }
  }

  /** After one improving update inside Relax, every lowered distance is still explained
      by an update through `current`. */
  lemma UpdatedAfterOne(g: Graph, h: string -> nat, current: string, base: nat,
                        dist: map<string, Ext>, L: Ledger,
                        dist': map<string, Ext>, prev': map<string, string>, pq': seq<Entry>, L': Ledger,
                        nx: string, w: nat)
    requires current in L.route && current in L.steps
    requires dist'.Keys == dist.Keys && nx in dist
    requires IsStep(Succ(g), current, nx, w) && L.clock <= L'.clock
    requires forall k :: k in dist && dist'[k] != dist[k] ==> Updated(g, h, current, base, L, k, dist', prev', pq', L')
    ensures var d2 := dist'[nx := Fin(base + w)];
      var p2 := prev'[nx := current];
      var q2 := pq' + [Entry(base + w + h(nx), nx)];
      var L2 := Ledger(L'.pw[nx := w], L'.stamp[nx := L'.clock], L'.clock + 1,
                       L'.route[nx := L.route[current] + [nx]], L'.steps[nx := L.steps[current] + [w]]);
      forall k :: k in dist && d2[k] != dist[k] ==> Updated(g, h, current, base, L, k, d2, p2, q2, L2)
  {
    var d2 := dist'[nx := Fin(base + w)];
    var p2 := prev'[nx := current];
    var q2 := pq' + [Entry(base + w + h(nx), nx)];
    var L2 := Ledger(L'.pw[nx := w], L'.stamp[nx := L'.clock], L'.clock + 1,
                     L'.route[nx := L.route[current] + [nx]], L'.steps[nx := L.steps[current] + [w]]);
    forall k | k in dist && d2[k] != dist[k] ensures Updated(g, h, current, base, L, k, d2, p2, q2, L2) {
      if k != nx {
        assert Updated(g, h, current, base, L, k, dist', prev', pq', L');
        assert Entry(dist'[k].val + h(k), k) in q2;
      }
    }
  }

  /** After one improving update inside Relax, every entry pushed so far is still
      accounted for. */
  lemma PushedAfterOne(h: string -> nat, base: nat, dist: map<string, Ext>,
                       dist': map<string, Ext>, pq: seq<Entry>, pq': seq<Entry>, nx: string, w: nat)
    requires dist'.Keys == dist.Keys && nx in dist
    requires forall k :: k in dist ==> AtMost(dist'[k], dist[k])
    requires Improves(base + w, dist'[nx])
    requires |pq| <= |pq'| && pq'[..|pq|] == pq
    requires forall j :: |pq| <= j < |pq'| ==> Pushed(dist, dist', h, pq'[j])
    ensures var d2 := dist'[nx := Fin(base + w)];
      var q2 := pq' + [Entry(base + w + h(nx), nx)];
      (forall k :: k in dist ==> AtMost(d2[k], dist[k])) &&
      |pq| <= |q2| && q2[..|pq|] == pq &&
      (forall j :: |pq| <= j < |q2| ==> Pushed(dist, d2, h, q2[j]))
  {
    var d2 := dist'[nx := Fin(base + w)];
    var q2 := pq' + [Entry(base + w + h(nx), nx)];
    assert AtMost(dist'[nx], dist[nx]);
    assert AtMost(d2[nx], dist[nx]) && d2[nx] != dist[nx];
    forall j | |pq| <= j < |q2| ensures Pushed(dist, d2, h, q2[j]) {
      if j < |pq'| {
        assert q2[j] == pq'[j];
        assert Pushed(dist, dist', h, pq'[j]);
      }
    }
    assert q2[..|pq|] == pq'[..|pq|];
  }

  /** After one improving update inside Relax, nothing else recorded has moved. */
  lemma KeptAfterOne(current: string, base: nat, dist: map<string, Ext>, prev: map<string, string>, L: Ledger,
                     dist': map<string, Ext>, prev': map<string, string>, L': Ledger, nx: string, w: nat)
    requires current in L.route && current in L.steps && nx in dist && current in dist
    requires dist'.Keys == dist.Keys && dist'[current] == Fin(base)
    requires forall k :: k in dist ==> AtMost(dist'[k], dist[k])
    requires Improves(base + w, dist'[nx])
    requires forall k :: (k in dist ==> dist'[k] == dist[k]) ==> Kept(prev, L, prev', L', k)
    ensures nx != current
    ensures var d2 := dist'[nx := Fin(base + w)];
      var p2 := prev'[nx := current];
      var L2 := Ledger(L'.pw[nx := w], L'.stamp[nx := L'.clock], L'.clock + 1,
                       L'.route[nx := L.route[current] + [nx]], L'.steps[nx := L.steps[current] + [w]]);
      forall k :: (k in dist ==> d2[k] == dist[k]) ==> Kept(prev, L, p2, L2, k)
  {
    assert AtMost(dist'[nx], dist[nx]);
  }
}
