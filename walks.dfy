/** Walks over a weighted successor relation, shared by every search in the model.
    A successor function maps a node id to the (neighbour, weight) pairs one step away,
    in the order the source enumerates them. */
module Walks {

  /** One step out of a node: the neighbour reached and the weight paid. */
  type Hop = (string, nat)

  type SuccFn = string -> seq<Hop>

  /** Total weight of a walk; the last weight is peeled off, matching how routes grow. */
  function Sum(ws: seq<nat>): nat
  {
    if ws == [] then 0 else Sum(ws[..|ws| - 1]) + ws[|ws| - 1]
  }

  predicate IsStep(succ: SuccFn, u: string, v: string, w: nat)
  {
    (v, w) in succ(u)
  }

  /** `p` is a walk whose i-th step pays `ws[i]`. */
  ghost predicate Walk(succ: SuccFn, p: seq<string>, ws: seq<nat>)
  {
    |p| == |ws| + 1 &&
    forall i :: 0 <= i < |ws| ==> IsStep(succ, p[i], p[i + 1], ws[i])
  }

  ghost predicate WalkFromTo(succ: SuccFn, p: seq<string>, ws: seq<nat>, s: string, t: string)
  {
    Walk(succ, p, ws) && p[0] == s && p[|p| - 1] == t
  }

  ghost predicate Reachable(succ: SuccFn, s: string, t: string)
  {
    exists p, ws :: WalkFromTo(succ, p, ws, s, t)
  }

  /** No walk from `s` to `t` is cheaper than `c`. */
  ghost predicate NoCheaperWalk(succ: SuccFn, s: string, t: string, c: nat)
  {
    forall p, ws :: WalkFromTo(succ, p, ws, s, t) ==> c <= Sum(ws)
  }

  ghost predicate Distinct(p: seq<string>)
  {
    forall i, j :: 0 <= i < j < |p| ==> p[i] != p[j]
  }

  /** Every step out of a member of `S` stays in `S`. */
  ghost predicate ClosedUnder(succ: SuccFn, S: set<string>)
  {
    forall u, v, w :: u in S && IsStep(succ, u, v, w) ==> v in S
  }

  lemma SumAppend(ws: seq<nat>, w: nat)
    ensures Sum(ws + [w]) == Sum(ws) + w
  {
    assert (ws + [w])[..|ws|] == ws;
  }

  lemma {:induction false} SumSplit(ws: seq<nat>, k: nat)
    requires k <= |ws|
    ensures Sum(ws) == Sum(ws[..k]) + Sum(ws[k..])
  {
    if k < |ws| {
      var n := |ws| - 1;
      SumSplit(ws[..n], k);
      assert ws[..n][..k] == ws[..k];
      assert ws[k..] == ws[..n][k..] + [ws[n]];
      SumAppend(ws[..n][k..], ws[n]);
    } else {
      assert ws[..k] == ws;
    }
  }

  /** Extending a walk by one step gives a walk whose cost grows by that step's weight. */
  lemma WalkExtend(succ: SuccFn, p: seq<string>, ws: seq<nat>, v: string, w: nat)
    requires Walk(succ, p, ws) && IsStep(succ, p[|p| - 1], v, w)
    ensures Walk(succ, p + [v], ws + [w]) && Sum(ws + [w]) == Sum(ws) + w
  {
    SumAppend(ws, w);
  }

  lemma WalkPrefix(succ: SuccFn, p: seq<string>, ws: seq<nat>, k: nat)
    requires Walk(succ, p, ws) && k < |p|
    ensures Walk(succ, p[..k + 1], ws[..k]) && Sum(ws[..k]) <= Sum(ws)
  {
    SumSplit(ws, k);
  }

  lemma WalkSuffix(succ: SuccFn, p: seq<string>, ws: seq<nat>, k: nat)
    requires Walk(succ, p, ws) && k < |p|
    ensures Walk(succ, p[k..], ws[k..])
  {
    forall i | 0 <= i < |ws[k..]|
      ensures IsStep(succ, p[k..][i], p[k..][i + 1], ws[k..][i])
    {
      assert p[k..][i] == p[k + i] && p[k..][i + 1] == p[k + i + 1];
    }
  }

  /** A walk that starts inside a step-closed set never leaves it. */
  lemma {:induction false} WalkStaysIn(succ: SuccFn, S: set<string>, p: seq<string>, ws: seq<nat>)
    requires Walk(succ, p, ws) && p[0] in S && ClosedUnder(succ, S)
    ensures p[|p| - 1] in S
  {
    if |ws| > 0 {
      var n := |ws| - 1;
      WalkPrefix(succ, p, ws, n);
      WalkStaysIn(succ, S, p[..n + 1], ws[..n]);
      assert IsStep(succ, p[n], p[n + 1], ws[n]);
    }
  }

  /** A walk from inside `S` to outside `S` has a first step that leaves `S`. */
  lemma {:induction false} FirstExit(succ: SuccFn, S: set<string>, p: seq<string>, ws: seq<nat>)
    returns (k: nat)
    requires Walk(succ, p, ws) && p[0] in S && p[|p| - 1] !in S
    ensures 0 < k < |p| && p[k - 1] in S && p[k] !in S
    ensures forall i :: 0 <= i < k ==> p[i] in S
  {
    k := 1;
    while p[k] in S
      invariant 0 < k < |p|
      invariant forall i :: 0 <= i < k ==> p[i] in S
      decreases |p| - k
    {
      k := k + 1;
    }
  }

  /** Unreachability follows from a step-closed set holding `s` but not `t`. */
  lemma ClosedSetSeparates(succ: SuccFn, S: set<string>, s: string, t: string)
    requires s in S && t !in S && ClosedUnder(succ, S)
    ensures !Reachable(succ, s, t)
  {
    if Reachable(succ, s, t) {
      var p, ws :| WalkFromTo(succ, p, ws, s, t);
      WalkStaysIn(succ, S, p, ws);
    }
  }
}
