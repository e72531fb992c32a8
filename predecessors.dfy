/** Path reconstruction from a predecessor map (algorithms.py reconstructPath). */
module Predecessors {
  import opened Walks

  /** Consecutive entries of `c` are linked by `prev`: each node's predecessor is the one
      before it. */
  ghost predicate PrevChain(prev: map<string, string>, c: seq<string>)
  {
    forall i :: 0 < i < |c| ==> c[i] in prev && prev[c[i]] == c[i - 1]
  }

  /** `a` ranks strictly below `b` in the lexicographic order of (major, minor). */
  ghost predicate Below(major: map<string, nat>, minor: map<string, nat>, a: string, b: string)
  {
    a in major && a in minor && b in major && b in minor &&
    (major[a] < major[b] || (major[a] == major[b] && minor[a] < minor[b]))
  }

  /** The ranking drops along every predecessor link, so `prev` has no cycle. */
  ghost predicate RankedBy(prev: map<string, string>, major: map<string, nat>, minor: map<string, nat>)
  {
    forall k :: k in prev ==> Below(major, minor, prev[k], k)
  }

  /** `s` read from the back (list.reverse). */
  function Reversed(s: seq<string>): (r: seq<string>)
    ensures |r| == |s|
  {
    if s == [] then [] else [s[|s| - 1]] + Reversed(s[..|s| - 1])
  }

  /** Position `i` of the reversal holds position |s| - 1 - i of `s`. */
  lemma {:induction false} ReversedAt(s: seq<string>)
    ensures forall i :: 0 <= i < |s| ==> Reversed(s)[i] == s[|s| - 1 - i]
  {
    if s != [] {
      ReversedAt(s[..|s| - 1]);
    }
  }

  lemma BelowTransitive(major: map<string, nat>, minor: map<string, nat>, a: string, b: string, c: string)
    requires Below(major, minor, a, b) && Below(major, minor, b, c)
    ensures Below(major, minor, a, c)
  {
  }

  /** Every earlier entry of `c` ranks strictly below every later one. */
  ghost predicate RankedChain(major: map<string, nat>, minor: map<string, nat>, c: seq<string>)
  {
    forall i, j :: 0 <= i < j < |c| ==> Below(major, minor, c[i], c[j])
  }

  /** Prepending the predecessor of a chain's first node keeps it a ranked chain. */
  lemma ChainExtend(prev: map<string, string>, major: map<string, nat>, minor: map<string, nat>, c: seq<string>)
    requires RankedBy(prev, major, minor) && c != [] && c[0] in prev
    requires PrevChain(prev, c) && RankedChain(major, minor, c)
    ensures PrevChain(prev, [prev[c[0]]] + c) && RankedChain(major, minor, [prev[c[0]]] + c)
  {
    var c' := [prev[c[0]]] + c;
    assert forall i :: 0 < i < |c'| ==> c'[i] == c[i - 1];
    forall i, j | 0 <= i < j < |c'| ensures Below(major, minor, c'[i], c'[j]) {
      if i == 0 && j > 1 {
        BelowTransitive(major, minor, c'[0], c[0], c[j - 1]);
      }
    }
  }

  lemma ReversedSnoc(s: seq<string>, x: string)
    ensures Reversed(s + [x]) == [x] + Reversed(s)
  {
    assert (s + [x])[..|s|] == s;
  }

  /** reconstructPath: walk back from `end` through `prev` while the current node has a
      predecessor; if the walk stops at `start`, return the walk reversed, else []. */
  method ReconstructPath(prev: map<string, string>, start: string, end: string,
                         ghost major: map<string, nat>, ghost minor: map<string, nat>)
    returns (path: seq<string>)
    requires RankedBy(prev, major, minor)
    ensures path != [] ==>
      path[0] == start && path[|path| - 1] == end && start !in prev &&
      PrevChain(prev, path) && Distinct(path)
    ensures path == [] ==>
      exists c :: |c| > 0 && PrevChain(prev, c) && c[|c| - 1] == end && c[0] !in prev && c[0] != start
    ensures end == start && start !in prev ==> path == [start]
  {
    path := [];
    var current := end;
    ghost var chain := [end];
    while current in prev
      invariant chain == Reversed(path + [current]) && chain != [] && chain[0] == current
      invariant PrevChain(prev, chain) && chain[|chain| - 1] == end
      invariant RankedChain(major, minor, chain)
      decreases if current in major then major[current] else 0,
                if current in minor then minor[current] else 0
    {
      ChainExtend(prev, major, minor, chain);
      ReversedSnoc(path + [current], prev[current]);
      path := path + [current];
      current := prev[current];
      chain := [current] + chain;
    }
    if current == start {
      path := Reversed(path + [start]);
      assert path == chain;
    } else {
      path := [];
      assert |chain| > 0 && PrevChain(prev, chain) && chain[0] !in prev && chain[0] != start;
    }
  }
}
