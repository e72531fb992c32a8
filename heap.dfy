/** The priority queue of the cost-based searches. Python's heapq keeps (priority, id)
    tuples and pops the smallest tuple, so ties on the priority go to the smaller id in
    code-point order. The heap's internal layout is not modelled: it is a sequence of
    entries, a push appends, and a pop removes a least entry. */
module Heap {

  datatype Entry = Entry(prio: nat, node: string)

  /** Python's string order: lexicographic by code point, a proper prefix first. */
  predicate StrLess(a: string, b: string)
  {
    if a == [] then b != []
    else if b == [] then false
    else if a[0] != b[0] then a[0] < b[0]
    else StrLess(a[1..], b[1..])
  }

  /** Python's tuple order on (priority, id). */
  predicate EntryLess(x: Entry, y: Entry)
  {
    x.prio < y.prio || (x.prio == y.prio && StrLess(x.node, y.node))
  }

  lemma {:induction false} StrLessIrreflexive(a: string)
    ensures !StrLess(a, a)
  {
    if a != [] {
      StrLessIrreflexive(a[1..]);
    }
  }

  lemma {:induction false} StrLessTransitive(a: string, b: string, c: string)
    requires StrLess(a, b) && StrLess(b, c)
    ensures StrLess(a, c)
  {
    if a != [] && a[0] == b[0] && b[0] == c[0] {
      StrLessTransitive(a[1..], b[1..], c[1..]);
    }
  }

  /** Any two distinct ids are ordered one way or the other. */
  lemma {:induction false} StrLessTotal(a: string, b: string)
    requires a != b
    ensures StrLess(a, b) || StrLess(b, a)
  {
    if a != [] && b != [] && a[0] == b[0] {
      assert a == [a[0]] + a[1..] && b == [b[0]] + b[1..];
      StrLessTotal(a[1..], b[1..]);
    }
  }

  lemma EntryLessTransitive(x: Entry, y: Entry, z: Entry)
    requires EntryLess(x, y) && EntryLess(y, z)
    ensures EntryLess(x, z)
  {
    if x.prio == y.prio == z.prio {
      StrLessTransitive(x.node, y.node, z.node);
    }
  }

  /** heappop: remove and return a least entry; what remains is the rest of the queue. */
  method PopMin(pq: seq<Entry>) returns (x: Entry, rest: seq<Entry>)
    requires pq != []
    ensures x in pq
    ensures forall y :: y in pq ==> !EntryLess(y, x)
    ensures multiset(rest) == multiset(pq) - multiset{x}
  {
    var best := 0;
    var i := 1;
    StrLessIrreflexive(pq[0].node);
    while i < |pq|
      invariant 0 <= best < |pq| && 1 <= i <= |pq|
      invariant forall j :: 0 <= j < i ==> !EntryLess(pq[j], pq[best])
    {
      if EntryLess(pq[i], pq[best]) {
        forall j | 0 <= j < i ensures !EntryLess(pq[j], pq[i]) {
          if EntryLess(pq[j], pq[i]) {
            EntryLessTransitive(pq[j], pq[i], pq[best]);
          }
        }
        StrLessIrreflexive(pq[i].node);
        best := i;
      }
      i := i + 1;
    }
    x := pq[best];
    rest := pq[..best] + pq[best + 1..];
    assert pq == pq[..best] + [x] + pq[best + 1..];
  }

  /** The popped entry is the unique least one: equal-priority ties go to the smaller id. */
  lemma PoppedIsUnique(pq: seq<Entry>, x: Entry, y: Entry)
    requires x in pq && y in pq
    requires forall z :: z in pq ==> !EntryLess(z, x)
    requires forall z :: z in pq ==> !EntryLess(z, y)
    ensures x == y
  {
    if x.node != y.node {
      StrLessTotal(x.node, y.node);
    }
  }
}
