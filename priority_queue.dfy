/**
 * std::priority_queue<pair<float, size_t>, vector<...>, std::greater<...>>,
 * modelled by its contents: a multiset of entries whose top is the
 * lexicographically least pair.
 */
module PriorityQueue {
  import opened Distance

  /** A queue entry: tentative distance, then vertex index. */
  datatype Entry = Entry(dist: Dist, vertex: nat)

  /** std::pair's `<=`: compare distances, then vertices. */
  predicate EntryLe(a: Entry, b: Entry)
    ensures a.dist != b.dist ==> (EntryLe(a, b) <==> Less(a.dist, b.dist))
    ensures a.dist == b.dist ==> (EntryLe(a, b) <==> a.vertex <= b.vertex)
  {
    Less(a.dist, b.dist) || (a.dist == b.dist && a.vertex <= b.vertex)
  }

  /** e is in q and no entry of q is smaller. */
  predicate IsLeast(e: Entry, q: multiset<Entry>)
  {
    e in q && forall x :: x in q ==> EntryLe(e, x)
  }

  /** EntryLe is a total order. */
  lemma EntryLeTotal(a: Entry, b: Entry, c: Entry)
    ensures EntryLe(a, b) || EntryLe(b, a)
    ensures EntryLe(a, b) && EntryLe(b, c) ==> EntryLe(a, c)
    ensures EntryLe(a, b) && EntryLe(b, a) ==> a == b
  {
  }

  /** Every non-empty queue has a least entry. */
  lemma {:induction false} LeastExists(q: multiset<Entry>)
    requires q != multiset{}
    ensures exists e :: IsLeast(e, q)
    decreases |q|
  {
    var x :| x in q;
    var rest := q - multiset{x};
    assert q == rest + multiset{x};
    if rest == multiset{} {
      forall y | y in q
        ensures EntryLe(x, y)
      {
        assert y in multiset{x};
      }
      assert IsLeast(x, q);
    } else {
      LeastExists(rest);
      var m :| IsLeast(m, rest);
      var least := if EntryLe(x, m) then x else m;
      forall y | y in q
        ensures EntryLe(least, y)
      {
        EntryLeTotal(x, m, y);
        EntryLeTotal(m, x, y);
        if y != x {
          assert y in rest;
        }
      }
      assert IsLeast(least, q);
    }
  }

  /** The least entry is unique, so the top of the queue is determined by its contents. */
  lemma LeastUnique(e1: Entry, e2: Entry, q: multiset<Entry>)
    requires IsLeast(e1, q) && IsLeast(e2, q)
    ensures e1 == e2
  {
  }

  /** `top()` followed by `pop()`. */
  method PopMin(q: multiset<Entry>) returns (top: Entry, rest: multiset<Entry>)
    requires q != multiset{}
    ensures IsLeast(top, q)
    ensures rest == q - multiset{top} && |rest| == |q| - 1
  {
    LeastExists(q);
    top :| IsLeast(top, q);
    rest := q - multiset{top};
  }
}
