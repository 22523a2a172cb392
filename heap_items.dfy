/**
 * The two heap items and their comparators, and the two priority queues
 * of the engine, each modelled as a sequence kept sorted by distance.
 */
module HeapItems {

  /** `HeapNeighborItem`: a neighbour of the query item and its distance. */
  datatype Neighbor = Neighbor(index: nat, dist: real)

  /** `HeapHierarchicalItem`: a candidate merge of `index1` with `index2`. */
  datatype Candidate = Candidate(index1: nat, index2: nat, dist: real)

  /** `HeapNeighborItem::operator<`: the search heap is a max-heap on distance. */
  predicate NeighborLess(a: Neighbor, b: Neighbor)
  {
    a.dist < b.dist
  }

  /** `HeapHierarchicalItem::operator<` as the source writes it: `dist >= o.dist`. */
  predicate CandidateLessAsWritten(a: Candidate, b: Candidate)
  {
    a.dist >= b.dist
  }

  /** The comparator as intended: the merge queue is a min-heap on distance. */
  predicate CandidateLess(a: Candidate, b: Candidate)
  {
    a.dist > b.dist
  }

  /** As written, every candidate is "less" than itself, which no ordering for a heap may allow. */
  lemma CandidateLessAsWrittenIsReflexive(c: Candidate)
    ensures CandidateLessAsWritten(c, c)
  {
  }

  /** The intended comparator is a strict weak ordering. */
  lemma CandidateLessIsStrictWeakOrder(a: Candidate, b: Candidate, c: Candidate)
    ensures !CandidateLess(a, a)
    ensures CandidateLess(a, b) && CandidateLess(b, c) ==> CandidateLess(a, c)
    ensures !CandidateLess(a, b) && !CandidateLess(b, a) && !CandidateLess(b, c) && !CandidateLess(c, b)
      ==> !CandidateLess(a, c) && !CandidateLess(c, a)
  {
  }

  // The search heap `priority_queue<HeapNeighborItem>`: ascending by distance, `top()` is the last element.

  predicate NeighborsSorted(h: seq<Neighbor>)
  {
    forall k, l :: 0 <= k < l < |h| ==> h[k].dist <= h[l].dist
  }

  /** `push`: `e` goes after every element it is not less than. */
  function PushNeighbor(h: seq<Neighbor>, e: Neighbor): (r: seq<Neighbor>)
    ensures |r| == |h| + 1
    ensures multiset(r) == multiset(h) + multiset{e}
  {
    if h == [] || NeighborLess(e, h[0]) then
      [e] + h
    else
      assert h == [h[0]] + h[1..];
      [h[0]] + PushNeighbor(h[1..], e)
  }

  /** `push` keeps the heap ordered. */
  lemma {:induction false} PushNeighborSorted(h: seq<Neighbor>, e: Neighbor)
    requires NeighborsSorted(h)
    ensures NeighborsSorted(PushNeighbor(h, e))
  {
    if h != [] && !NeighborLess(e, h[0]) {
      var rest := PushNeighbor(h[1..], e);
      PushNeighborSorted(h[1..], e);
      forall l | 0 <= l < |rest|
        ensures h[0].dist <= rest[l].dist
      {
        assert rest[l] in multiset(rest);
        assert rest[l] in multiset(h[1..]) || rest[l] == e;
      }
    }
  }

  /** `top()` of a non-empty sorted heap is a greatest element. */
  lemma NeighborTopIsGreatest(h: seq<Neighbor>)
    requires NeighborsSorted(h) && h != []
    ensures forall x :: x in h ==> !NeighborLess(h[|h| - 1], x)
  {
  }

  // The merge queue `priority_queue<HeapHierarchicalItem>`: ascending by distance, `top()` is the first element.

  predicate CandidatesSorted(q: seq<Candidate>)
  {
    forall k, l :: 0 <= k < l < |q| ==> q[k].dist <= q[l].dist
  }

  /** `push`: `c` goes before the first element the comparator ranks below it. */
  function PushCandidate(q: seq<Candidate>, c: Candidate): (r: seq<Candidate>)
    ensures |r| == |q| + 1
    ensures multiset(r) == multiset(q) + multiset{c}
  {
    if q == [] || CandidateLess(q[0], c) then
      [c] + q
    else
      assert q == [q[0]] + q[1..];
      [q[0]] + PushCandidate(q[1..], c)
  }

  /** `push` keeps the merge queue ordered. */
  lemma {:induction false} PushCandidateSorted(q: seq<Candidate>, c: Candidate)
    requires CandidatesSorted(q)
    ensures CandidatesSorted(PushCandidate(q, c))
  {
    if q != [] && !CandidateLess(q[0], c) {
      var rest := PushCandidate(q[1..], c);
      PushCandidateSorted(q[1..], c);
      forall l | 0 <= l < |rest|
        ensures q[0].dist <= rest[l].dist
      {
        assert rest[l] in multiset(rest);
        assert rest[l] in multiset(q[1..]) || rest[l] == c;
      }
    }
  }

  /** `top()` of a non-empty sorted merge queue is a closest candidate: no element ranks above it. */
  lemma CandidateTopIsClosest(q: seq<Candidate>)
    requires CandidatesSorted(q) && q != []
    ensures forall x :: x in q ==> !CandidateLess(q[0], x)
  {
  }
}
