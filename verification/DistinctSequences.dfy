/** Sequences without repetition: the contents of rings. */
module DistinctSequences {

  ghost predicate Distinct<T(!new)>(ring: seq<T>) {
    forall i, j :: 0 <= i < j < |ring| ==> ring[i] != ring[j]
  }

  /** Distinct elements, all from one set: no more than the set holds. */
  lemma {:induction false} DistinctBound<T(!new)>(ring: seq<T>, rest: set<T>)
    requires Distinct(ring) && forall id :: id in ring ==> id in rest
    ensures |ring| <= |rest|
    decreases ring
  {
    if ring != [] {
      var last := |ring| - 1;
      assert ring[last] in ring;
      assert forall id :: id in ring[..last] ==> id in ring && id != ring[last];
      DistinctBound(ring[..last], rest - {ring[last]});
    }
  }

  lemma {:induction false} DistinctOnce<T(!new)>(ring: seq<T>, id: T)
    requires Distinct(ring)
    ensures multiset(ring)[id] == if id in ring then 1 else 0
    decreases |ring|
  {
    if ring != [] {
      var last := |ring| - 1;
      DistinctOnce(ring[..last], id);
      assert ring == ring[..last] + [ring[last]];
      assert ring[last] !in ring[..last];
    }
  }

  function Members<T>(ring: seq<T>): (ids: set<T>) {
    set id | id in ring
  }

  lemma {:induction false} DistinctCount<T(!new)>(ring: seq<T>)
    requires Distinct(ring)
    ensures |Members(ring)| == |ring|
    decreases |ring|
  {
    if ring == [] {
      assert Members(ring) == {};
    } else {
      var last := |ring| - 1;
      DistinctCount(ring[..last]);
      assert ring == ring[..last] + [ring[last]];
      assert Members(ring) == Members(ring[..last]) + {ring[last]};
      assert ring[last] !in Members(ring[..last]);
    }
  }

  function Below(n: nat): (ids: set<nat>)
    ensures forall id: nat :: id in ids <==> id < n
  {
    assert forall id: nat | id < n :: id in Naturals(n) by {
      forall id: nat | id < n ensures id in Naturals(n) { assert Naturals(n)[id] == id; }
    }
    set id | id in Naturals(n)
  }

  function Naturals(n: nat): (ids: seq<nat>)
    ensures |ids| == n && forall i :: 0 <= i < n ==> ids[i] == i
  {
    seq(n, i => i)
  }

  lemma {:induction false} BelowCount(n: nat)
    ensures |Below(n)| == n
  {
    if n == 0 {
      assert Below(n) == {};
    } else {
      BelowCount(n - 1);
      assert Below(n) == Below(n - 1) + {n - 1};
    }
  }
}
