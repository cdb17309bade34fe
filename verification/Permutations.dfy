/** Two sequences with the same elements, taken apart one element at a time. */
module Permutations {

  lemma WithoutAt<T>(q: seq<T>, k: nat)
    requires k < |q|
    ensures multiset(q[..k] + q[k + 1..]) == multiset(q) - multiset{q[k]}
  {
    assert q == q[..k] + ([q[k]] + q[k + 1..]);
  }

  /** The head of one of two permutations, found in the other and taken out of both. */
  lemma {:induction false} TakeOut<T>(p: seq<T>, q: seq<T>) returns (k: nat)
    requires multiset(p) == multiset(q) && p != []
    ensures k < |q| && q[k] == p[0]
    ensures multiset(p[1..]) == multiset(q[..k] + q[k + 1..])
  {
    assert p[0] in multiset(p);
    k :| 0 <= k < |q| && q[k] == p[0];
    assert multiset(p[1..]) == multiset(p) - multiset{p[0]} by {
      assert p == [p[0]] + p[1..];
    }
    WithoutAt(q, k);
  }

  lemma SameLength<T>(p: seq<T>, q: seq<T>)
    requires multiset(p) == multiset(q)
    ensures |p| == |q|
    ensures forall x :: x in p <==> x in q
  {
    assert |p| == |multiset(p)| == |multiset(q)| == |q|;
    assert forall x :: x in p <==> x in multiset(p);
    assert forall x :: x in q <==> x in multiset(q);
  }

  lemma TailsMatch<T>(p: seq<T>, q: seq<T>)
    requires multiset(p) == multiset(q) && p != [] && q != [] && p[0] == q[0]
    ensures multiset(p[1..]) == multiset(q[1..])
  {
    assert p == [p[0]] + p[1..] && q == [q[0]] + q[1..];
    assert multiset(p[1..]) == multiset(p) - multiset{p[0]};
    assert multiset(q[1..]) == multiset(q) - multiset{q[0]};
  }
}
