module Permutations {
  // A sequence in another order has the same members.
  lemma SameMembers<T>(s: seq<T>, other: seq<T>)
    requires multiset(other) == multiset(s)
    ensures forall x :: x in s <==> x in other
  {
    assert forall x :: x in s <==> x in multiset(s);
    assert forall x :: x in other <==> x in multiset(other);
  }
}
