/**
 What several modules need.

 Option              a value or none, for Go's nil, `, ok` and not found
 AsSet               the elements of a list
 Concat              a list of lists in one list, which loops build from the left
 SubsetIsNoLarger    sizes of sets

 Concat takes its argument apart from the right, so that appending a group in a loop is one unfolding;
 ConcatSnoc and ConcatCons say what it does at either end.
 */
module Basics {

  datatype Option<+T> = None | Some(value: T)

  function AsSet<T(==)>(s: seq<T>): set<T> {
    set x | x in s
  }

  function Concat<T>(groups: seq<seq<T>>): seq<T> {
    if groups == [] then [] else Concat(groups[..|groups| - 1]) + groups[|groups| - 1]
  }

  lemma ConcatSnoc<T>(groups: seq<seq<T>>, g: seq<T>)
    ensures Concat(groups + [g]) == Concat(groups) + g
  {
    assert (groups + [g])[..|groups|] == groups;
  }

  lemma {:induction false} ConcatCons<T>(groups: seq<seq<T>>)
    requires groups != []
    ensures Concat(groups) == groups[0] + Concat(groups[1..])
  {
    var front := groups[..|groups| - 1];
    if front == [] {
      assert groups == [groups[0]];
      assert Concat(front) == [];
      assert Concat(groups) == [] + groups[0];
      assert Concat(groups[1..]) == [];
    } else {
      ConcatCons(front);
      assert groups[1..][..|groups[1..]| - 1] == front[1..];
      assert Concat(groups) == groups[0] + Concat(front[1..]) + groups[|groups| - 1];
    }
  }

  lemma SubsetIsNoLarger<T>(a: set<T>, b: set<T>)
    requires a <= b
    ensures |a| <= |b|
  {
    assert b == a + (b - a);
  }

  lemma SubsetOfSameSize<T>(a: set<T>, b: set<T>)
    requires a <= b && |b| <= |a|
    ensures a == b
  {
    assert b == a + (b - a);
  }
}
