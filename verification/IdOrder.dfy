/** Sets of ids in ascending order, which for ULIDs is the order in which they were generated. */
module IdOrder {
  import opened Memories
  import opened Orders

  predicate Increasing(ids: seq<Id>) {
    forall i, j :: 0 <= i < j < |ids| ==> ids[i] < ids[j]
  }

  predicate NotAfter(a: Id, b: Id) {
    a <= b
  }

  function SortedIds(ids: set<Id>): (sorted: seq<Id>)
    ensures forall i :: i in sorted <==> i in ids
    ensures Increasing(sorted)
    ensures |sorted| == |ids|
  {
    SortedBy(NotAfter, ids)
  }

  function SetOf(ids: seq<Id>): set<Id> {
    set i | i in ids
  }

  lemma {:induction false} IncreasingUnique(a: seq<Id>, b: seq<Id>)
    requires Increasing(a) && Increasing(b)
    requires forall i :: i in a <==> i in b
    ensures a == b
  {
    if b != [] {
      assert b[0] in a;
    }
    if a != [] {
      assert a[0] in b && b[0] in a;
      var a', b' := a[1..], b[1..];
      assert a[0] == b[0];
      forall i ensures i in a' <==> i in b' {
        assert i in a' ==> i in a && i > a[0];
        assert i in b' ==> i in b && i > b[0];
        assert i in a && i != a[0] ==> i in a';
        assert i in b && i != b[0] ==> i in b';
      }
      IncreasingUnique(a', b');
      assert a == [a[0]] + a' && b == [b[0]] + b';
    }
  }

  /** An increasing sequence is the sorting of its members. */
  lemma SortedIdsOf(ids: seq<Id>)
    requires Increasing(ids)
    ensures SortedIds(SetOf(ids)) == ids
  {
    IncreasingUnique(SortedIds(SetOf(ids)), ids);
  }
}
