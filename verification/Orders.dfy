/** Sorting the members of a set by a total order. */
module Orders {
  ghost predicate IsTotalOrder<T(!new)>(atMost: (T, T) -> bool) {
    && (forall x, y :: atMost(x, y) || atMost(y, x))
    && (forall x, y :: atMost(x, y) && atMost(y, x) ==> x == y)
    && (forall x, y, z :: atMost(x, y) && atMost(y, z) ==> atMost(x, z))
  }

  predicate IsLeast<T(==)>(atMost: (T, T) -> bool, least: T, items: set<T>) {
    least in items && forall x :: x in items ==> atMost(least, x)
  }

  lemma {:induction false} LeastExists<T(!new)>(atMost: (T, T) -> bool, items: set<T>)
    requires IsTotalOrder(atMost) && items != {}
    ensures exists least :: IsLeast(atMost, least, items)
    decreases |items|
  {
    var some :| some in items;
    assert atMost(some, some);
    if items == {some} {
      assert IsLeast(atMost, some, items);
    } else {
      var rest := items - {some};
      LeastExists(atMost, rest);
      var l :| IsLeast(atMost, l, rest);
      var least := if atMost(some, l) then some else l;
      forall x | x in items ensures atMost(least, x) {
        assert x != some ==> x in rest;
      }
      assert IsLeast(atMost, least, items);
    }
  }

  function Least<T(!new,==)>(atMost: (T, T) -> bool, items: set<T>): (least: T)
    requires IsTotalOrder(atMost) && items != {}
    ensures IsLeast(atMost, least, items)
  {
    LeastExists(atMost, items);
    var least :| least in items && IsLeast(atMost, least, items);
    least
  }

  predicate Ordered<T(==)>(atMost: (T, T) -> bool, items: seq<T>) {
    forall i, j :: 0 <= i < j < |items| ==> atMost(items[i], items[j]) && items[i] != items[j]
  }

  function SortedBy<T(!new,==)>(atMost: (T, T) -> bool, items: set<T>): (sorted: seq<T>)
    requires IsTotalOrder(atMost)
    ensures forall x :: x in sorted <==> x in items
    ensures Ordered(atMost, sorted)
    ensures |sorted| == |items|
    decreases |items|
  {
    if items == {} then []
    else
      var first := Least(atMost, items);
      var rest := SortedBy(atMost, items - {first});
      FirstThenRest(atMost, first, rest, items);
      [first] + rest
  }

  lemma FirstThenRest<T(!new)>(atMost: (T, T) -> bool, first: T, rest: seq<T>, items: set<T>)
    requires IsLeast(atMost, first, items) && Ordered(atMost, rest)
    requires forall x :: x in rest <==> x in items - {first}
    ensures Ordered(atMost, [first] + rest)
    ensures forall x :: x in [first] + rest <==> x in items
  {
    forall i | 0 <= i < |rest| ensures atMost(first, rest[i]) && first != rest[i] {
      assert rest[i] in rest;
    }
  }
}
