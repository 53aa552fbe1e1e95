module Sequences {
  /** The first n items, or all if there are fewer. */
  function Take<T>(items: seq<T>, n: nat): (taken: seq<T>)
    ensures taken <= items && |taken| <= n && (|taken| < n ==> taken == items)
    ensures forall x :: x in taken ==> x in items
  {
    if |items| <= n then items else items[..n]
  }
}
