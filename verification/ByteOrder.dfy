/** Byte strings in the order in which the storage engine keeps and iterates over them. */
module ByteOrder {
  import opened MachineTypes
  import opened Orders

  type Bytes = seq<Byte>

  predicate Less(a: Bytes, b: Bytes) {
    if b == [] then false
    else if a == [] then true
    else if a[0] != b[0] then a[0] < b[0]
    else Less(a[1..], b[1..])
  }

  predicate AtMost(a: Bytes, b: Bytes) {
    a == b || Less(a, b)
  }

  lemma {:induction false} LessTotal(a: Bytes, b: Bytes)
    ensures a == b || Less(a, b) || Less(b, a)
    decreases |a|
  {
    if a != [] && b != [] {
      LessTotal(a[1..], b[1..]);
      assert a == [a[0]] + a[1..] && b == [b[0]] + b[1..];
    }
  }

  lemma {:induction false} LessTransitive(a: Bytes, b: Bytes, c: Bytes)
    requires Less(a, b) && Less(b, c)
    ensures Less(a, c)
    decreases |a|
  {
    if a != [] {
      if a[0] == b[0] == c[0] {
        LessTransitive(a[1..], b[1..], c[1..]);
      }
    }
  }

  lemma {:induction false} LessIrreflexive(a: Bytes)
    ensures !Less(a, a)
    decreases |a|
  {
    if a != [] {
      LessIrreflexive(a[1..]);
    }
  }

  lemma LessAsymmetric(a: Bytes, b: Bytes)
    requires Less(a, b)
    ensures a != b && !Less(b, a)
  {
    LessIrreflexive(a);
    if Less(b, a) {
      LessTransitive(a, b, a);
    }
  }

  /** Strings between two strings with a common prefix have that prefix too. */
  lemma {:induction false} PrefixIsContiguous(prefix: Bytes, a: Bytes, b: Bytes, c: Bytes)
    requires prefix <= a && prefix <= c
    requires AtMost(a, b) && AtMost(b, c)
    ensures prefix <= b
    decreases |prefix|
  {
    if prefix != [] && a != b && b != c {
      assert a[0] == prefix[0] == c[0];
      PrefixIsContiguous(prefix[1..], a[1..], b[1..], c[1..]);
      assert prefix == [prefix[0]] + prefix[1..] && b == [b[0]] + b[1..];
    }
  }

  lemma {:induction false} LessWithPrefix(prefix: Bytes, a: Bytes, b: Bytes)
    ensures Less(prefix + a, prefix + b) == Less(a, b)
    decreases |prefix|
  {
    if prefix == [] {
      assert prefix + a == a && prefix + b == b;
    } else {
      assert (prefix + a)[1..] == prefix[1..] + a && (prefix + b)[1..] == prefix[1..] + b;
      LessWithPrefix(prefix[1..], a, b);
    }
  }

  /** Strings of one length compare by all but their last bytes first. */
  lemma {:induction false} LessByLast(a: Bytes, b: Bytes, x: Byte, y: Byte)
    requires |a| == |b|
    ensures Less(a + [x], b + [y]) <==> Less(a, b) || (a == b && x < y)
    decreases |a|
  {
    if a != [] {
      assert (a + [x])[1..] == a[1..] + [x] && (b + [y])[1..] == b[1..] + [y];
      assert a == [a[0]] + a[1..] && b == [b[0]] + b[1..];
      LessByLast(a[1..], b[1..], x, y);
    }
  }

  // ---------------------------------------------------------------------------------------
  //  Iteration
  // ---------------------------------------------------------------------------------------

  predicate Ascending(keys: seq<Bytes>) {
    forall i, j :: 0 <= i < j < |keys| ==> Less(keys[i], keys[j])
  }

  lemma BytesAreOrdered()
    ensures IsTotalOrder(AtMost)
  {
    forall a, b ensures AtMost(a, b) || AtMost(b, a) { LessTotal(a, b); }
    forall a, b | AtMost(a, b) && AtMost(b, a) ensures a == b {
      if a != b { LessAsymmetric(a, b); }
    }
    forall a, b, c | AtMost(a, b) && AtMost(b, c) ensures AtMost(a, c) {
      if a != b && b != c { LessTransitive(a, b, c); }
    }
  }

  /** The keys of a column family in iteration order. */
  function Sorted(keys: set<Bytes>): (scan: seq<Bytes>)
    ensures forall k :: k in scan <==> k in keys
    ensures Ascending(scan)
    ensures |scan| == |keys|
  {
    BytesAreOrdered();
    SortedBy(AtMost, keys)
  }
}
